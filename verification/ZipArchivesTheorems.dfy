/** What every run of the archive cache keeps. */
module ZipArchivesTheorems {
  import opened Basics
  import opened ZipArchives
  import opened ZipIndex

  ghost predicate ArchiveSound(a: Archive) {
    && a.runs == (if a.phase == Unread then 0 else 1)
    && a.indexed <= |a.entries| && (a.phase == Unread ==> a.indexed == 0)
    && (a.phase == Done && !a.failed ==> a.indexed == |a.entries|)
    && (a.failed || a.corrupt ==> a.phase == Done)
  }

  /** Only an archive that opened ever outlives the expiry it was added with. */
  ghost predicate ItemSound(cfg: Config, archives: seq<Archive>, it: Item) {
    && it.id < |archives|
    && (StatusOf(archives[it.id]) in {Opening, OpenError} ==> it.expiry == archives[it.id].added + cfg.expiration)
  }

  ghost predicate NotCached(cache: map<Key, Item>, id: Id) {
    forall key | key in cache :: cache[key].id != id
  }

  ghost predicate PcSound(s: State, c: Call) {
    match c.pc
    case Found(_, id, _) => id < |s.archives|
    case Refreshing(_, id) =>
      id < |s.archives| && id !in c.tainted && StatusOf(s.archives[id]) in {Opened, Corrupted}
    case Created(_, id) =>
      id < |s.archives| && id !in c.tainted && s.archives[id].phase == Unread && NotCached(s.cache, id)
    case Deleted(key, id) =>
      && id < |s.archives| && id !in c.tainted && s.archives[id].phase == Unread
      && NotCached(s.cache, id) && key !in s.cache
    case Chosen(_, id) => id < |s.archives| && id !in c.tainted
    case OpeningArchive(id) => id < |s.archives| && id !in c.tainted
    case Once(id) => id < |s.archives| && id !in c.tainted
    case Waiting(id) => id < |s.archives| && id !in c.tainted && s.archives[id].phase != Unread
    case Returned(id) =>
      id < |s.archives| && id !in c.tainted && s.archives[id].phase == Done && !s.archives[id].failed
    case AlreadyCached(_) => false
    case _ => true
  }

  ghost predicate CallSound(s: State, c: Call) {
    && (forall i | i in c.tainted :: i < |s.archives| && StatusOf(s.archives[i]) == Corrupted)
    && PcSound(s, c)
  }

  ghost predicate ArchivesSound(archives: seq<Archive>) {
    forall i | 0 <= i < |archives| :: ArchiveSound(archives[i])
  }

  ghost predicate CacheSound(cfg: Config, s: State) {
    forall key | key in s.cache :: ItemSound(cfg, s.archives, s.cache[key])
  }

  ghost predicate CallsSound(s: State) { forall t | t in s.calls :: CallSound(s, s.calls[t]) }

  /** Whoever is inside the locked section holds the lock. */
  ghost predicate LockSound(s: State) {
    forall t | t in s.calls && UnderLock(s.calls[t].pc) :: s.lock == Some(t)
  }

  /** An archive just created, known to its creator alone. */
  predicate Fresh(pc: Pc) { pc.Created? || pc.Deleted? }

  predicate Holds(pc: Pc, id: Id) {
    match pc
    case Entering(_) => false
    case Locked(_) => false
    case Absent(_) => false
    case AlreadyCached(_) => false
    case Failed => false
    case _ => pc.id == id
  }

  ghost predicate OwnFresh(p: Pc, q: Pc) { Fresh(p) ==> !Holds(q, p.id) }

  ghost predicate FreshSound(s: State) {
    forall t, u | t in s.calls && u in s.calls && t != u :: OwnFresh(s.calls[t].pc, s.calls[u].pc)
  }

  ghost predicate Inv(cfg: Config, s: State) {
    ArchivesSound(s.archives) && CacheSound(cfg, s) && CallsSound(s) && LockSound(s) && FreshSound(s)
  }

  // ----- changes the others do not notice -----

  ghost predicate Ages(a: Archive, a': Archive) {
    && a'.number == a.number && a'.entries == a.entries
    && (a.phase != Unread ==> a'.phase != Unread)
    && (a.phase == Done ==> a'.phase == Done && a'.failed == a.failed)
    && (a.corrupt ==> a'.corrupt)
  }

  ghost predicate AllAge(xs: seq<Archive>, ys: seq<Archive>) {
    |xs| <= |ys| && forall i | 0 <= i < |xs| :: Ages(xs[i], ys[i])
  }

  lemma TaintKept(s: State, s': State, c: Call)
    requires CallSound(s, c) && AllAge(s.archives, s'.archives)
    ensures forall i | i in c.tainted :: i < |s'.archives| && StatusOf(s'.archives[i]) == Corrupted
  {
    forall i | i in c.tainted ensures i < |s'.archives| && StatusOf(s'.archives[i]) == Corrupted {
      assert Ages(s.archives[i], s'.archives[i]);
    }
  }

  /** The calls other than `t`, when `t` makes a step: they rely on archives growing older only. */
  lemma OthersKept(s: State, s': State, skip: set<Thread>)
    requires CallsSound(s) && AllAge(s.archives, s'.archives)
    requires forall u | u in s.calls && u !in skip && Fresh(s.calls[u].pc) :: PcSound(s', s.calls[u])
    ensures forall u | u in s.calls && u !in skip :: CallSound(s', s.calls[u])
  {
    forall u | u in s.calls && u !in skip ensures CallSound(s', s.calls[u]) {
      var c := s.calls[u];
      assert CallSound(s, c);
      TaintKept(s, s', c);
    }
  }

  // ----- steps outside the lock -----

  lemma ItemsKept(cfg: Config, s: State, s': State)
    requires CacheSound(cfg, s) && AllAge(s.archives, s'.archives)
    requires forall i | 0 <= i < |s.archives| && !NotCached(s.cache, i) :: s'.archives[i].added == s.archives[i].added
    ensures forall key | key in s.cache :: ItemSound(cfg, s'.archives, s.cache[key])
  {
    forall key | key in s.cache ensures ItemSound(cfg, s'.archives, s.cache[key]) {
      assert ItemSound(cfg, s.archives, s.cache[key]);
      var id := s.cache[key].id;
      assert !NotCached(s.cache, id) && Ages(s.archives[id], s'.archives[id]);
    }
  }

  lemma InvArchive(cfg: Config, s: State, a: Action)
    requires Inv(cfg, s) && (a.Corrupt? || a.IndexNext? || a.FinishRead? || a.FailRead?)
    requires StepArchive(s, a).Some?
    ensures Inv(cfg, StepArchive(s, a).value)
  {
    var s' := StepArchive(s, a).value;
    assert ArchiveSound(s.archives[a.id]);
    assert s'.archives == s.archives[a.id := s'.archives[a.id]];
    forall u | u in s.calls && Fresh(s.calls[u].pc) ensures PcSound(s', s.calls[u]) {
      assert CallSound(s, s.calls[u]);
    }
    OthersKept(s, s', {});
    ItemsKept(cfg, s, s');
  }

  /** The whole invariant from its parts, after call `t` has moved. */
  lemma Assemble(cfg: Config, s: State, s': State, t: Thread)
    requires Inv(cfg, s) && t in s.calls && t in s'.calls && s'.calls == s.calls[t := s'.calls[t]]
    requires ArchivesSound(s'.archives) && CacheSound(cfg, s') && CallSound(s', s'.calls[t])
    requires forall u | u in s.calls && u != t :: CallSound(s', s.calls[u])
    requires UnderLock(s'.calls[t].pc) ==> s'.lock == Some(t)
    requires s'.lock == s.lock || s.lock == Some(t) || s.lock == None
    requires forall u | u in s.calls && u != t ::
               OwnFresh(s'.calls[t].pc, s.calls[u].pc) && OwnFresh(s.calls[u].pc, s'.calls[t].pc)
    ensures Inv(cfg, s')
  {
  }

  /** Moving to a position that holds no other archive breaks nobody's claim. */
  lemma ClaimsKept(s: State, t: Thread, pc: Pc)
    requires FreshSound(s) && t in s.calls && !Fresh(pc)
    requires forall id | Holds(pc, id) :: Holds(s.calls[t].pc, id)
    ensures forall u | u in s.calls && u != t ::
              OwnFresh(pc, s.calls[u].pc) && OwnFresh(s.calls[u].pc, pc)
  {
    forall u | u in s.calls && u != t ensures OwnFresh(s.calls[u].pc, pc) {
      assert OwnFresh(s.calls[u].pc, s.calls[t].pc);
    }
  }

  lemma InvOpen(cfg: Config, s: State, a: Action)
    requires Inv(cfg, s) && (a.CheckStatus? || a.Wake? || a.GiveUp?)
    requires StepOpen(s, a).Some?
    ensures Inv(cfg, StepOpen(s, a).value)
  {
    var s' := StepOpen(s, a).value;
    assert CallSound(s, s.calls[a.t]);
    ClaimsKept(s, a.t, s'.calls[a.t].pc);
    Assemble(cfg, s, s', a.t);
  }

  lemma InvDoOnce(cfg: Config, s: State, t: Thread)
    requires Inv(cfg, s) && StepOpen(s, DoOnce(t)).Some?
    ensures Inv(cfg, StepOpen(s, DoOnce(t)).value)
  {
    var s' := StepOpen(s, DoOnce(t)).value;
    var c := s.calls[t];
    assert CallSound(s, c);
    assert ArchiveSound(s.archives[c.pc.id]);
    assert s'.archives == s.archives[c.pc.id := s'.archives[c.pc.id]];
    forall u | u in s.calls && u != t && Fresh(s.calls[u].pc) ensures PcSound(s', s.calls[u]) {
      assert CallSound(s, s.calls[u]);
      assert OwnFresh(s.calls[u].pc, c.pc);
    }
    OthersKept(s, s', {t});
    TaintKept(s, s', c);
    ItemsKept(cfg, s, s');
    ClaimsKept(s, t, s'.calls[t].pc);
    Assemble(cfg, s, s', t);
  }

  // ----- steps under the lock -----

  /** While `t` holds the lock nobody else has a fresh archive. */
  lemma OnlyHolderFresh(s: State, t: Thread)
    requires LockSound(s) && t in s.calls && UnderLock(s.calls[t].pc)
    ensures forall u | u in s.calls && u != t :: !Fresh(s.calls[u].pc) && !UnderLock(s.calls[u].pc)
  {
  }

  lemma InvLookup(cfg: Config, s: State, a: Action)
    requires Inv(cfg, s) && (a.Get? || a.Examine? || a.Unlock?)
    requires StepLocked(cfg, s, a).Some?
    ensures Inv(cfg, StepLocked(cfg, s, a).value)
  {
    var s' := StepLocked(cfg, s, a).value;
    var c := s.calls[a.t];
    assert CallSound(s, c);
    OnlyHolderFresh(s, a.t);
    if a.Get? && c.pc.key in s.cache {
      assert ItemSound(cfg, s.archives, s.cache[c.pc.key]);
    }
    forall u | u in s.calls && u != a.t ensures CallSound(s', s.calls[u]) {
      assert CallSound(s, s.calls[u]);
    }
    Assemble(cfg, s, s', a.t);
  }

  lemma InvSetDefault(cfg: Config, s: State, t: Thread)
    requires Inv(cfg, s) && StepLocked(cfg, s, SetDefault(t)).Some?
    ensures Inv(cfg, StepLocked(cfg, s, SetDefault(t)).value)
  {
    var s' := StepLocked(cfg, s, SetDefault(t)).value;
    assert CallSound(s, s.calls[t]);
    OnlyHolderFresh(s, t);
    OthersKept(s, s', {t});
    Assemble(cfg, s, s', t);
  }

  lemma InvNewArchive(cfg: Config, s: State, t: Thread, entries: seq<ZipEntry>)
    requires Inv(cfg, s) && StepLocked(cfg, s, NewArchive(t, entries)).Some?
    ensures Inv(cfg, StepLocked(cfg, s, NewArchive(t, entries)).value)
  {
    var s' := StepLocked(cfg, s, NewArchive(t, entries)).value;
    var c, n := s.calls[t], |s.archives|;
    assert CallSound(s, c);
    OnlyHolderFresh(s, t);
    OthersKept(s, s', {t});
    TaintKept(s, s', c);
    ItemsKept(cfg, s, s');
    assert NotCached(s.cache, n) by {
      forall key | key in s.cache ensures s.cache[key].id != n { assert ItemSound(cfg, s.archives, s.cache[key]); }
    }
    forall u | u in s.calls && u != t ensures !Holds(s.calls[u].pc, n) {
      assert CallSound(s, s.calls[u]);
    }
    Assemble(cfg, s, s', t);
  }

  lemma InvDelete(cfg: Config, s: State, t: Thread)
    requires Inv(cfg, s) && StepLocked(cfg, s, Delete(t)).Some?
    ensures Inv(cfg, StepLocked(cfg, s, Delete(t)).value)
  {
    var s' := StepLocked(cfg, s, Delete(t)).value;
    assert CallSound(s, s.calls[t]);
    OnlyHolderFresh(s, t);
    OthersKept(s, s', {t});
    forall u | u in s.calls && u != t ensures OwnFresh(s'.calls[t].pc, s.calls[u].pc) {
      assert OwnFresh(s.calls[t].pc, s.calls[u].pc);
    }
    Assemble(cfg, s, s', t);
  }

  /** The insertion that could report errAlreadyCached never does: nobody else can have inserted. */
  lemma InvAdd(cfg: Config, s: State, t: Thread)
    requires Inv(cfg, s) && StepLocked(cfg, s, Add(t)).Some?
    ensures Inv(cfg, StepLocked(cfg, s, Add(t)).value)
  {
    var s' := StepLocked(cfg, s, Add(t)).value;
    var c := s.calls[t];
    assert CallSound(s, c);
    var id := c.pc.id;
    assert ArchiveSound(s.archives[id]);
    OnlyHolderFresh(s, t);
    assert s'.archives == s.archives[id := s'.archives[id]];
    OthersKept(s, s', {t});
    TaintKept(s, s', c);
    ItemsKept(cfg, s, s');
    Assemble(cfg, s, s', t);
  }

  // ----- the rest -----

  lemma InvEnvironment(cfg: Config, s: State, a: Action)
    requires Inv(cfg, s) && Step(cfg, s, a).Some?
    requires a.Tick? || a.Cleanup? || a.ResetCache?
    ensures Inv(cfg, Step(cfg, s, a).value)
  {
    var s' := Step(cfg, s, a).value;
    forall u | u in s.calls ensures CallSound(s', s.calls[u]) {
      assert CallSound(s, s.calls[u]);
    }
  }

  lemma InvEnter(cfg: Config, s: State, a: Action)
    requires Inv(cfg, s) && Step(cfg, s, a).Some? && (a.Begin? || a.Lock?)
    ensures Inv(cfg, Step(cfg, s, a).value)
  {
    var s' := Step(cfg, s, a).value;
    forall u | u in s.calls ensures CallSound(s', s.calls[u]) {
      assert CallSound(s, s.calls[u]);
    }
    if a.Lock? {
      assert CallSound(s, s.calls[a.t]);
      Assemble(cfg, s, s', a.t);
    }
  }

  lemma InvStep(cfg: Config, s: State, a: Action)
    requires Inv(cfg, s) && Step(cfg, s, a).Some?
    ensures Inv(cfg, Step(cfg, s, a).value)
  {
    match a
    case Tick(_) => InvEnvironment(cfg, s, a);
    case Cleanup(_) => InvEnvironment(cfg, s, a);
    case ResetCache => InvEnvironment(cfg, s, a);
    case Begin(_, _) => InvEnter(cfg, s, a);
    case Lock(_) => InvEnter(cfg, s, a);
    case Corrupt(_) => InvArchive(cfg, s, a);
    case IndexNext(_) => InvArchive(cfg, s, a);
    case FinishRead(_) => InvArchive(cfg, s, a);
    case FailRead(_) => InvArchive(cfg, s, a);
    case CheckStatus(_) => InvOpen(cfg, s, a);
    case Wake(_) => InvOpen(cfg, s, a);
    case GiveUp(_) => InvOpen(cfg, s, a);
    case DoOnce(t) => InvDoOnce(cfg, s, t);
    case SetDefault(t) => InvSetDefault(cfg, s, t);
    case NewArchive(t, entries) => InvNewArchive(cfg, s, t, entries);
    case Delete(t) => InvDelete(cfg, s, t);
    case Add(t) => InvAdd(cfg, s, t);
    case _ => InvLookup(cfg, s, a);
  }

  lemma {:induction false} InvRun(cfg: Config, start: Time, run: seq<Action>)
    requires Play(cfg, start, run).Some?
    ensures Inv(cfg, Play(cfg, start, run).value)
  {
    if run != [] {
      var before := run[..|run| - 1];
      InvRun(cfg, start, before);
      InvStep(cfg, Play(cfg, start, before).value, run[|run| - 1]);
    }
  }

  // ----- what archives record -----

  /** The maps hold what has been indexed so far, and numbers grow with every archive created. */
  ghost predicate RecordSound(a: Archive) {
    a.indexed <= |a.entries| && Indexed(a.entries[..a.indexed], a.files, a.directories)
  }

  ghost predicate RecordsSound(archives: seq<Archive>, numbers: nat) {
    && (forall i | 0 <= i < |archives| :: RecordSound(archives[i]) && archives[i].number <= numbers)
    && (forall i, j | 0 <= i < j < |archives| :: archives[i].number < archives[j].number)
  }

  lemma RecordUpdate(xs: seq<Archive>, numbers: nat, id: Id, a: Archive)
    requires RecordsSound(xs, numbers) && id < |xs| && a.number == xs[id].number && RecordSound(a)
    ensures RecordsSound(xs[id := a], numbers)
  {
  }

  lemma RecordNext(a: Archive, a': Archive)
    requires RecordSound(a) && a.indexed < |a.entries| && a'.entries == a.entries && a'.indexed == a.indexed + 1
    requires a'.files == FilesWith(a.files, a.entries[a.indexed], a.indexed)
    requires a'.directories == DirsWith(a.directories, a.entries[a.indexed], a.indexed)
    ensures RecordSound(a')
  {
    IndexGrows(a.entries, a.indexed, a.files, a.directories);
  }

  lemma RecordsArchive(s: State, a: Action)
    requires RecordsSound(s.archives, s.numbers) && (a.Corrupt? || a.IndexNext? || a.FinishRead? || a.FailRead?)
    requires StepArchive(s, a).Some?
    ensures RecordsSound(StepArchive(s, a).value.archives, StepArchive(s, a).value.numbers)
  {
    var ar, ar' := s.archives[a.id], StepArchive(s, a).value.archives[a.id];
    assert RecordSound(ar);
    if a.IndexNext? {
      RecordNext(ar, ar');
    }
    RecordUpdate(s.archives, s.numbers, a.id, ar');
  }

  lemma RecordsLocked(cfg: Config, s: State, a: Action)
    requires a.Get? || a.Examine? || a.SetDefault? || a.NewArchive? || a.Delete? || a.Add? || a.Unlock?
    requires RecordsSound(s.archives, s.numbers) && StepLocked(cfg, s, a).Some?
    ensures RecordsSound(StepLocked(cfg, s, a).value.archives, StepLocked(cfg, s, a).value.numbers)
  {
    var pc, s' := s.calls[a.t].pc, StepLocked(cfg, s, a).value;
    if a.NewArchive? {
      assert RecordSound(s'.archives[|s.archives|]);
    } else if a.Add? && s'.archives != s.archives {
      assert RecordSound(s.archives[pc.id]);
      RecordUpdate(s.archives, s.numbers, pc.id, s'.archives[pc.id]);
    }
  }

  lemma RecordsOpen(s: State, a: Action)
    requires a.CheckStatus? || a.DoOnce? || a.Wake? || a.GiveUp?
    requires RecordsSound(s.archives, s.numbers) && StepOpen(s, a).Some?
    ensures RecordsSound(StepOpen(s, a).value.archives, StepOpen(s, a).value.numbers)
  {
    var pc, s' := s.calls[a.t].pc, StepOpen(s, a).value;
    if a.DoOnce? {
      assert RecordSound(s.archives[pc.id]);
      RecordUpdate(s.archives, s.numbers, pc.id, s'.archives[pc.id]);
    }
  }

  lemma {:induction false} RecordsRun(cfg: Config, start: Time, run: seq<Action>)
    requires Play(cfg, start, run).Some?
    ensures RecordsSound(Play(cfg, start, run).value.archives, Play(cfg, start, run).value.numbers)
  {
    if run != [] {
      var s, a := Play(cfg, start, run[..|run| - 1]).value, run[|run| - 1];
      RecordsRun(cfg, start, run[..|run| - 1]);
      match a
      case Tick(_) =>
      case Cleanup(_) =>
      case ResetCache =>
      case Begin(_, _) =>
      case Lock(_) =>
      case Corrupt(_) => RecordsArchive(s, a);
      case IndexNext(_) => RecordsArchive(s, a);
      case FinishRead(_) => RecordsArchive(s, a);
      case FailRead(_) => RecordsArchive(s, a);
      case CheckStatus(_) => RecordsOpen(s, a);
      case DoOnce(_) => RecordsOpen(s, a);
      case Wake(_) => RecordsOpen(s, a);
      case GiveUp(_) => RecordsOpen(s, a);
      case _ => RecordsLocked(cfg, s, a);
    }
  }

  // ----- what that means for Root -----

  /** No call ever sees errAlreadyCached, so none goes round the loop of Root again. */
  lemma NeverAlreadyCached(cfg: Config, start: Time, run: seq<Action>, t: Thread)
    requires Play(cfg, start, run).Some? && t in Play(cfg, start, run).value.calls
    ensures !Play(cfg, start, run).value.calls[t].pc.AlreadyCached?
  {
    InvRun(cfg, start, run);
    var s := Play(cfg, start, run).value;
    assert CallSound(s, s.calls[t]);
  }

  /**
   A root that is returned was read by exactly one readArchive, which indexed every entry
   of its zip directory, and was not corrupted when the call began.
   */
  lemma ReturnedRoots(cfg: Config, start: Time, run: seq<Action>, t: Thread)
    requires Play(cfg, start, run).Some? && t in Play(cfg, start, run).value.calls
    ensures
      var s := Play(cfg, start, run).value;
      var c := s.calls[t];
      c.pc.Returned? ==>
        && c.pc.id < |s.archives| && c.pc.id !in c.tainted
        && var a := s.archives[c.pc.id];
           a.phase == Done && !a.failed && a.runs == 1 && Indexed(a.entries, a.files, a.directories)
  {
    InvRun(cfg, start, run);
    RecordsRun(cfg, start, run);
    var s := Play(cfg, start, run).value;
    assert CallSound(s, s.calls[t]);
    if s.calls[t].pc.Returned? {
      var a := s.archives[s.calls[t].pc.id];
      assert ArchiveSound(a) && RecordSound(a);
      assert a.entries[..|a.entries|] == a.entries;
    }
  }

  lemma CallStep(cfg: Config, s: State, a: Action, t: Thread)
    requires Step(cfg, s, a).Some? && t in s.calls
    ensures
      var calls := Step(cfg, s, a).value.calls;
      t in calls && calls[t].tainted == s.calls[t].tainted && calls[t].key == s.calls[t].key
  {
  }

  lemma {:induction false} CallFixed(cfg: Config, start: Time, run: seq<Action>, after: seq<Action>, t: Thread)
    requires Play(cfg, start, run).Some? && t in Play(cfg, start, run).value.calls
    requires Play(cfg, start, run + after).Some?
    ensures
      var calls, calls' := Play(cfg, start, run).value.calls, Play(cfg, start, run + after).value.calls;
      t in calls' && calls'[t].tainted == calls[t].tainted && calls'[t].key == calls[t].key
    decreases |after|
  {
    if after == [] {
      assert run + after == run;
    } else {
      var rest, last := after[..|after| - 1], after[|after| - 1];
      assert (run + after)[..|run + after| - 1] == run + rest && (run + after)[|run + after| - 1] == last;
      CallFixed(cfg, start, run, rest, t);
      CallStep(cfg, Play(cfg, start, run + rest).value, last, t);
    }
  }

  /** An archive that is corrupted when a call begins is never what that call returns. */
  lemma CorruptedNeverReturned(cfg: Config, start: Time, before: seq<Action>, t: Thread, key: Key, after: seq<Action>)
    requires Play(cfg, start, before).Some? && Play(cfg, start, before + [Begin(t, key)]).Some?
    requires Play(cfg, start, before + [Begin(t, key)] + after).Some?
    ensures
      var calls := Play(cfg, start, before + [Begin(t, key)] + after).value.calls;
      t in calls && (calls[t].pc.Returned? ==> calls[t].pc.id !in CorruptedNow(Play(cfg, start, before).value))
  {
    var run := before + [Begin(t, key)];
    assert run[..|run| - 1] == before && run[|run| - 1] == Begin(t, key);
    CallFixed(cfg, start, run, after, t);
    ReturnedRoots(cfg, start, run + after, t);
  }

  /** An archive that failed to open leaves the cache when it was first due to. */
  lemma FailureNotExtended(cfg: Config, start: Time, run: seq<Action>, key: Key)
    requires Play(cfg, start, run).Some? && key in Play(cfg, start, run).value.cache
    ensures
      var s := Play(cfg, start, run).value;
      var it := s.cache[key];
      it.id < |s.archives| && (s.archives[it.id].failed ==> it.expiry == s.archives[it.id].added + cfg.expiration)
  {
    InvRun(cfg, start, run);
    var s := Play(cfg, start, run).value;
    assert ItemSound(cfg, s.archives, s.cache[key]);
    assert ArchiveSound(s.archives[s.cache[key].id]);
  }

  /** Numbers taken from the shared counter, and so the prefixes of their side-cache keys, are all different. */
  lemma NumbersUnique(cfg: Config, start: Time, run: seq<Action>, i: Id, j: Id)
    requires Play(cfg, start, run).Some?
    ensures
      var xs := Play(cfg, start, run).value.archives;
      i < |xs| && j < |xs| && xs[i].number == xs[j].number ==> i == j
  {
    RecordsRun(cfg, start, run);
  }
}
