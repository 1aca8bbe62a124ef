/** Which archive a call of Root gets: the one of its own key, the cached one as long as that will do. */
module ZipArchivesKeys {
  import opened Basics
  import opened ZipArchives
  import opened ZipArchivesTheorems
  import ZipIndex

  // ----- keys -----

  ghost predicate OwnKey(s: State, c: Call) {
    match c.pc
    case Entering(key) => key == c.key
    case Locked(key) => key == c.key
    case Absent(key) => key == c.key
    case AlreadyCached(key) => key == c.key
    case Failed => true
    case Found(key, id, _) => key == c.key && id < |s.archives| && s.archives[id].key == c.key
    case Refreshing(key, id) => key == c.key && id < |s.archives| && s.archives[id].key == c.key
    case Created(key, id) => key == c.key && id < |s.archives| && s.archives[id].key == c.key
    case Deleted(key, id) => key == c.key && id < |s.archives| && s.archives[id].key == c.key
    case Chosen(key, id) => key == c.key && id < |s.archives| && s.archives[id].key == c.key
    case _ => c.pc.id < |s.archives| && s.archives[c.pc.id].key == c.key
  }

  ghost predicate CacheKeyed(s: State) {
    forall key | key in s.cache :: s.cache[key].id < |s.archives| && s.archives[s.cache[key].id].key == key
  }

  ghost predicate KeysSound(s: State) {
    && CacheKeyed(s)
    && (forall t | t in s.calls :: OwnKey(s, s.calls[t]))
  }

  ghost predicate KeysKept(s: State, s': State) {
    |s.archives| <= |s'.archives| && forall i | 0 <= i < |s.archives| :: s'.archives[i].key == s.archives[i].key
  }

  lemma OwnKeyKept(s: State, s': State, c: Call)
    requires OwnKey(s, c) && KeysKept(s, s')
    ensures OwnKey(s', c)
  {
  }

  /** The whole from its parts, after call `t` has moved. */
  lemma AssembleKeys(s: State, s': State, t: Thread)
    requires KeysSound(s) && KeysKept(s, s') && t in s'.calls && s'.calls == s.calls[t := s'.calls[t]]
    requires OwnKey(s', s'.calls[t]) && CacheKeyed(s')
    ensures KeysSound(s')
  {
    forall u | u in s'.calls ensures OwnKey(s', s'.calls[u]) {
      if u != t {
        OwnKeyKept(s, s', s.calls[u]);
      }
    }
  }

  lemma KeysLocked(cfg: Config, s: State, a: Action)
    requires a.Get? || a.Examine? || a.SetDefault? || a.NewArchive? || a.Delete? || a.Add? || a.Unlock?
    requires KeysSound(s) && StepLocked(cfg, s, a).Some?
    ensures KeysSound(StepLocked(cfg, s, a).value)
  {
    assert OwnKey(s, s.calls[a.t]);
    AssembleKeys(s, StepLocked(cfg, s, a).value, a.t);
  }

  lemma KeysOpen(s: State, a: Action)
    requires a.CheckStatus? || a.DoOnce? || a.Wake? || a.GiveUp?
    requires KeysSound(s) && StepOpen(s, a).Some?
    ensures KeysSound(StepOpen(s, a).value)
  {
    assert OwnKey(s, s.calls[a.t]);
    AssembleKeys(s, StepOpen(s, a).value, a.t);
  }

  lemma KeysArchive(s: State, a: Action)
    requires a.Corrupt? || a.IndexNext? || a.FinishRead? || a.FailRead?
    requires KeysSound(s) && StepArchive(s, a).Some?
    ensures KeysSound(StepArchive(s, a).value)
  {
    var s' := StepArchive(s, a).value;
    assert s'.archives == s.archives[a.id := s'.archives[a.id]];
    forall u | u in s.calls ensures OwnKey(s', s.calls[u]) { OwnKeyKept(s, s', s.calls[u]); }
  }

  lemma KeysEnter(cfg: Config, s: State, a: Action)
    requires KeysSound(s) && Step(cfg, s, a).Some?
    requires a.Tick? || a.Cleanup? || a.ResetCache? || a.Begin? || a.Lock?
    ensures KeysSound(Step(cfg, s, a).value)
  {
    var s' := Step(cfg, s, a).value;
    if a.Begin? || a.Lock? {
      if a.t in s.calls {
        assert OwnKey(s, s.calls[a.t]);
      }
      AssembleKeys(s, s', a.t);
    } else {
      forall u | u in s.calls ensures OwnKey(s', s.calls[u]) { OwnKeyKept(s, s', s.calls[u]); }
    }
  }

  lemma {:induction false} KeysRun(cfg: Config, start: Time, run: seq<Action>)
    requires Play(cfg, start, run).Some?
    ensures KeysSound(Play(cfg, start, run).value)
  {
    if run != [] {
      var s, a := Play(cfg, start, run[..|run| - 1]).value, run[|run| - 1];
      KeysRun(cfg, start, run[..|run| - 1]);
      match a
      case Tick(_) => KeysEnter(cfg, s, a);
      case Cleanup(_) => KeysEnter(cfg, s, a);
      case ResetCache => KeysEnter(cfg, s, a);
      case Begin(_, _) => KeysEnter(cfg, s, a);
      case Lock(_) => KeysEnter(cfg, s, a);
      case Corrupt(_) => KeysArchive(s, a);
      case IndexNext(_) => KeysArchive(s, a);
      case FinishRead(_) => KeysArchive(s, a);
      case FailRead(_) => KeysArchive(s, a);
      case CheckStatus(_) => KeysOpen(s, a);
      case DoOnce(_) => KeysOpen(s, a);
      case Wake(_) => KeysOpen(s, a);
      case GiveUp(_) => KeysOpen(s, a);
      case _ => KeysLocked(cfg, s, a);
    }
  }

  /** A call never gets the archive of another key than the one it was made for. */
  lemma ReturnedForKey(cfg: Config, start: Time, before: seq<Action>, t: Thread, key: Key, after: seq<Action>)
    requires Play(cfg, start, before).Some? && Play(cfg, start, before + [Begin(t, key)]).Some?
    requires Play(cfg, start, before + [Begin(t, key)] + after).Some?
    ensures
      var s := Play(cfg, start, before + [Begin(t, key)] + after).value;
      && t in s.calls
      && (s.calls[t].pc.Returned? ==>
            s.calls[t].pc.id < |s.archives| && s.archives[s.calls[t].pc.id].key == key)
  {
    var run := before + [Begin(t, key)];
    assert run[..|run| - 1] == before && run[|run| - 1] == Begin(t, key);
    CallFixed(cfg, start, run, after, t);
    KeysRun(cfg, start, run + after);
    var s := Play(cfg, start, run + after).value;
    assert OwnKey(s, s.calls[t]);
  }

  // ----- a cached archive is used while it will do -----

  /** An archive that was opened once but whose resource has failed since. */
  predicate Spoilt(a: Archive) { a.phase == Done && !a.failed && a.corrupt }

  /** Nothing usable is cached under `key`. */
  ghost predicate NothingUsable(s: State, key: Key) {
    key in s.cache ==>
      s.cache[key].expiry < s.now || (s.cache[key].id < |s.archives| && Spoilt(s.archives[s.cache[key].id]))
  }

  ghost predicate SeenSound(s: State, c: Call) {
    match c.pc
    case Found(key, id, expiry) => key in s.cache ==> s.cache[key] == Item(id, expiry)
    case Absent(key) => NothingUsable(s, key)
    case _ => true
  }

  ghost predicate AllSeen(s: State) { forall t | t in s.calls :: SeenSound(s, s.calls[t]) }

  /** The cache only loses entries, archives only age, and time only passes. */
  ghost predicate Decays(s: State, s': State) {
    && s.now <= s'.now && |s.archives| <= |s'.archives|
    && (forall key | key in s'.cache :: key in s.cache && s'.cache[key] == s.cache[key])
    && (forall i | 0 <= i < |s.archives| :: Spoilt(s.archives[i]) ==> Spoilt(s'.archives[i]))
  }

  lemma SeenDecays(s: State, s': State, c: Call)
    requires SeenSound(s, c) && Decays(s, s')
    ensures SeenSound(s', c)
  {
  }

  /** Only who holds the lock has seen anything. */
  lemma SeenOthers(s: State, s': State, t: Thread)
    requires LockSound(s) && t in s.calls && UnderLock(s.calls[t].pc) && t in s'.calls
    requires s'.calls == s.calls[t := s'.calls[t]] && SeenSound(s', s'.calls[t])
    ensures AllSeen(s')
  {
    forall u | u in s'.calls ensures SeenSound(s', s'.calls[u]) {
      assert u != t ==> !UnderLock(s.calls[u].pc);
    }
  }

  lemma SeenLocked(cfg: Config, s: State, a: Action)
    requires a.Get? || a.Examine? || a.SetDefault? || a.NewArchive? || a.Delete? || a.Add? || a.Unlock?
    requires LockSound(s) && CallsSound(s) && AllSeen(s) && StepLocked(cfg, s, a).Some?
    ensures AllSeen(StepLocked(cfg, s, a).value)
  {
    var s' := StepLocked(cfg, s, a).value;
    assert CallSound(s, s.calls[a.t]) && SeenSound(s, s.calls[a.t]);
    SeenOthers(s, s', a.t);
  }

  lemma SeenDecaysAll(s: State, s': State, t: Thread)
    requires AllSeen(s) && Decays(s, s') && t in s'.calls && s'.calls == s.calls[t := s'.calls[t]]
    requires !s'.calls[t].pc.Found? && !s'.calls[t].pc.Absent?
    ensures AllSeen(s')
  {
    forall u | u in s'.calls ensures SeenSound(s', s'.calls[u]) {
      if u != t {
        SeenDecays(s, s', s.calls[u]);
      }
    }
  }

  lemma SeenOpen(s: State, a: Action)
    requires a.CheckStatus? || a.DoOnce? || a.Wake? || a.GiveUp?
    requires AllSeen(s) && StepOpen(s, a).Some?
    ensures AllSeen(StepOpen(s, a).value)
  {
    SeenDecaysAll(s, StepOpen(s, a).value, a.t);
  }

  lemma SeenArchive(s: State, a: Action)
    requires a.Corrupt? || a.IndexNext? || a.FinishRead? || a.FailRead?
    requires AllSeen(s) && StepArchive(s, a).Some?
    ensures AllSeen(StepArchive(s, a).value)
  {
    var s' := StepArchive(s, a).value;
    forall u | u in s.calls ensures SeenSound(s', s.calls[u]) { SeenDecays(s, s', s.calls[u]); }
  }

  lemma SeenEnter(cfg: Config, s: State, a: Action)
    requires AllSeen(s) && Step(cfg, s, a).Some?
    requires a.Tick? || a.Cleanup? || a.ResetCache? || a.Begin? || a.Lock?
    ensures AllSeen(Step(cfg, s, a).value)
  {
    var s' := Step(cfg, s, a).value;
    if a.Begin? || a.Lock? {
      SeenDecaysAll(s, s', a.t);
    } else {
      forall u | u in s.calls ensures SeenSound(s', s.calls[u]) { SeenDecays(s, s', s.calls[u]); }
    }
  }

  lemma {:induction false} SeenRun(cfg: Config, start: Time, run: seq<Action>)
    requires Play(cfg, start, run).Some?
    ensures AllSeen(Play(cfg, start, run).value)
  {
    if run != [] {
      var before, a := run[..|run| - 1], run[|run| - 1];
      var s := Play(cfg, start, before).value;
      SeenRun(cfg, start, before);
      InvRun(cfg, start, before);
      match a
      case Tick(_) => SeenEnter(cfg, s, a);
      case Cleanup(_) => SeenEnter(cfg, s, a);
      case ResetCache => SeenEnter(cfg, s, a);
      case Begin(_, _) => SeenEnter(cfg, s, a);
      case Lock(_) => SeenEnter(cfg, s, a);
      case Corrupt(_) => SeenArchive(s, a);
      case IndexNext(_) => SeenArchive(s, a);
      case FinishRead(_) => SeenArchive(s, a);
      case FailRead(_) => SeenArchive(s, a);
      case CheckStatus(_) => SeenOpen(s, a);
      case DoOnce(_) => SeenOpen(s, a);
      case Wake(_) => SeenOpen(s, a);
      case GiveUp(_) => SeenOpen(s, a);
      case _ => SeenLocked(cfg, s, a);
    }
  }

  /** No archive is created for a key while a usable one is cached for it. */
  lemma CreatedWhenNeeded(cfg: Config, start: Time, run: seq<Action>, t: Thread, entries: seq<ZipIndex.ZipEntry>)
    requires Play(cfg, start, run).Some? && Step(cfg, Play(cfg, start, run).value, NewArchive(t, entries)).Some?
    ensures
      var s := Play(cfg, start, run).value;
      t in s.calls && NothingUsable(s, s.calls[t].key)
  {
    var s := Play(cfg, start, run).value;
    SeenRun(cfg, start, run);
    KeysRun(cfg, start, run);
    assert OwnKey(s, s.calls[t]) && SeenSound(s, s.calls[t]);
  }

  /**
   A cached archive that is neither expired nor spoilt is the one used, and an opened one nearing
   its expiry is kept longer.
   */
  lemma UsesCached(cfg: Config, s: State, t: Thread, key: Key)
    requires t in s.calls && s.calls[t].pc == Locked(key)
    requires key in s.cache && s.cache[key].expiry >= s.now && s.cache[key].id < |s.archives|
    ensures
      var it := s.cache[key];
      var ar := s.archives[it.id];
      var looked := Step(cfg, s, Get(t));
      && looked.Some?
      && var seen := Step(cfg, looked.value, Examine(t));
         && seen.Some? && seen.value.archives == s.archives && seen.value.cache == s.cache
         && seen.value.calls[t].pc ==
            if Spoilt(ar) then Absent(key)
            else if ar.phase == Done && !ar.failed && it.expiry - s.now < cfg.refresh then Refreshing(key, it.id)
            else Chosen(key, it.id)
  {
  }

  lemma Prolonged(cfg: Config, s: State, t: Thread, key: Key, id: Id)
    requires t in s.calls && s.calls[t].pc == Refreshing(key, id)
    ensures
      var s' := Step(cfg, s, SetDefault(t));
      && s'.Some? && s'.value.calls[t].pc == Chosen(key, id)
      && s'.value.cache == s.cache[key := Item(id, s.now + cfg.expiration)]
  {
  }

  /** Without one that is unexpired a new archive is made, and cached from then on. */
  lemma MakesNew(cfg: Config, s: State, t: Thread, key: Key)
    requires t in s.calls && s.calls[t].pc == Locked(key)
    requires key in s.cache ==> s.cache[key].expiry < s.now
    ensures
      var s' := Step(cfg, s, Get(t));
      s'.Some? && s'.value.calls[t].pc == Absent(key) && s'.value.cache == s.cache
  {
  }

  // ----- what opening comes to, and that it comes to something -----

  /** A call returns the archive exactly when it is read and well; it fails when the archive failed or was spoilt. */
  lemma OpenOutcome(cfg: Config, s: State, t: Thread, id: Id)
    requires t in s.calls && id < |s.archives|
    ensures s.calls[t].pc == OpeningArchive(id) ==>
              var s', ar := Step(cfg, s, CheckStatus(t)), s.archives[id];
              && s'.Some?
              && s'.value.calls[t].pc ==
                 if ar.phase != Done then Once(id) else if ar.failed || ar.corrupt then Failed else Returned(id)
    ensures s.calls[t].pc == Waiting(id) && s.archives[id].phase == Done ==>
              var s' := Step(cfg, s, Wake(t));
              s'.Some? && s'.value.calls[t].pc == if s.archives[id].failed then Failed else Returned(id)
  {
  }

  ghost predicate LockHeld(s: State) {
    s.lock.Some? ==> s.lock.value in s.calls && UnderLock(s.calls[s.lock.value].pc)
  }

  lemma LockLocked(cfg: Config, s: State, a: Action)
    requires a.Get? || a.Examine? || a.SetDefault? || a.NewArchive? || a.Delete? || a.Add? || a.Unlock?
    requires LockSound(s) && LockHeld(s) && StepLocked(cfg, s, a).Some?
    ensures LockHeld(StepLocked(cfg, s, a).value)
  {
    assert UnderLock(s.calls[a.t].pc) && s.lock == Some(a.t);
  }

  lemma LockOpen(s: State, a: Action)
    requires a.CheckStatus? || a.DoOnce? || a.Wake? || a.GiveUp?
    requires LockHeld(s) && StepOpen(s, a).Some?
    ensures LockHeld(StepOpen(s, a).value)
  {
    assert !UnderLock(s.calls[a.t].pc);
  }

  lemma {:induction false} LockRun(cfg: Config, start: Time, run: seq<Action>)
    requires Play(cfg, start, run).Some?
    ensures LockHeld(Play(cfg, start, run).value)
  {
    if run != [] {
      var s, a := Play(cfg, start, run[..|run| - 1]).value, run[|run| - 1];
      LockRun(cfg, start, run[..|run| - 1]);
      InvRun(cfg, start, run[..|run| - 1]);
      match a
      case Tick(_) =>
      case Cleanup(_) =>
      case ResetCache =>
      case Begin(_, _) =>
      case Lock(_) =>
      case Corrupt(_) =>
      case IndexNext(_) =>
      case FinishRead(_) =>
      case FailRead(_) =>
      case CheckStatus(_) => LockOpen(s, a);
      case DoOnce(_) => LockOpen(s, a);
      case Wake(_) => LockOpen(s, a);
      case GiveUp(_) => LockOpen(s, a);
      case _ => LockLocked(cfg, s, a);
    }
  }

  /** The step a call makes by itself, from where it stands. */
  function NextStep(t: Thread, pc: Pc): Option<Action> {
    match pc
    case Entering(_) => Some(Lock(t))
    case Locked(_) => Some(Get(t))
    case Found(_, _, _) => Some(Examine(t))
    case Refreshing(_, _) => Some(SetDefault(t))
    case Absent(_) => Some(NewArchive(t, []))
    case Created(_, _) => Some(Delete(t))
    case Deleted(_, _) => Some(Add(t))
    case Chosen(_, _) => Some(Unlock(t))
    case AlreadyCached(_) => Some(Unlock(t))
    case OpeningArchive(_) => Some(CheckStatus(t))
    case Once(_) => Some(DoOnce(t))
    case Waiting(_) => Some(Wake(t))
    case Returned(_) => None
    case Failed => None
  }

  lemma MovesAlone(cfg: Config, s: State, t: Thread)
    requires Inv(cfg, s) && t in s.calls
    ensures
      var pc := s.calls[t].pc;
      !pc.Entering? && !pc.Waiting? && NextStep(t, pc).Some? ==> Step(cfg, s, NextStep(t, pc).value).Some?
  {
    assert CallSound(s, s.calls[t]);
  }

  lemma ReaderMoves(cfg: Config, s: State, id: Id)
    requires id < |s.archives| && ArchiveSound(s.archives[id]) && s.archives[id].phase == Reading
    ensures Step(cfg, s, IndexNext(id)).Some? || Step(cfg, s, FinishRead(id)).Some?
  {
  }

  /**
   No call is ever stranded: it can go on, or waits for a lock whose holder can, or for an archive
   whose reading can.
   */
  lemma CallsProgress(cfg: Config, start: Time, run: seq<Action>, t: Thread)
    requires Play(cfg, start, run).Some? && t in Play(cfg, start, run).value.calls
    ensures
      var s := Play(cfg, start, run).value;
      var pc := s.calls[t].pc;
      || pc.Returned? || pc.Failed?
      || (NextStep(t, pc).Some? && Step(cfg, s, NextStep(t, pc).value).Some?)
      || (pc.Entering? && s.lock.Some? && s.lock.value in s.calls
          && var u := s.lock.value;
             NextStep(u, s.calls[u].pc).Some? && Step(cfg, s, NextStep(u, s.calls[u].pc).value).Some?)
      || (pc.Waiting? && (Step(cfg, s, IndexNext(pc.id)).Some? || Step(cfg, s, FinishRead(pc.id)).Some?))
  {
    InvRun(cfg, start, run);
    LockRun(cfg, start, run);
    var s := Play(cfg, start, run).value;
    var pc := s.calls[t].pc;
    MovesAlone(cfg, s, t);
    if pc.Entering? && s.lock.Some? {
      MovesAlone(cfg, s, s.lock.value);
    } else if pc.Waiting? {
      assert CallSound(s, s.calls[t]);
      assert ArchiveSound(s.archives[pc.id]);
      if s.archives[pc.id].phase == Reading {
        ReaderMoves(cfg, s, pc.id);
      }
    }
  }
}
