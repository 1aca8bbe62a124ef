/** What holds of every run of the domain cache, whatever the interleaving. */
module DomainCacheTheorems {
  import opened Basics
  import opened DomainCache
  import opened DomainCacheInvariant

  // ----- responses, once visible, are fixed -----

  function Called(a: Action, i: Id): nat { if a.Call? && a.id == i then 1 else 0 }
  function Closed(a: Action, i: Id): nat { if a == Publish(i) then 1 else 0 }

  /** What action `a` does to the i-th entry. */
  ghost predicate Moves(a: Action, i: Id, e: Entry, e': Entry) {
    && Evolves(e, e')
    && e'.backoff.calls == e.backoff.calls + Called(a, i)
    && e'.closes == e.closes + Closed(a, i)
  }

  ghost predicate AllMove(a: Action, es: seq<Entry>, es': seq<Entry>) {
    && |es| <= |es'| <= |es| + 1
    && (a.Call? || a.Publish? ==> a.id < |es|)
    && (forall i | 0 <= i < |es| :: Moves(a, i, es[i], es'[i]))
    && (|es'| > |es| ==> es'[|es|].backoff.calls == 0 && es'[|es|].closes == 0)
  }

  lemma CallerMoves(cfg: Config, s: State, a: Action)
    requires a.TryGet? || a.LockedGet? || a.CheckUpToDate? || a.CheckNeedsRefresh? || a.StartRefresh?
             || a.StartRetrieve? || a.Cancel? || a.Wake? || a.ReadLookup?
    requires StepCaller(cfg, s, a).Some?
    ensures AllMove(a, s.entries, StepCaller(cfg, s, a).value.entries)
  {
    var es, es' := s.entries, StepCaller(cfg, s, a).value.entries;
    var c := s.callers[a.t];
    if a.StartRefresh? {
      assert es' == es[c.id := es'[c.id]];
    } else if a.StartRetrieve? {
      assert es' == es[c.id := es'[c.id]];
    } else if a.LockedGet? {
    } else {
      assert es' == es;
    }
  }

  lemma RetrievalMoves(cfg: Config, s: State, a: Action)
    requires Inv(cfg, s) && (a.Call? || a.Receive? || a.Timeout? || a.Publish?)
    requires StepEntry(cfg, s, a).Some?
    ensures AllMove(a, s.entries, StepEntry(cfg, s, a).value.entries)
  {
    var es, es' := s.entries, StepEntry(cfg, s, a).value.entries;
    assert EntrySound(cfg, s.now, s.answered, es[a.id]);
    assert es' == es[a.id := es'[a.id]];
  }

  lemma CreateMoves(cfg: Config, s: State, id: Id)
    requires Inv(cfg, s) && StepEntry(cfg, s, RefreshCreate(id)).Some?
    ensures AllMove(RefreshCreate(id), s.entries, StepEntry(cfg, s, RefreshCreate(id)).value.entries)
  {
  }

  lemma DecideMoves(cfg: Config, s: State, id: Id)
    requires Inv(cfg, s) && StepEntry(cfg, s, RefreshDecide(id)).Some?
    ensures AllMove(RefreshDecide(id), s.entries, StepEntry(cfg, s, RefreshDecide(id)).value.entries)
  {
    var es, es' := s.entries, StepEntry(cfg, s, RefreshDecide(id)).value.entries;
    assert EntrySound(cfg, s.now, s.answered, es[id]) && ForwardLink(es, id);
    var n := es[id].refresher.next;
    assert EntrySound(cfg, s.now, s.answered, es[n]);
    assert es' == es[id := es[id].(refresher := Decided(n))][n := Decide(cfg, es[id], es[n], s.now)];
  }

  lemma ReplaceMoves(cfg: Config, s: State, id: Id)
    requires Inv(cfg, s) && StepEntry(cfg, s, RefreshReplace(id)).Some?
    ensures AllMove(RefreshReplace(id), s.entries, StepEntry(cfg, s, RefreshReplace(id)).value.entries)
  {
    var es, es' := s.entries, StepEntry(cfg, s, RefreshReplace(id)).value.entries;
    assert ForwardLink(es, id);
    var n := es[id].refresher.next;
    assert es' == es[id := es[id].(refresher := Replaced(n))][n := es[n].(shared := true)];
  }

  lemma StepMoves(cfg: Config, s: State, a: Action)
    requires Inv(cfg, s) && Step(cfg, s, a).Some?
    ensures AllMove(a, s.entries, Step(cfg, s, a).value.entries)
  {
    match a
    case Tick(_) =>
    case Begin(_, _) =>
    case Evict(_) =>
    case Call(_, _) => RetrievalMoves(cfg, s, a);
    case Receive(_) => RetrievalMoves(cfg, s, a);
    case Timeout(_) => RetrievalMoves(cfg, s, a);
    case Publish(_) => RetrievalMoves(cfg, s, a);
    case RefreshCreate(id) => CreateMoves(cfg, s, id);
    case RefreshDecide(id) => DecideMoves(cfg, s, id);
    case RefreshReplace(id) => ReplaceMoves(cfg, s, id);
    case _ => CallerMoves(cfg, s, a);
  }

  /**
   Over any continuation of any run, an entry that has been in the store and has a response
   keeps exactly that response, its creation time and its stamp.
   */
  lemma {:induction false} SharedResponseFixed(cfg: Config, start: Time, run: seq<Action>, more: seq<Action>)
    requires Play(cfg, start, run).Some? && Play(cfg, start, run + more).Some?
    ensures
      var es, es' := Play(cfg, start, run).value.entries, Play(cfg, start, run + more).value.entries;
      AllEvolve(es, es')
    decreases |more|
  {
    if more == [] {
      assert run + more == run;
    } else {
      var last := more[|more| - 1];
      var before := more[..|more| - 1];
      assert (run + more)[..|run + more| - 1] == run + before && (run + more)[|run + more| - 1] == last;
      SharedResponseFixed(cfg, start, run, before);
      var s := Play(cfg, start, run + before).value;
      InvRun(cfg, start, run + before);
      StepMoves(cfg, s, last);
      var es, es' := Play(cfg, start, run).value.entries, Step(cfg, s, last).value.entries;
      forall i | 0 <= i < |es| ensures Evolves(es[i], es'[i]) {
        assert Evolves(es[i], s.entries[i]) && Moves(last, i, s.entries[i], es'[i]);
      }
    }
  }

  // ----- each retrieval happens once -----

  function Publications(run: seq<Action>, id: Id): nat {
    if run == [] then 0
    else Publications(run[..|run| - 1], id) + (if run[|run| - 1] == Publish(id) then 1 else 0)
  }

  function Closes(es: seq<Entry>, id: Id): nat { if id < |es| then es[id].closes else 0 }

  lemma ClosesStep(a: Action, es: seq<Entry>, es': seq<Entry>, id: Id)
    requires AllMove(a, es, es')
    ensures Closes(es', id) == Closes(es, id) + Closed(a, id)
  {
    assert id < |es| ==> Moves(a, id, es[id], es'[id]);
  }

  lemma {:induction false} PublicationsAreCloses(cfg: Config, start: Time, run: seq<Action>, id: Id)
    requires Play(cfg, start, run).Some?
    ensures Publications(run, id) == Closes(Play(cfg, start, run).value.entries, id)
  {
    if run != [] {
      var before, a := run[..|run| - 1], run[|run| - 1];
      var s := Play(cfg, start, before).value;
      PublicationsAreCloses(cfg, start, before, id);
      InvRun(cfg, start, before);
      StepMoves(cfg, s, a);
      ClosesStep(a, s.entries, Step(cfg, s, a).value.entries, id);
    }
  }

  /** No run sets an entry's response, and closes its channel, twice. */
  lemma PublishedOnce(cfg: Config, start: Time, run: seq<Action>, id: Id)
    requires Play(cfg, start, run).Some?
    ensures Publications(run, id) <= 1
  {
    PublicationsAreCloses(cfg, start, run, id);
    InvRun(cfg, start, run);
    var s := Play(cfg, start, run).value;
    assert id < |s.entries| ==> EntrySound(cfg, s.now, s.answered, s.entries[id]);
  }

  function Calls(run: seq<Action>): nat {
    if run == [] then 0
    else Calls(run[..|run| - 1]) + (if run[|run| - 1].Call? then 1 else 0)
  }

  function SumCalls(es: seq<Entry>): nat {
    if es == [] then 0 else SumCalls(es[..|es| - 1]) + es[|es| - 1].backoff.calls
  }

  lemma {:induction false} SumCallsMoved(a: Action, es: seq<Entry>, es': seq<Entry>)
    requires |es| == |es'| && forall i | 0 <= i < |es| :: Moves(a, i, es[i], es'[i])
    ensures SumCalls(es') == SumCalls(es) + if a.Call? && a.id < |es| then 1 else 0
  {
    if es != [] {
      var n := |es| - 1;
      SumCallsMoved(a, es[..n], es'[..n]);
      assert Moves(a, n, es[n], es'[n]);
    }
  }

  lemma {:induction false} SumCallsBound(es: seq<Entry>, most: nat)
    requires forall i | 0 <= i < |es| :: es[i].backoff.calls <= most
    ensures SumCalls(es) <= most * |es|
  {
    if es != [] {
      SumCallsBound(es[..|es| - 1], most);
      assert most * |es| == most * (|es| - 1) + most;
    }
  }

  lemma SumCallsStep(a: Action, es: seq<Entry>, es': seq<Entry>)
    requires AllMove(a, es, es')
    ensures SumCalls(es') == SumCalls(es) + (if a.Call? then 1 else 0)
  {
    SumCallsMoved(a, es, es'[..|es|]);
    if |es'| == |es| {
      assert es'[..|es|] == es';
    }
  }

  lemma {:induction false} CallsAreCounted(cfg: Config, start: Time, run: seq<Action>)
    requires Play(cfg, start, run).Some?
    ensures Calls(run) == SumCalls(Play(cfg, start, run).value.entries)
  {
    if run != [] {
      var before := run[..|run| - 1];
      CallsAreCounted(cfg, start, before);
      InvRun(cfg, start, before);
      var s, a := Play(cfg, start, before).value, run[|run| - 1];
      StepMoves(cfg, s, a);
      SumCallsStep(a, s.entries, Step(cfg, s, a).value.entries);
    }
  }

  /** However many callers race, the client is called at most maxRetries times per entry ever created. */
  lemma CallsBounded(cfg: Config, start: Time, run: seq<Action>)
    requires Play(cfg, start, run).Some?
    ensures Calls(run) <= cfg.maxRetries * |Play(cfg, start, run).value.entries|
  {
    CallsAreCounted(cfg, start, run);
    InvRun(cfg, start, run);
    var s := Play(cfg, start, run).value;
    forall i | 0 <= i < |s.entries| ensures s.entries[i].backoff.calls <= cfg.maxRetries {
      assert EntrySound(cfg, s.now, s.answered, s.entries[i]);
    }
    SumCallsBound(s.entries, cfg.maxRetries);
  }

  // ----- what Resolve returns -----

  ghost predicate AnsweredIn(run: seq<Action>, es: seq<Entry>, d: Domain, l: Lookup) {
    exists k | 0 <= k < |run| :: run[k].Call? && run[k].answer == l && run[k].id < |es| && es[run[k].id].domain == d
  }

  lemma DomainKept(cfg: Config, s: State, a: Action, i: Id)
    requires Inv(cfg, s) && Step(cfg, s, a).Some? && i < |s.entries|
    ensures i < |Step(cfg, s, a).value.entries| && Step(cfg, s, a).value.entries[i].domain == s.entries[i].domain
  {
    StepMoves(cfg, s, a);
    assert Moves(a, i, s.entries[i], Step(cfg, s, a).value.entries[i]);
  }

  lemma NewAnswer(cfg: Config, s: State, a: Action, d: Domain, l: Lookup)
    requires Step(cfg, s, a).Some? && (d, l) in Step(cfg, s, a).value.answered && (d, l) !in s.answered
    ensures a.Call? && a.answer == l && a.id < |s.entries| && s.entries[a.id].domain == d
  {
  }

  lemma {:induction false} AnswersComeFromCalls(cfg: Config, start: Time, run: seq<Action>, d: Domain, l: Lookup)
    requires Play(cfg, start, run).Some? && (d, l) in Play(cfg, start, run).value.answered
    ensures AnsweredIn(run, Play(cfg, start, run).value.entries, d, l)
  {
    assert run != [];
    var last := |run| - 1;
    var before, a := run[..last], run[last];
    var s := Play(cfg, start, before).value;
    InvRun(cfg, start, before);
    var k := last;
    if (d, l) in s.answered {
      AnswersComeFromCalls(cfg, start, before, d, l);
      k :| 0 <= k < last && before[k].Call? && before[k].answer == l
           && before[k].id < |s.entries| && s.entries[before[k].id].domain == d;
      assert run[k] == before[k];
    } else {
      NewAnswer(cfg, s, a, d, l);
    }
    DomainKept(cfg, s, a, run[k].id);
  }

  /**
   Resolve never returns nil: what it returns for `d` is an answer the client gave for an entry
   of `d` (whether or not it was carried over refreshes since), or a retrieval's time-out.
   */
  lemma ResolveReturns(cfg: Config, start: Time, run: seq<Action>, t: Thread)
    requires Play(cfg, start, run).Some? && t in Play(cfg, start, run).value.callers
    ensures
      var s := Play(cfg, start, run).value;
      s.callers[t].Returned? ==>
        && s.callers[t].lookup.Some?
        && var d, l := s.callers[t].d, s.callers[t].lookup.value;
           AnsweredIn(run, s.entries, d, l) || l == TimedOut || (cfg.maxRetries == 0 && l == Blank)
  {
    var s := Play(cfg, start, run).value;
    InvRun(cfg, start, run);
    assert CallerSound(cfg, s.entries, s.answered, s.callers[t]);
    if s.callers[t].Returned? && (s.callers[t].d, s.callers[t].lookup.value) in s.answered {
      AnswersComeFromCalls(cfg, start, run, s.callers[t].d, s.callers[t].lookup.value);
    }
  }

  lemma WaiterCanMove(cfg: Config, s: State, t: Thread)
    requires EntriesSound(cfg, s) && t in s.callers && s.callers[t].Waiting?
    requires CallerSound(cfg, s.entries, s.answered, s.callers[t])
    ensures
      var id := s.callers[t].id;
      || Step(cfg, s, Wake(t)).Some?
      || Step(cfg, s, Publish(id)).Some?
      || Step(cfg, s, Timeout(id)).Some?
  {
    var id := s.callers[t].id;
    assert EntrySound(cfg, s.now, s.answered, s.entries[id]);
    match s.entries[id].setter
    case Selecting => assert StepEntry(cfg, s, Timeout(id)).Some?;
    case Setting(_) => assert StepEntry(cfg, s, Publish(id)).Some?;
    case Published => assert StepCaller(cfg, s, Wake(t)).Some?;
  }

  /** A waiting caller is never stranded: it can wake, or the retrieval it waits for can go on. */
  lemma WaitersProgress(cfg: Config, start: Time, run: seq<Action>, t: Thread)
    requires Play(cfg, start, run).Some? && t in Play(cfg, start, run).value.callers
    ensures
      var s := Play(cfg, start, run).value;
      s.callers[t].Waiting? ==>
        var id := s.callers[t].id;
        || Step(cfg, s, Wake(t)).Some?
        || Step(cfg, s, Publish(id)).Some?
        || Step(cfg, s, Timeout(id)).Some?
  {
    var s := Play(cfg, start, run).value;
    InvRun(cfg, start, run);
    assert CallerSound(cfg, s.entries, s.answered, s.callers[t]);
    if s.callers[t].Waiting? {
      WaiterCanMove(cfg, s, t);
    }
  }

  // ----- chains of refreshes -----

  /** No two entries were created to refresh the same one. */
  lemma OneRefreshEach(cfg: Config, start: Time, run: seq<Action>, m: Id, n: Id)
    requires Play(cfg, start, run).Some?
    ensures
      var es := Play(cfg, start, run).value.entries;
      m < |es| && n < |es| && es[m].parent.Some? && es[m].parent == es[n].parent ==> m == n
  {
    InvRun(cfg, start, run);
    var es := Play(cfg, start, run).value.entries;
    if m < |es| && n < |es| {
      assert BackLink(cfg, es, m) && BackLink(cfg, es, n);
    }
  }

  predicate Settled(r: Refresher) { r.Decided? || r.Replaced? }

  /**
   What the entry `shown` made for refreshing `stale` must hold, given the result `own` of its own
   retrieval: that result, unless it is a temporary error and `stale` is unexpired, and then
   exactly what `stale` holds, stamped with its creation time.
   */
  predicate Shows(cfg: Config, now: Time, stale: Entry, own: Entry, shown: Entry) {
    && (shown.original.Some? <==> HasTemporaryError(cfg, own) && !IsExpired(cfg, stale, now))
    && (if shown.original.Some? then shown.response == stale.response && shown.original == Some(stale.created)
        else shown.response == own.response)
  }

  /** What was decided in state `t` for the refresh of `id` is what state `s` shows. */
  ghost predicate Decision(cfg: Config, t: State, s: State, id: Id) {
    && id < |t.entries| && id < |s.entries|
    && t.entries[id].refresher.Awaiting? && Settled(s.entries[id].refresher)
    && s.entries[id].refresher.next == t.entries[id].refresher.next
    && s.entries[id].response == t.entries[id].response
    && var n := t.entries[id].refresher.next;
       && n < |t.entries| && n < |s.entries|
       && t.entries[n].original == None && t.entries[n].response.Some?
       && Shows(cfg, t.now, t.entries[id], t.entries[n], s.entries[n])
  }

  lemma DecideShows(cfg: Config, s: State, id: Id)
    requires Inv(cfg, s) && Step(cfg, s, RefreshDecide(id)).Some?
    ensures Decision(cfg, s, Step(cfg, s, RefreshDecide(id)).value, id)
  {
    var es := s.entries;
    assert ForwardLink(es, id);
    assert EntrySound(cfg, s.now, s.answered, es[es[id].refresher.next]);
  }

  /** A settled refresh stays settled, and neither of its two entries changes what it shows. */
  ghost predicate StaysSettled(es: seq<Entry>, es': seq<Entry>, id: Id)
    requires id < |es| && HasNext(es[id].refresher)
  {
    var n := es[id].refresher.next;
    && n < |es| <= |es'|
    && Settled(es'[id].refresher) && es'[id].refresher.next == n
    && es'[id].response == es[id].response
    && es'[n].response == es[n].response && es'[n].original == es[n].original
  }

  lemma CallerSettled(cfg: Config, s: State, a: Action, id: Id)
    requires Inv(cfg, s) && id < |s.entries| && Settled(s.entries[id].refresher)
    requires a.TryGet? || a.LockedGet? || a.CheckUpToDate? || a.CheckNeedsRefresh? || a.StartRefresh?
             || a.StartRetrieve? || a.Cancel? || a.Wake? || a.ReadLookup?
    requires StepCaller(cfg, s, a).Some?
    ensures StaysSettled(s.entries, StepCaller(cfg, s, a).value.entries, id)
  {
    assert ForwardLink(s.entries, id);
  }

  lemma RetrievalSettled(cfg: Config, s: State, a: Action, id: Id)
    requires Inv(cfg, s) && id < |s.entries| && Settled(s.entries[id].refresher)
    requires a.Call? || a.Receive? || a.Timeout? || a.Publish? || a.RefreshCreate?
    requires StepEntry(cfg, s, a).Some?
    ensures StaysSettled(s.entries, StepEntry(cfg, s, a).value.entries, id)
  {
    var es := s.entries;
    assert ForwardLink(es, id);
    assert EntrySound(cfg, s.now, s.answered, es[id]);
    assert EntrySound(cfg, s.now, s.answered, es[es[id].refresher.next]);
  }

  lemma RefreshSettled(cfg: Config, s: State, a: Action, id: Id)
    requires Inv(cfg, s) && id < |s.entries| && Settled(s.entries[id].refresher)
    requires (a.RefreshDecide? || a.RefreshReplace?) && StepEntry(cfg, s, a).Some?
    ensures StaysSettled(s.entries, StepEntry(cfg, s, a).value.entries, id)
  {
    var es := s.entries;
    assert ForwardLink(es, id) && ForwardLink(es, a.id);
    assert EntrySound(cfg, s.now, s.answered, es[id]);
  }

  lemma StepSettled(cfg: Config, s: State, a: Action, id: Id)
    requires Inv(cfg, s) && Step(cfg, s, a).Some?
    requires id < |s.entries| && Settled(s.entries[id].refresher)
    ensures StaysSettled(s.entries, Step(cfg, s, a).value.entries, id)
  {
    assert ForwardLink(s.entries, id);
    match a
    case Tick(_) =>
    case Begin(_, _) =>
    case Evict(_) =>
    case Call(_, _) => RetrievalSettled(cfg, s, a, id);
    case Receive(_) => RetrievalSettled(cfg, s, a, id);
    case Timeout(_) => RetrievalSettled(cfg, s, a, id);
    case Publish(_) => RetrievalSettled(cfg, s, a, id);
    case RefreshCreate(_) => RetrievalSettled(cfg, s, a, id);
    case RefreshDecide(_) => RefreshSettled(cfg, s, a, id);
    case RefreshReplace(_) => RefreshSettled(cfg, s, a, id);
    case _ => CallerSettled(cfg, s, a, id);
  }

  lemma CallerSettlesNone(cfg: Config, s: State, a: Action, id: Id)
    requires a.TryGet? || a.LockedGet? || a.CheckUpToDate? || a.CheckNeedsRefresh? || a.StartRefresh?
             || a.StartRetrieve? || a.Cancel? || a.Wake? || a.ReadLookup?
    requires StepCaller(cfg, s, a).Some? && id < |StepCaller(cfg, s, a).value.entries|
    requires Settled(StepCaller(cfg, s, a).value.entries[id].refresher)
    ensures id < |s.entries| && Settled(s.entries[id].refresher)
  {
  }

  lemma EntrySettlesNone(cfg: Config, s: State, a: Action, id: Id)
    requires a.Call? || a.Receive? || a.Timeout? || a.Publish?
             || a.RefreshCreate? || a.RefreshDecide? || a.RefreshReplace?
    requires Inv(cfg, s) && StepEntry(cfg, s, a).Some? && a != RefreshDecide(id)
    requires id < |StepEntry(cfg, s, a).value.entries| && Settled(StepEntry(cfg, s, a).value.entries[id].refresher)
    ensures id < |s.entries| && Settled(s.entries[id].refresher)
  {
    assert ForwardLink(s.entries, a.id);
  }

  /** Only deciding settles a refresh. */
  lemma BecomesSettled(cfg: Config, s: State, a: Action, id: Id)
    requires Inv(cfg, s) && Step(cfg, s, a).Some? && a != RefreshDecide(id)
    requires id < |Step(cfg, s, a).value.entries| && Settled(Step(cfg, s, a).value.entries[id].refresher)
    ensures id < |s.entries| && Settled(s.entries[id].refresher)
  {
    match a
    case Tick(_) =>
    case Begin(_, _) =>
    case Evict(_) =>
    case Call(_, _) => EntrySettlesNone(cfg, s, a, id);
    case Receive(_) => EntrySettlesNone(cfg, s, a, id);
    case Timeout(_) => EntrySettlesNone(cfg, s, a, id);
    case Publish(_) => EntrySettlesNone(cfg, s, a, id);
    case RefreshCreate(_) => EntrySettlesNone(cfg, s, a, id);
    case RefreshDecide(_) => EntrySettlesNone(cfg, s, a, id);
    case RefreshReplace(_) => EntrySettlesNone(cfg, s, a, id);
    case _ => CallerSettlesNone(cfg, s, a, id);
  }

  lemma DecisionKept(cfg: Config, t: State, s: State, s': State, id: Id)
    requires Decision(cfg, t, s, id) && StaysSettled(s.entries, s'.entries, id)
    ensures Decision(cfg, t, s', id)
  {
  }

  /** The k-th step decided the refresh of `id`, and what it decided is still shown at the end of the run. */
  ghost predicate DecidedAt(cfg: Config, start: Time, run: seq<Action>, id: Id, k: nat) {
    && k < |run| && run[k] == RefreshDecide(id)
    && Play(cfg, start, run[..k]).Some? && Play(cfg, start, run).Some?
    && Decision(cfg, Play(cfg, start, run[..k]).value, Play(cfg, start, run).value, id)
  }

  /**
   In every run, what any finished refresh shows was decided by one of the run's steps, in favour
   of its own result unless that was a temporary error over an entry unexpired at that moment.
   */
  lemma {:induction false} RefreshOutcome(cfg: Config, start: Time, run: seq<Action>, id: Id) returns (k: nat)
    requires Play(cfg, start, run).Some? && id < |Play(cfg, start, run).value.entries|
    requires Settled(Play(cfg, start, run).value.entries[id].refresher)
    ensures DecidedAt(cfg, start, run, id, k)
  {
    assert run != [];
    var last := |run| - 1;
    var before, a := run[..last], run[last];
    var s := Play(cfg, start, before).value;
    InvRun(cfg, start, before);
    if a == RefreshDecide(id) {
      DecideShows(cfg, s, id);
      k := last;
    } else {
      BecomesSettled(cfg, s, a, id);
      k := RefreshOutcome(cfg, start, before, id);
      StepSettled(cfg, s, a, id);
      DecisionKept(cfg, Play(cfg, start, before[..k]).value, s, Step(cfg, s, a).value, id);
      assert before[..k] == run[..k] && before[k] == run[k];
    }
  }

  /** The entry whose own retrieval gave `id` its response, and over how many refreshes it was carried. */
  ghost predicate Carried(e: Entry) { e.original.Some? && e.parent.Some? }

  ghost function Hops(es: seq<Entry>, id: Id): nat
    requires id < |es|
  {
    if Carried(es[id]) && es[id].parent.value < id then 1 + Hops(es, es[id].parent.value) else 0
  }

  ghost function Source(es: seq<Entry>, id: Id): (r: Id)
    requires id < |es|
    ensures r <= id
  {
    if Carried(es[id]) && es[id].parent.value < id then Source(es, es[id].parent.value) else id
  }

  /** No entry is stamped earlier than the one it refreshes. */
  ghost predicate StampGrown(es: seq<Entry>, id: Id)
    requires id < |es|
  {
    es[id].parent.Some? ==> es[id].parent.value < id && Stamp(es[es[id].parent.value]) <= Stamp(es[id])
  }

  lemma StampsGrow(cfg: Config, s: State, id: Id)
    requires Inv(cfg, s) && id < |s.entries|
    ensures StampGrown(s.entries, id)
  {
    var es := s.entries;
    assert BackLink(cfg, es, id);
    if es[id].parent.Some? {
      assert EntrySound(cfg, s.now, s.answered, es[es[id].parent.value]);
    }
  }

  lemma {:induction false} ChainSource(cfg: Config, s: State, id: Id)
    requires Inv(cfg, s) && id < |s.entries|
    ensures
      var e, src := s.entries[id], s.entries[Source(s.entries, id)];
      e.response == src.response && e.domain == src.domain && src.created <= Stamp(e) <= e.created <= s.now
    decreases id
  {
    var es := s.entries;
    assert EntrySound(cfg, s.now, s.answered, es[id]) && BackLink(cfg, es, id);
    if Carried(es[id]) {
      ChainSource(cfg, s, es[id].parent.value);
    }
  }

  lemma HalfMore(h: nat, x: int)
    ensures (h + 2 + 1) / 2 * x == (h + 1) / 2 * x + x
  {
    assert (h + 2 + 1) / 2 == (h + 1) / 2 + 1;
    assert ((h + 1) / 2 + 1) * x == (h + 1) / 2 * x + x;
  }

  lemma {:induction false} ChainAge(cfg: Config, s: State, id: Id)
    requires Inv(cfg, s) && id < |s.entries|
    ensures
      var e, src, h := s.entries[id], s.entries[Source(s.entries, id)], Hops(s.entries, id);
      e.created - src.created <= (h + 1) / 2 * cfg.expiration
    decreases id
  {
    var es := s.entries;
    assert BackLink(cfg, es, id);
    if Carried(es[id]) {
      var p := es[id].parent.value;
      assert CarriedFrom(cfg, es[p], es[id]) && EntrySound(cfg, s.now, s.answered, es[p]) && BackLink(cfg, es, p);
      if Carried(es[p]) {
        var g := es[p].parent.value;
        ChainAge(cfg, s, g);
        HalfMore(Hops(es, g), cfg.expiration);
      }
    }
  }

  /**
   Along every chain: the response is the source's, stamps never go backwards (nor from any entry to
   the one that refreshes it) and never pass the entry's creation, and what was kept is older than
   its entry by at most the expiration time for every second refresh it was carried over.
   */
  lemma ChainLaws(cfg: Config, s: State, id: Id)
    requires Inv(cfg, s) && id < |s.entries|
    ensures
      var e, src, h := s.entries[id], s.entries[Source(s.entries, id)], Hops(s.entries, id);
      && e.response == src.response && e.domain == src.domain
      && src.created <= Stamp(e) <= e.created <= s.now
      && e.created - src.created <= (h + 1) / 2 * cfg.expiration
      && StampGrown(s.entries, id)
  {
    ChainSource(cfg, s, id);
    ChainAge(cfg, s, id);
    StampsGrow(cfg, s, id);
  }
}
