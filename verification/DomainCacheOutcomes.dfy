/** What the domain cache does with each answer, and how rarely it asks. */
module DomainCacheOutcomes {
  import opened Basics
  import opened DomainCache
  import opened DomainCacheInvariant
  import opened DomainCacheTheorems

  // ----- what a refresh makes of each answer -----

  /** The time an entry's age counts from: the one it was given when it was refreshed, or its creation. */
  function Since(e: Entry): Time { if e.original.Some? then e.original.value else e.created }

  /**
   A refresh that succeeds, or learns that the domain is gone, always shows its own answer.  Any
   other failure is covered by the old response while that is unexpired, and is shown otherwise.
   */
  lemma RefreshByAnswer(cfg: Config, start: Time, run: seq<Action>, id: Id, k: nat)
    requires DecidedAt(cfg, start, run, id, k)
    ensures
      var t, s := Play(cfg, start, run[..k]).value, Play(cfg, start, run).value;
      var n := t.entries[id].refresher.next;
      var answer, stale, shown := t.entries[n].response.value, t.entries[id], s.entries[n];
      && (answer.error == None || answer.error == Some(DoesNotExist) ==> shown.response == Some(answer))
      && (answer.error == Some(Temporary) || answer.error == Some(Unauthorized) ==>
            if cfg.keepOnError && t.now - Since(stale) <= cfg.expiration
            then shown.response == stale.response && shown.original == Some(stale.created)
            else shown.response == Some(answer) && shown.original == None)
  {
  }

  // ----- when a retrieval calls the client -----

  /** The client is asked again only after a temporary error, and only so often. */
  lemma CallsAgain(cfg: Config, s: State, id: Id, answer: Lookup)
    ensures Step(cfg, s, Call(id, answer)).Some? <==>
            && id < |s.entries| && s.entries[id].setter != Unset && s.entries[id].backoff.calls < cfg.maxRetries
            && (s.entries[id].backoff.calls == 0 || s.entries[id].backoff.last.error == Some(Temporary))
  {
  }

  // ----- what a caller finds -----

  /** The two checks of Resolve, seen at once: serve, serve and refresh, or retrieve. */
  lemma Classified(cfg: Config, s: State, t: Thread, d: Domain, id: Id)
    requires t in s.callers && s.callers[t] == Checking(d, id) && id < |s.entries|
    ensures
      var e, first := s.entries[id], Step(cfg, s, CheckUpToDate(t));
      && first.Some?
      && if e.response.Some? && s.now - Since(e) <= cfg.refreshTimeout then first.value.callers[t] == Reading(d, id)
         else
           var second := Step(cfg, first.value, CheckNeedsRefresh(t));
           && second.Some?
           && second.value.callers[t] == if e.response.Some? then Refreshing(d, id) else Retrieving(d, id)
  {
  }

  /** A caller is given what the store has for its domain, looked up again under the lock, or a new entry. */
  lemma Finds(cfg: Config, s: State, t: Thread, d: Domain)
    requires t in s.callers
    ensures s.callers[t] == Loading(d) ==>
              var s' := Step(cfg, s, TryGet(t));
              s'.Some? && s'.value.callers[t] == if d in s.store then Checking(d, s.store[d]) else Missed(d)
    ensures s.callers[t] == Missed(d) ==>
              var s' := Step(cfg, s, LockedGet(t));
              && s'.Some?
              && s'.value.callers[t] == Checking(d, if d in s.store then s.store[d] else |s.entries|)
              && (d in s.store ==> s'.value.entries == s.entries && s'.value.store == s.store)
  {
  }

  /** What it returns is the response of the entry it was given. */
  lemma Returns(cfg: Config, s: State, t: Thread, d: Domain, id: Id)
    requires t in s.callers && s.callers[t] == Reading(d, id) && id < |s.entries|
    ensures Step(cfg, s, ReadLookup(t)) == Some(s.(callers := s.callers[t := Returned(d, s.entries[id].response)]))
  {
  }

  // ----- one retrieval however many callers -----

  function Roots(es: seq<Entry>, d: Domain): nat {
    if es == [] then 0
    else
      var e := es[|es| - 1];
      Roots(es[..|es| - 1], d) + (if e.domain == d && e.parent == None then 1 else 0)
  }

  function Evictions(run: seq<Action>, d: Domain): nat {
    if run == [] then 0 else Evictions(run[..|run| - 1], d) + (if run[|run| - 1] == Evict(d) then 1 else 0)
  }

  lemma {:induction false} RootsKept(es: seq<Entry>, es': seq<Entry>, d: Domain)
    requires |es| == |es'|
    requires forall i | 0 <= i < |es| :: es'[i].domain == es[i].domain && es'[i].parent == es[i].parent
    ensures Roots(es', d) == Roots(es, d)
  {
    if es != [] {
      RootsKept(es[..|es| - 1], es'[..|es| - 1], d);
    }
  }

  /** What a step adds to the entries: one root for a domain missing from the store, or one refresh. */
  ghost predicate Adds(s: State, s': State, d: Domain) {
    && |s.entries| <= |s'.entries| <= |s.entries| + 1
    && (|s'.entries| > |s.entries| && s'.entries[|s.entries|].parent == None && s'.entries[|s.entries|].domain == d ==>
          d !in s.store && d in s'.store)
  }

  lemma RootsGrow(a: Action, s: State, s': State, d: Domain)
    requires AllMove(a, s.entries, s'.entries) && Adds(s, s', d)
    ensures Roots(s'.entries, d) == Roots(s.entries, d) ||
            (Roots(s'.entries, d) == Roots(s.entries, d) + 1 && d !in s.store && d in s'.store)
  {
    var es, es' := s.entries, s'.entries;
    forall i | 0 <= i < |es| ensures es'[i].domain == es[i].domain && es'[i].parent == es[i].parent {
      assert Moves(a, i, es[i], es'[i]);
    }
    RootsKept(es, es'[..|es|], d);
    if |es'| == |es| {
      assert es'[..|es|] == es';
    } else {
      assert es'[..|es'| - 1] == es'[..|es|];
    }
  }

  lemma CallerAdds(cfg: Config, s: State, a: Action, d: Domain)
    requires a.TryGet? || a.LockedGet? || a.CheckUpToDate? || a.CheckNeedsRefresh? || a.StartRefresh?
             || a.StartRetrieve? || a.Cancel? || a.Wake? || a.ReadLookup?
    requires StepCaller(cfg, s, a).Some?
    ensures Adds(s, StepCaller(cfg, s, a).value, d)
    ensures d in s.store ==> d in StepCaller(cfg, s, a).value.store
  {
  }

  lemma EntryAdds(cfg: Config, s: State, a: Action, d: Domain)
    requires a.Call? || a.Receive? || a.Timeout? || a.Publish?
             || a.RefreshCreate? || a.RefreshDecide? || a.RefreshReplace?
    requires StepEntry(cfg, s, a).Some?
    ensures Adds(s, StepEntry(cfg, s, a).value, d)
    ensures d in s.store ==> d in StepEntry(cfg, s, a).value.store
  {
  }

  lemma StepAdds(cfg: Config, s: State, a: Action, d: Domain)
    requires Step(cfg, s, a).Some?
    ensures Adds(s, Step(cfg, s, a).value, d)
    ensures a != Evict(d) && d in s.store ==> d in Step(cfg, s, a).value.store
  {
    match a
    case Tick(_) =>
    case Begin(_, _) =>
    case Evict(_) =>
    case Call(_, _) => EntryAdds(cfg, s, a, d);
    case Receive(_) => EntryAdds(cfg, s, a, d);
    case Timeout(_) => EntryAdds(cfg, s, a, d);
    case Publish(_) => EntryAdds(cfg, s, a, d);
    case RefreshCreate(_) => EntryAdds(cfg, s, a, d);
    case RefreshDecide(_) => EntryAdds(cfg, s, a, d);
    case RefreshReplace(_) => EntryAdds(cfg, s, a, d);
    case _ => CallerAdds(cfg, s, a, d);
  }

  /**
   However many callers race for a domain, at most one entry is ever created for it other than to
   refresh one, and one more for each time the store drops it.
   */
  lemma {:induction false} SingleFlight(cfg: Config, start: Time, run: seq<Action>, d: Domain)
    requires Play(cfg, start, run).Some?
    ensures
      var s := Play(cfg, start, run).value;
      Roots(s.entries, d) + (if d in s.store then 0 else 1) <= Evictions(run, d) + 1
  {
    if run != [] {
      var before, a := run[..|run| - 1], run[|run| - 1];
      var s := Play(cfg, start, before).value;
      SingleFlight(cfg, start, before, d);
      InvRun(cfg, start, before);
      StepMoves(cfg, s, a);
      StepAdds(cfg, s, a, d);
      RootsGrow(a, s, Step(cfg, s, a).value, d);
    }
  }

  // ----- refreshes only of what is outdated -----

  ghost predicate Outdated(cfg: Config, s: State, id: Id) {
    id < |s.entries| && s.now - Since(s.entries[id]) > cfg.refreshTimeout
  }

  ghost predicate OutdatedOnly(cfg: Config, s: State) {
    && (forall i | 0 <= i < |s.entries| && s.entries[i].refresher != Fresh :: Outdated(cfg, s, i))
    && (forall t | t in s.callers && s.callers[t].Refreshing? :: Outdated(cfg, s, s.callers[t].id))
  }

  /** What is shared stays as old as it is; time only adds to that. */
  lemma StaysOutdated(cfg: Config, s: State, a: Action, id: Id)
    requires Inv(cfg, s) && Step(cfg, s, a).Some? && Outdated(cfg, s, id) && s.entries[id].shared
    ensures Outdated(cfg, Step(cfg, s, a).value, id)
  {
    StepMoves(cfg, s, a);
    assert Moves(a, id, s.entries[id], Step(cfg, s, a).value.entries[id]);
  }

  lemma NewlyRefreshing(cfg: Config, s: State, a: Action, i: Id)
    requires Step(cfg, s, a).Some? && i < |Step(cfg, s, a).value.entries|
    requires Step(cfg, s, a).value.entries[i].refresher != Fresh
    ensures i < |s.entries|
    ensures s.entries[i].refresher != Fresh ||
            (a.StartRefresh? && a.t in s.callers && s.callers[a.t].Refreshing? && s.callers[a.t].id == i)
  {
  }

  lemma NewlyAsking(cfg: Config, s: State, a: Action, t: Thread)
    requires Inv(cfg, s) && Step(cfg, s, a).Some? && t in Step(cfg, s, a).value.callers
    requires Step(cfg, s, a).value.callers[t].Refreshing?
    ensures (t in s.callers && s.callers[t] == Step(cfg, s, a).value.callers[t]) ||
            Outdated(cfg, s, Step(cfg, s, a).value.callers[t].id)
    ensures
      var id := Step(cfg, s, a).value.callers[t].id;
      id < |s.entries| && s.entries[id].shared
  {
    if t in s.callers {
      assert CallerSound(cfg, s.entries, s.answered, s.callers[t]);
    }
  }

  /** No entry is ever refreshed that was not outdated, and had not been retrieved, by then. */
  lemma {:induction false} RefreshedWhenOutdated(cfg: Config, start: Time, run: seq<Action>)
    requires Play(cfg, start, run).Some?
    ensures OutdatedOnly(cfg, Play(cfg, start, run).value)
    ensures
      var s := Play(cfg, start, run).value;
      forall i | 0 <= i < |s.entries| && s.entries[i].refresher != Fresh ::
        s.entries[i].response.Some? && s.now - Since(s.entries[i]) > cfg.refreshTimeout
  {
    InvRun(cfg, start, run);
    var s' := Play(cfg, start, run).value;
    if run != [] {
      var before, a := run[..|run| - 1], run[|run| - 1];
      var s := Play(cfg, start, before).value;
      RefreshedWhenOutdated(cfg, start, before);
      InvRun(cfg, start, before);
      forall i | 0 <= i < |s'.entries| && s'.entries[i].refresher != Fresh ensures Outdated(cfg, s', i) {
        NewlyRefreshing(cfg, s, a, i);
        assert EntrySound(cfg, s'.now, s'.answered, s'.entries[i]);
        SharedBefore(cfg, s, a, i);
        StaysOutdated(cfg, s, a, i);
      }
      forall t | t in s'.callers && s'.callers[t].Refreshing? ensures Outdated(cfg, s', s'.callers[t].id) {
        NewlyAsking(cfg, s, a, t);
        StaysOutdated(cfg, s, a, s'.callers[t].id);
      }
    }
    forall i | 0 <= i < |s'.entries| && s'.entries[i].refresher != Fresh ensures s'.entries[i].response.Some? {
      assert EntrySound(cfg, s'.now, s'.answered, s'.entries[i]);
    }
  }

  /** An entry being refreshed, or asked to be, has been in the store. */
  lemma SharedBefore(cfg: Config, s: State, a: Action, i: Id)
    requires Inv(cfg, s) && i < |s.entries|
    requires s.entries[i].refresher != Fresh ||
             (a.StartRefresh? && a.t in s.callers && s.callers[a.t].Refreshing? && s.callers[a.t].id == i)
    ensures s.entries[i].shared
  {
    assert EntrySound(cfg, s.now, s.answered, s.entries[i]);
    if a.StartRefresh? && a.t in s.callers {
      assert CallerSound(cfg, s.entries, s.answered, s.callers[a.t]);
    }
  }
}
