/**
 How long a response can outlive its retrieval.  A failed refresh keeps the old response with the
 stamp of the entry it refreshes, not with the stamp of the retrieval the response came from, so
 a chain of failing refreshes can keep it for as long as callers keep asking.
 */
module DomainCacheStaleness {
  import opened Basics
  import opened DomainCache
  import opened DomainCacheInvariant
  import opened DomainCacheTheorems

  /** How much older than its entry a kept response is. */
  ghost function Age(es: seq<Entry>, id: Id): Time
    requires id < |es|
  {
    es[id].created - es[Source(es, id)].created
  }

  /** A run at whose end some entry keeps a response over `k` refreshes that is `age` older than it. */
  ghost predicate Keeps(cfg: Config, run: seq<Action>, id: Id, k: nat, age: Time) {
    var p := Play(cfg, 0, run);
    p.Some? && id < |p.value.entries| && Hops(p.value.entries, id) == k && Age(p.value.entries, id) == age
  }

  /** The documented promise: a kept response is never older than the expiration time. */
  ghost predicate PromiseHolds(cfg: Config, k: nat) {
    forall run, id, age | Keeps(cfg, run, id, k, age) :: age <= cfg.expiration
  }

  // ----- one failing refresh -----

  const Good := Lookup(1, None)

  /** The store's newest entry holds a response and waits to be refreshed. */
  ghost predicate Ready(s: State, d: Domain) {
    var i := |s.entries| - 1;
    && i >= 0 && d in s.store && s.store[d] == i
    && s.entries[i].domain == d && s.entries[i].response == Some(Good) && s.entries[i].refresher == Fresh
    && forall t | t in s.callers :: t < |s.entries|
  }

  ghost predicate Reaches(cfg: Config, run: seq<Action>, s: State) { Play(cfg, 0, run) == Some(s) }

  lemma Extend(cfg: Config, run: seq<Action>, s: State, a: Action) returns (run': seq<Action>)
    requires Reaches(cfg, run, s) && Step(cfg, s, a).Some?
    ensures Reaches(cfg, run', Step(cfg, s, a).value)
  {
    PlaySnoc(cfg, 0, run, a);
    run' := run + [a];
  }

  lemma FindStored(cfg: Config, run: seq<Action>, s: State, t: Thread, d: Domain) returns (run': seq<Action>)
    requires Reaches(cfg, run, s) && t !in s.callers && d in s.store
    ensures Reaches(cfg, run', WithCaller(s, t, Checking(d, s.store[d])))
  {
    run' := Extend(cfg, run, s, Begin(t, d));
    var s1 := WithCaller(s, t, Loading(d));
    run' := Extend(cfg, run', s1, TryGet(t));
    assert WithCaller(s1, t, Checking(d, s.store[d])) == WithCaller(s, t, Checking(d, s.store[d]));
  }

  lemma StartStale(cfg: Config, run: seq<Action>, s: State, t: Thread, d: Domain, i: Id) returns (run': seq<Action>)
    requires i < |s.entries| && NeedsRefresh(cfg, s.entries[i], s.now) && s.entries[i].refresher == Fresh
    requires Reaches(cfg, run, WithCaller(s, t, Checking(d, i)))
    ensures
      var e := s.entries[i].(refresher := Spawned);
      Reaches(cfg, run', WithCaller(WithEntry(s, i, e), t, Reading(d, i)))
  {
    var e := s.entries[i].(refresher := Spawned);
    var s1, s2 := WithCaller(s, t, CheckingStale(d, i)), WithCaller(s, t, Refreshing(d, i));
    run' := Extend(cfg, run, WithCaller(s, t, Checking(d, i)), CheckUpToDate(t));
    assert WithCaller(WithCaller(s, t, Checking(d, i)), t, CheckingStale(d, i)) == s1;
    run' := Extend(cfg, run', s1, CheckNeedsRefresh(t));
    assert WithCaller(s1, t, Refreshing(d, i)) == s2;
    run' := Extend(cfg, run', s2, StartRefresh(t));
    assert WithCaller(WithEntry(s2, i, e), t, Reading(d, i)) == WithCaller(WithEntry(s, i, e), t, Reading(d, i));
  }

  /** A caller asks for the stale entry and starts its refresh. */
  lemma Ask(cfg: Config, run: seq<Action>, s: State, d: Domain, dt: nat) returns (run': seq<Action>, s': State)
    requires Reaches(cfg, run, s) && Ready(s, d)
    requires s.now + dt - Stamp(s.entries[|s.entries| - 1]) > cfg.refreshTimeout
    ensures
      var i := |s.entries| - 1;
      && Reaches(cfg, run', s') && s'.now == s.now + dt && s'.store == s.store
      && s'.entries == s.entries[i := s.entries[i].(refresher := Spawned)]
      && forall t | t in s'.callers :: t <= |s.entries|
  {
    var i, t := |s.entries| - 1, |s.entries|;
    var s1 := s.(now := s.now + dt);
    run' := Extend(cfg, run, s, Tick(dt));
    run' := FindStored(cfg, run', s1, t, d);
    run' := StartStale(cfg, run', s1, t, d, i);
    s' := WithCaller(WithEntry(s1, i, s.entries[i].(refresher := Spawned)), t, Reading(d, i));
  }

  function TimedOutEntry(d: Domain, now: Time, i: Id): Entry {
    Entry(d, now, None, Some(TimedOut), 1, Published, Backoff(0, Blank), Fresh, Some(i), false)
  }

  /** What a refresh that times out leaves behind, having kept the old response. */
  function Kept(d: Domain, now: Time, stamp: Time, i: Id): Entry {
    Entry(d, now, Some(stamp), Some(Good), 1, Published, Backoff(0, Blank), Fresh, Some(i), true)
  }

  /** The refresh creates its entry, and the retrieval for it times out. */
  lemma FailRetrieval(cfg: Config, run: seq<Action>, s: State, d: Domain, i: Id) returns (run': seq<Action>)
    requires Reaches(cfg, run, s)
    requires i == |s.entries| - 1 && s.entries[i].domain == d && s.entries[i].refresher == Spawned
    ensures
      var es := s.entries[i := s.entries[i].(refresher := Awaiting(i + 1))];
      Reaches(cfg, run', s.(entries := es + [TimedOutEntry(d, s.now, i)]))
  {
    var n := i + 1;
    var renewed := NewEntry(d, s.now).(setter := Selecting, parent := Some(i));
    var es := s.entries[i := s.entries[i].(refresher := Awaiting(n))];
    var s1, s2 := s.(entries := es + [renewed]), s.(entries := es + [renewed.(setter := Setting(TimedOut))]);
    run' := Extend(cfg, run, s, RefreshCreate(i));
    run' := Extend(cfg, run', s1, Timeout(n));
    assert WithEntry(s1, n, renewed.(setter := Setting(TimedOut))) == s2;
    run' := Extend(cfg, run', s2, Publish(n));
    assert WithEntry(s2, n, TimedOutEntry(d, s.now, i)) == s.(entries := es + [TimedOutEntry(d, s.now, i)]);
  }

  /** The refresh that timed out keeps the unexpired response and replaces the entry. */
  lemma KeepOld(cfg: Config, run: seq<Action>, s: State, d: Domain, i: Id) returns (run': seq<Action>, s': State)
    requires Reaches(cfg, run, s) && cfg.keepOnError
    requires i == |s.entries| - 2 && s.entries[i].domain == d && s.entries[i].response == Some(Good)
    requires s.entries[i].refresher == Awaiting(i + 1) && !IsExpired(cfg, s.entries[i], s.now)
    requires s.entries[i + 1] == TimedOutEntry(d, s.now, i)
    ensures
      && Reaches(cfg, run', s')
      && s'.now == s.now && s'.store == s.store[d := i + 1] && s'.callers == s.callers
      && s'.entries == s.entries[i := s.entries[i].(refresher := Replaced(i + 1))]
                                [i + 1 := Kept(d, s.now, s.entries[i].created, i)]
  {
    var n, e := i + 1, s.entries[i];
    var kept := Kept(d, s.now, e.created, i);
    var s1 := s.(entries := s.entries[i := e.(refresher := Decided(n))][n := kept.(shared := false)]);
    run' := Extend(cfg, run, s, RefreshDecide(i));
    assert Step(cfg, s, RefreshDecide(i)).value == s1;
    run' := Extend(cfg, run', s1, RefreshReplace(i));
    s' := Step(cfg, s1, RefreshReplace(i)).value;
  }

  lemma Fail(cfg: Config, run: seq<Action>, s: State, d: Domain, i: Id) returns (run': seq<Action>, s': State)
    requires Reaches(cfg, run, s) && cfg.keepOnError
    requires i == |s.entries| - 1 && s.entries[i].domain == d && s.entries[i].response == Some(Good)
    requires s.entries[i].refresher == Spawned && !IsExpired(cfg, s.entries[i], s.now)
    ensures
      && Reaches(cfg, run', s')
      && s'.now == s.now && s'.store == s.store[d := i + 1] && s'.callers == s.callers
      && s'.entries == s.entries[i := s.entries[i].(refresher := Replaced(i + 1))]
                       + [Kept(d, s.now, s.entries[i].created, i)]
  {
    var es := s.entries[i := s.entries[i].(refresher := Awaiting(i + 1))];
    run' := FailRetrieval(cfg, run, s, d, i);
    run', s' := KeepOld(cfg, run', s.(entries := es + [TimedOutEntry(d, s.now, i)]), d, i);
  }

  /** Chains look only at how entries were made. */
  lemma {:induction false} ChainsFrame(es: seq<Entry>, es': seq<Entry>, id: Id)
    requires id < |es| && id < |es'|
    requires forall j | 0 <= j <= id :: es[j].original == es'[j].original && es[j].parent == es'[j].parent
    ensures Hops(es, id) == Hops(es', id) && Source(es, id) == Source(es', id)
    decreases id
  {
    if Carried(es[id]) && es[id].parent.value < id {
      ChainsFrame(es, es', es[id].parent.value);
    }
  }

  /** The end of the longest-lived chain of `k` failing refreshes. */
  ghost predicate Chain(cfg: Config, s: State, d: Domain, k: nat) {
    && Ready(s, d)
    && var i := |s.entries| - 1;
       && Hops(s.entries, i) == k && s.entries[Source(s.entries, i)].created == 0
       && s.now == s.entries[i].created == (k + 1) / 2 * cfg.expiration
       && Stamp(s.entries[i]) == k / 2 * cfg.expiration
  }

  lemma Halves(k: nat, x: int)
    requires x >= 0
    ensures (k + 2) / 2 * x == k / 2 * x + x
    ensures (k + 1) / 2 * x <= (k + 2) / 2 * x
  {
    assert (k + 2) / 2 == k / 2 + 1;
    assert (k / 2 + 1) * x == k / 2 * x + x;
    var m, n := (k + 1) / 2, (k + 2) / 2;
    assert m == n || m + 1 == n;
    assert m + 1 == n ==> n * x == m * x + x;
  }

  lemma ChainNext(cfg: Config, s: State, s': State, d: Domain, k: nat)
    requires Chain(cfg, s, d, k) && s'.now == (k + 2) / 2 * cfg.expiration
    requires
      var i := |s.entries| - 1;
      && d in s'.store && s'.store[d] == i + 1
      && s'.entries == s.entries[i := s.entries[i].(refresher := Replaced(i + 1))]
                       + [Kept(d, s'.now, s.entries[i].created, i)]
      && forall t | t in s'.callers :: t <= |s.entries|
    ensures Chain(cfg, s', d, k + 1)
  {
    var i := |s.entries| - 1;
    ChainsFrame(s.entries, s'.entries, i);
    assert Carried(s'.entries[i + 1]);
  }

  /** By the time of the next refresh the entry is stale and just not expired. */
  lemma NextDue(cfg: Config, s: State, d: Domain, k: nat)
    requires 0 <= cfg.refreshTimeout < cfg.expiration && Chain(cfg, s, d, k)
    ensures
      var due, e := (k + 2) / 2 * cfg.expiration, s.entries[|s.entries| - 1];
      s.now <= due && due - Stamp(e) == cfg.expiration
  {
    Halves(k, cfg.expiration);
  }

  lemma ChainStep(cfg: Config, run: seq<Action>, s: State, d: Domain, k: nat) returns (run': seq<Action>, s': State)
    requires cfg.keepOnError && 0 <= cfg.refreshTimeout < cfg.expiration
    requires Reaches(cfg, run, s) && Chain(cfg, s, d, k)
    ensures Reaches(cfg, run', s') && Chain(cfg, s', d, k + 1)
  {
    var i := |s.entries| - 1;
    NextDue(cfg, s, d, k);
    run', s' := Ask(cfg, run, s, d, (k + 2) / 2 * cfg.expiration - s.now);
    assert Stamp(s'.entries[i]) == Stamp(s.entries[i]);
    run', s' := Fail(cfg, run', s', d, i);
    ChainNext(cfg, s, s', d, k);
  }

  function WaitingFor(e: Entry, d: Domain, c: Caller): State {
    State(0, [e], map[d := 0], map[0 := c], {})
  }

  /** The first caller creates an entry. */
  lemma CreateFirst(cfg: Config, d: Domain) returns (run: seq<Action>)
    ensures Reaches(cfg, run, WaitingFor(NewEntry(d, 0).(shared := true), d, Checking(d, 0)))
  {
    var s0 := Init(0);
    run := Extend(cfg, [], s0, Begin(0, d));
    var s1 := WithCaller(s0, 0, Loading(d));
    run := Extend(cfg, run, s1, TryGet(0));
    var s2 := WithCaller(s1, 0, Missed(d));
    run := Extend(cfg, run, s2, LockedGet(0));
    assert Step(cfg, s2, LockedGet(0)).value == WaitingFor(NewEntry(d, 0).(shared := true), d, Checking(d, 0));
  }

  lemma RetrieveFirst(cfg: Config, run: seq<Action>, d: Domain) returns (run': seq<Action>)
    requires Reaches(cfg, run, WaitingFor(NewEntry(d, 0).(shared := true), d, Checking(d, 0)))
    ensures Reaches(cfg, run', WaitingFor(NewEntry(d, 0).(shared := true, setter := Selecting), d, Waiting(d, 0)))
  {
    var e := NewEntry(d, 0).(shared := true);
    var s, s1 := WaitingFor(e, d, Checking(d, 0)), WaitingFor(e, d, CheckingStale(d, 0));
    var s2 := WaitingFor(e, d, Retrieving(d, 0));
    run' := Extend(cfg, run, s, CheckUpToDate(0));
    assert WithCaller(s, 0, CheckingStale(d, 0)) == s1;
    run' := Extend(cfg, run', s1, CheckNeedsRefresh(0));
    assert WithCaller(s1, 0, Retrieving(d, 0)) == s2;
    run' := Extend(cfg, run', s2, StartRetrieve(0));
    var e' := e.(setter := Selecting);
    assert WithCaller(WithEntry(s2, 0, e'), 0, Waiting(d, 0)) == WaitingFor(e', d, Waiting(d, 0));
  }

  lemma AnswerFirst(cfg: Config, run: seq<Action>, s: State) returns (run': seq<Action>, s': State)
    requires cfg.maxRetries >= 1 && Reaches(cfg, run, s)
    requires |s.entries| == 1 && s.entries[0].setter == Selecting && s.entries[0].backoff == Backoff(0, Blank)
    ensures
      var e := s.entries[0];
      && Reaches(cfg, run', s') && s'.now == s.now && s'.store == s.store && s'.callers == s.callers
      && s'.entries == [e.(backoff := Backoff(1, Good), response := Some(Good),
                           closes := e.closes + 1, setter := Published)]
  {
    var e := s.entries[0];
    var e1 := e.(backoff := Backoff(1, Good));
    run' := Extend(cfg, run, s, Call(0, Good));
    var s1 := WithEntry(s, 0, e1).(answered := s.answered + {(e.domain, Good)});
    run' := Extend(cfg, run', s1, Receive(0));
    var s2 := WithEntry(s1, 0, e1.(setter := Setting(Good)));
    run' := Extend(cfg, run', s2, Publish(0));
    s' := Step(cfg, s2, Publish(0)).value;
  }

  lemma ChainStart(cfg: Config, d: Domain) returns (run: seq<Action>, s: State)
    requires cfg.maxRetries >= 1
    ensures Reaches(cfg, run, s) && Chain(cfg, s, d, 0)
  {
    run := CreateFirst(cfg, d);
    run := RetrieveFirst(cfg, run, d);
    run, s := AnswerFirst(cfg, run, WaitingFor(NewEntry(d, 0).(shared := true, setter := Selecting), d, Waiting(d, 0)));
    assert (0 + 1) / 2 * cfg.expiration == 0;
    assert !Carried(s.entries[0]);
  }

  lemma {:induction false} ChainOf(cfg: Config, d: Domain, k: nat) returns (run: seq<Action>, s: State)
    requires cfg.keepOnError && cfg.maxRetries >= 1 && 0 <= cfg.refreshTimeout < cfg.expiration
    ensures Reaches(cfg, run, s) && Chain(cfg, s, d, k)
  {
    if k == 0 {
      run, s := ChainStart(cfg, d);
    } else {
      run, s := ChainOf(cfg, d, k - 1);
      run, s := ChainStep(cfg, run, s, d, k - 1);
    }
  }

  // ----- the promise -----

  /** The bound of `ChainLaws` is reached: half a chain's length, times the expiration time. */
  lemma LongestKept(cfg: Config, k: nat) returns (run: seq<Action>, id: Id)
    requires cfg.keepOnError && cfg.maxRetries >= 1 && 0 <= cfg.refreshTimeout < cfg.expiration
    ensures Keeps(cfg, run, id, k, (k + 1) / 2 * cfg.expiration)
  {
    var s;
    run, s := ChainOf(cfg, "d", k);
    id := |s.entries| - 1;
  }

  /** The documented promise holds for responses kept over at most two refreshes, and for no others. */
  lemma PromiseExactly(cfg: Config, k: nat)
    requires cfg.keepOnError && cfg.maxRetries >= 1 && 0 <= cfg.refreshTimeout < cfg.expiration
    ensures PromiseHolds(cfg, k) <==> k <= 2
  {
    if k <= 2 {
      forall run, id, age | Keeps(cfg, run, id, k, age) ensures age <= cfg.expiration {
        InvRun(cfg, 0, run);
        ChainLaws(cfg, Play(cfg, 0, run).value, id);
        assert (k + 1) / 2 <= 1;
      }
    } else {
      var run, id := LongestKept(cfg, k);
      Doubled((k + 1) / 2, cfg.expiration);
    }
  }

  lemma Doubled(m: nat, x: int)
    requires m >= 2 && x > 0
    ensures m * x > x
  {
    assert m * x == (m - 1) * x + x;
    assert (m - 1) * x > 0;
  }
}
