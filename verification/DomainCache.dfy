/**
 The domain-lookup cache as a state machine: callers resolving domains, one retrieval per entry,
 refreshes of stale entries, and a store that may drop anything at any time, all interleaved
 one atomic step at a time.
 */
module DomainCache {
  import opened Basics

  type Domain = string
  type Time = int
  type Id = nat      // an entry, by allocation order
  type Thread = nat

  datatype Failure = DoesNotExist | Unauthorized | Temporary

  datatype Lookup = Lookup(payload: int, error: Option<Failure>)

  /** What a retrieval yields when its own deadline passes first. */
  const TimedOut := Lookup(0, Some(Temporary))

  /** The zero lookup, which a retrieval that may make no call at all yields. */
  const Blank := Lookup(0, None)

  datatype Config = Config(refreshTimeout: Time, expiration: Time, maxRetries: nat, keepOnError: bool)

  /** The goroutine behind an entry's `retrieve` once. */
  datatype Setter = Unset | Selecting | Setting(lookup: Lookup) | Published

  /** The retry loop behind it: calls made so far and the last answer. */
  datatype Backoff = Backoff(calls: nat, last: Lookup)

  /** The goroutine behind an entry's `refresh` once. */
  datatype Refresher = Fresh | Spawned | Awaiting(next: Id) | Decided(next: Id) | Replaced(next: Id)

  datatype Entry = Entry(
    domain: Domain,
    created: Time,
    original: Option<Time>,       // refreshedOriginalTimestamp
    response: Option<Lookup>,
    closes: nat,                  // how often `retrieved` was closed
    setter: Setter,
    backoff: Backoff,
    refresher: Refresher,
    parent: Option<Id>,           // the entry this one was created to refresh
    shared: bool)                 // has been in the store

  /** A call of Resolve. */
  datatype Caller =
    | Loading(d: Domain)
    | Missed(d: Domain)
    | Checking(d: Domain, id: Id)
    | CheckingStale(d: Domain, id: Id)
    | Refreshing(d: Domain, id: Id)
    | Retrieving(d: Domain, id: Id)
    | Waiting(d: Domain, id: Id)
    | Reading(d: Domain, id: Id)
    | Returned(d: Domain, lookup: Option<Lookup>)
    | ContextDone(d: Domain)

  datatype State = State(
    now: Time,
    entries: seq<Entry>,
    store: map<Domain, Id>,
    callers: map<Thread, Caller>,
    answered: set<(Domain, Lookup)>)  // answers the client has given, by domain asked

  datatype Action =
    | Tick(dt: nat)
    | Begin(t: Thread, d: Domain)
    | TryGet(t: Thread)
    | LockedGet(t: Thread)
    | CheckUpToDate(t: Thread)
    | CheckNeedsRefresh(t: Thread)
    | StartRefresh(t: Thread)
    | StartRetrieve(t: Thread)
    | Cancel(t: Thread)
    | Wake(t: Thread)
    | ReadLookup(t: Thread)
    | Call(id: Id, answer: Lookup)
    | Receive(id: Id)
    | Timeout(id: Id)
    | Publish(id: Id)
    | RefreshCreate(id: Id)
    | RefreshDecide(id: Id)
    | RefreshReplace(id: Id)
    | Evict(d: Domain)

  // ----- entries -----

  function NewEntry(d: Domain, now: Time): Entry {
    Entry(d, now, None, None, 0, Unset, Backoff(0, Blank), Fresh, None, false)
  }

  /** The time an entry's age is measured from. */
  function Stamp(e: Entry): Time {
    match e.original
    case Some(t) => t
    case None => e.created
  }

  predicate IsOutdated(cfg: Config, e: Entry, now: Time) { now - Stamp(e) > cfg.refreshTimeout }
  predicate IsExpired(cfg: Config, e: Entry, now: Time) { now - Stamp(e) > cfg.expiration }
  predicate IsUpToDate(cfg: Config, e: Entry, now: Time) { e.response.Some? && !IsOutdated(cfg, e, now) }
  predicate NeedsRefresh(cfg: Config, e: Entry, now: Time) { e.response.Some? && IsOutdated(cfg, e, now) }

  predicate HasTemporaryError(cfg: Config, e: Entry) {
    && cfg.keepOnError
    && e.response.Some? && e.response.value.error.Some?
    && e.response.value.error.value != DoesNotExist
  }

  /** The retry loop stops on success, on an unknown domain and on a refused login. */
  predicate Retryable(l: Lookup) { l.error == Some(Temporary) }

  predicate MoreCalls(cfg: Config, b: Backoff) {
    b.calls < cfg.maxRetries && (b.calls == 0 || Retryable(b.last))
  }

  /** The retry loop itself: `answer(i)` is what the client says to the i-th call. */
  method ResolveWithBackoff(cfg: Config, answer: nat -> Lookup) returns (lookup: Lookup, calls: nat)
    ensures calls <= cfg.maxRetries && !MoreCalls(cfg, Backoff(calls, lookup))
    ensures lookup == if calls == 0 then Blank else answer(calls - 1)
    ensures calls == 0 <==> cfg.maxRetries == 0
    ensures forall i | 0 <= i < calls - 1 :: answer(i).error == Some(Temporary)
    ensures calls > 0 && lookup.error == Some(Temporary) ==> calls == cfg.maxRetries
  {
    lookup, calls := Blank, 0;
    while calls < cfg.maxRetries
      invariant calls <= cfg.maxRetries
      invariant lookup == if calls == 0 then Blank else answer(calls - 1)
      invariant forall i | 0 <= i < calls :: Retryable(answer(i))
    {
      lookup := answer(calls);
      calls := calls + 1;
      if lookup.error == None || lookup.error == Some(DoesNotExist) || lookup.error == Some(Unauthorized) {
        break;
      }
      assert lookup.error.value.Temporary?;
    }
  }

  /** What a finished refresh leaves in the new entry. */
  function Decide(cfg: Config, stale: Entry, renewed: Entry, now: Time): Entry {
    if !IsExpired(cfg, stale, now) && HasTemporaryError(cfg, renewed) then
      renewed.(response := stale.response, original := Some(stale.created))
    else renewed
  }

  // ----- steps -----

  function Init(now: Time): State { State(now, [], map[], map[], {}) }

  function WithCaller(s: State, t: Thread, c: Caller): State { s.(callers := s.callers[t := c]) }

  function WithEntry(s: State, id: Id, e: Entry): State
    requires id < |s.entries|
  {
    s.(entries := s.entries[id := e])
  }

  function StepCaller(cfg: Config, s: State, a: Action): Option<State>
    requires a.TryGet? || a.LockedGet? || a.CheckUpToDate? || a.CheckNeedsRefresh? || a.StartRefresh?
             || a.StartRetrieve? || a.Cancel? || a.Wake? || a.ReadLookup?
  {
    if a.t !in s.callers then None
    else
      match (a, s.callers[a.t])
      case (TryGet(t), Loading(d)) =>
        Some(WithCaller(s, t, if d in s.store then Checking(d, s.store[d]) else Missed(d)))
      case (LockedGet(t), Missed(d)) =>
        if d in s.store then Some(WithCaller(s, t, Checking(d, s.store[d])))
        else
          var id := |s.entries|;
          var s' := s.(entries := s.entries + [NewEntry(d, s.now).(shared := true)], store := s.store[d := id]);
          Some(WithCaller(s', t, Checking(d, id)))
      case (CheckUpToDate(t), Checking(d, id)) =>
        if id >= |s.entries| then None
        else
          var good := IsUpToDate(cfg, s.entries[id], s.now);
          Some(WithCaller(s, t, if good then Reading(d, id) else CheckingStale(d, id)))
      case (CheckNeedsRefresh(t), CheckingStale(d, id)) =>
        if id >= |s.entries| then None
        else
          var stale := NeedsRefresh(cfg, s.entries[id], s.now);
          Some(WithCaller(s, t, if stale then Refreshing(d, id) else Retrieving(d, id)))
      case (StartRefresh(t), Refreshing(d, id)) =>
        if id >= |s.entries| then None
        else
          var e := s.entries[id];
          var e' := if e.refresher == Fresh then e.(refresher := Spawned) else e;
          Some(WithCaller(WithEntry(s, id, e'), t, Reading(d, id)))
      case (StartRetrieve(t), Retrieving(d, id)) =>
        if id >= |s.entries| then None
        else
          var e := s.entries[id];
          var e' := if e.setter == Unset then e.(setter := Selecting) else e;
          Some(WithCaller(WithEntry(s, id, e'), t, Waiting(d, id)))
      case (Cancel(t), Waiting(d, id)) => Some(WithCaller(s, t, ContextDone(d)))
      case (Wake(t), Waiting(d, id)) =>
        if id >= |s.entries| || s.entries[id].closes == 0 then None
        else Some(WithCaller(s, t, Reading(d, id)))
      case (ReadLookup(t), Reading(d, id)) =>
        if id >= |s.entries| then None
        else Some(WithCaller(s, t, Returned(d, s.entries[id].response)))
      case _ => None
  }

  function StepEntry(cfg: Config, s: State, a: Action): Option<State>
    requires a.Call? || a.Receive? || a.Timeout? || a.Publish?
             || a.RefreshCreate? || a.RefreshDecide? || a.RefreshReplace?
  {
    if a.id >= |s.entries| then None
    else
      var e := s.entries[a.id];
      match a
      case Call(id, answer) =>
        if e.setter == Unset || !MoreCalls(cfg, e.backoff) then None
        else
          var s' := WithEntry(s, id, e.(backoff := Backoff(e.backoff.calls + 1, answer)));
          Some(s'.(answered := s.answered + {(e.domain, answer)}))
      case Receive(id) =>
        if e.setter != Selecting || MoreCalls(cfg, e.backoff) then None
        else Some(WithEntry(s, id, e.(setter := Setting(e.backoff.last))))
      case Timeout(id) =>
        if e.setter != Selecting then None
        else Some(WithEntry(s, id, e.(setter := Setting(TimedOut))))
      case Publish(id) =>
        if !e.setter.Setting? then None
        else Some(WithEntry(s, id, e.(response := Some(e.setter.lookup), closes := e.closes + 1, setter := Published)))
      case RefreshCreate(id) =>
        if e.refresher != Spawned then None
        else
          var n := |s.entries|;
          var renewed := NewEntry(e.domain, s.now).(setter := Selecting, parent := Some(id));
          var s' := WithEntry(s, id, e.(refresher := Awaiting(n)));
          Some(s'.(entries := s'.entries + [renewed]))
      case RefreshDecide(id) =>
        if !e.refresher.Awaiting? || e.refresher.next >= |s.entries| then None
        else if s.entries[e.refresher.next].closes == 0 then None
        else
          var n := e.refresher.next;
          var s' := WithEntry(s, id, e.(refresher := Decided(n)));
          Some(WithEntry(s', n, Decide(cfg, e, s'.entries[n], s.now)))
      case RefreshReplace(id) =>
        if !e.refresher.Decided? || e.refresher.next >= |s.entries| then None
        else
          var n := e.refresher.next;
          var s' := WithEntry(s, id, e.(refresher := Replaced(n)));
          var s'' := WithEntry(s', n, s'.entries[n].(shared := true));
          Some(s''.(store := s.store[e.domain := n]))
  }

  /** One atomic step, or nothing if it is not possible here. */
  function Step(cfg: Config, s: State, a: Action): Option<State> {
    match a
    case Tick(dt) => Some(s.(now := s.now + dt))
    case Begin(t, d) => if t in s.callers then None else Some(WithCaller(s, t, Loading(d)))
    case Evict(d) => Some(s.(store := s.store - {d}))
    case TryGet(_) => StepCaller(cfg, s, a)
    case LockedGet(_) => StepCaller(cfg, s, a)
    case CheckUpToDate(_) => StepCaller(cfg, s, a)
    case CheckNeedsRefresh(_) => StepCaller(cfg, s, a)
    case StartRefresh(_) => StepCaller(cfg, s, a)
    case StartRetrieve(_) => StepCaller(cfg, s, a)
    case Cancel(_) => StepCaller(cfg, s, a)
    case Wake(_) => StepCaller(cfg, s, a)
    case ReadLookup(_) => StepCaller(cfg, s, a)
    case _ => StepEntry(cfg, s, a)
  }

  /** The state a run leads to, if every one of its steps is possible. */
  function Play(cfg: Config, start: Time, run: seq<Action>): Option<State> {
    if run == [] then Some(Init(start))
    else
      match Play(cfg, start, run[..|run| - 1])
      case None => None
      case Some(s) => Step(cfg, s, run[|run| - 1])
  }

  lemma PlaySnoc(cfg: Config, start: Time, run: seq<Action>, a: Action)
    requires Play(cfg, start, run).Some?
    ensures Play(cfg, start, run + [a]) == Step(cfg, Play(cfg, start, run).value, a)
  {
    assert (run + [a])[..|run|] == run;
  }
}
