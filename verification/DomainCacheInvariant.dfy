/** What every step of the domain cache keeps. */
module DomainCacheInvariant {
  import opened Basics
  import opened DomainCache

  /** A lookup the cache may hand out for `d`: an answer given for `d`, or a retrieval's own failure. */
  predicate Genuine(cfg: Config, answered: set<(Domain, Lookup)>, d: Domain, l: Lookup) {
    (d, l) in answered || l == TimedOut || (cfg.maxRetries == 0 && l == Blank)
  }

  /** What one entry keeps about itself. */
  ghost predicate EntrySound(cfg: Config, now: Time, answered: set<(Domain, Lookup)>, e: Entry) {
    && e.created <= now && Stamp(e) <= e.created
    && e.backoff.calls <= cfg.maxRetries
    && (e.setter == Unset ==> e.backoff == Backoff(0, Blank))
    && (e.backoff.calls == 0 ==> e.backoff.last == Blank)
    && (e.backoff.calls > 0 ==> (e.domain, e.backoff.last) in answered)
    && (e.setter.Setting? ==> Genuine(cfg, answered, e.domain, e.setter.lookup))
    && e.closes == (if e.setter == Published then 1 else 0)
    && (e.response.Some? <==> e.setter == Published)
    && (e.response.Some? ==> Genuine(cfg, answered, e.domain, e.response.value))
    && (e.refresher != Fresh ==> e.response.Some? && e.shared)
    && (e.original.Some? ==> e.parent.Some?)
    && (e.parent == None ==> e.shared)
  }

  predicate HasNext(r: Refresher) { r.Awaiting? || r.Decided? || r.Replaced? }

  /** A refreshing entry points at the one created for it, which nobody else sees until it replaces. */
  ghost predicate ForwardLink(entries: seq<Entry>, i: nat)
    requires i < |entries|
  {
    HasNext(entries[i].refresher) ==>
      var n := entries[i].refresher.next;
      && i < n < |entries| && entries[n].parent == Some(i)
      && entries[n].setter != Unset
      && (entries[n].shared <==> entries[i].refresher.Replaced?)
      && (entries[i].refresher.Awaiting? ==> entries[n].original == None)
      && (!entries[i].refresher.Awaiting? ==> entries[n].closes == 1)
  }

  /** An entry created by a refresh points back at the entry it refreshes. */
  ghost predicate BackLink(cfg: Config, entries: seq<Entry>, n: nat)
    requires n < |entries|
  {
    entries[n].parent.Some? ==>
      var i := entries[n].parent.value;
      && i < n && HasNext(entries[i].refresher) && entries[i].refresher.next == n
      && entries[i].domain == entries[n].domain
      && entries[i].created <= entries[n].created
      && (entries[n].original.Some? ==> CarriedFrom(cfg, entries[i], entries[n]))
  }

  /** What a response kept over a failed refresh says about both entries. */
  ghost predicate CarriedFrom(cfg: Config, stale: Entry, renewed: Entry) {
    && renewed.original == Some(stale.created)
    && renewed.response == stale.response
    && renewed.created - Stamp(stale) <= cfg.expiration
  }

  ghost predicate CallerSound(cfg: Config, entries: seq<Entry>, answered: set<(Domain, Lookup)>, c: Caller) {
    match c
    case Loading(_) => true
    case Missed(_) => true
    case ContextDone(_) => true
    case Returned(d, l) => l.Some? && Genuine(cfg, answered, d, l.value)
    case _ =>
      && c.id < |entries| && entries[c.id].domain == c.d && entries[c.id].shared
      && (c.Refreshing? || c.Reading? ==> entries[c.id].response.Some?)
      && (c.Waiting? ==> entries[c.id].setter != Unset)
  }

  ghost predicate Stored(entries: seq<Entry>, d: Domain, id: Id) {
    id < |entries| && entries[id].domain == d && entries[id].shared
  }

  ghost predicate EntriesSound(cfg: Config, s: State) {
    forall i | 0 <= i < |s.entries| :: EntrySound(cfg, s.now, s.answered, s.entries[i])
  }

  ghost predicate LinksSound(cfg: Config, es: seq<Entry>) {
    && (forall i | 0 <= i < |es| :: ForwardLink(es, i))
    && (forall i | 0 <= i < |es| :: BackLink(cfg, es, i))
  }

  ghost predicate StoreSound(s: State) { forall d | d in s.store :: Stored(s.entries, d, s.store[d]) }

  ghost predicate CallersSound(cfg: Config, s: State) {
    forall t | t in s.callers :: CallerSound(cfg, s.entries, s.answered, s.callers[t])
  }

  ghost predicate Inv(cfg: Config, s: State) {
    EntriesSound(cfg, s) && LinksSound(cfg, s.entries) && StoreSound(s) && CallersSound(cfg, s)
  }

  // ----- what each part of the state needs of a change elsewhere -----

  /** How an entry may change under the eyes of those who hold it. */
  ghost predicate Evolves(e: Entry, e': Entry) {
    && e'.domain == e.domain && e'.created == e.created && e'.parent == e.parent
    && (e.shared ==> e'.shared && e'.original == e.original)
    && (e.setter != Unset ==> e'.setter != Unset)
    && e.closes <= e'.closes
    && (e.refresher != Fresh ==> e'.refresher != Fresh)
    && (e.response.Some? ==> e'.response.Some?)
    && (e.shared && e.response.Some? ==> e'.response == e.response)
  }

  ghost predicate AllEvolve(es: seq<Entry>, es': seq<Entry>) {
    |es| <= |es'| && forall i | 0 <= i < |es| :: Evolves(es[i], es'[i])
  }

  lemma HoldersKeep(cfg: Config, s: State, s': State)
    requires StoreSound(s) && CallersSound(cfg, s)
    requires AllEvolve(s.entries, s'.entries) && s.answered <= s'.answered
    ensures forall d | d in s.store :: Stored(s'.entries, d, s.store[d])
    ensures forall t | t in s.callers :: CallerSound(cfg, s'.entries, s'.answered, s.callers[t])
  {
    forall t | t in s.callers ensures CallerSound(cfg, s'.entries, s'.answered, s.callers[t]) {
      assert CallerSound(cfg, s.entries, s.answered, s.callers[t]);
    }
  }

  /** A change of one entry that leaves its links alone. */
  ghost predicate Steady(e: Entry, e': Entry) {
    && Evolves(e, e') && e'.original == e.original && e'.shared == e.shared
    && (e.response.Some? ==> e'.response == e.response)
    && (e'.refresher == e.refresher || (e.refresher == Fresh && e'.refresher == Spawned))
  }

  lemma UpdateEntry(cfg: Config, s: State, id: Id, e: Entry, answered: set<(Domain, Lookup)>)
    requires Inv(cfg, s) && id < |s.entries| && s.answered <= answered
    requires Steady(s.entries[id], e) && EntrySound(cfg, s.now, answered, e)
    ensures Inv(cfg, WithEntry(s, id, e).(answered := answered))
  {
    var s' := WithEntry(s, id, e).(answered := answered);
    forall i | 0 <= i < |s'.entries| ensures EntrySound(cfg, s'.now, answered, s'.entries[i]) {
      assert EntrySound(cfg, s.now, s.answered, s.entries[i]);
    }
    LinksSteady(cfg, s, id, e);
    HoldersKeep(cfg, s, s');
  }

  lemma LinksSteady(cfg: Config, s: State, id: Id, e: Entry)
    requires Inv(cfg, s) && id < |s.entries| && Steady(s.entries[id], e)
    requires e.closes <= 1
    ensures LinksSound(cfg, s.entries[id := e])
  {
    var es, es' := s.entries, s.entries[id := e];
    forall i | 0 <= i < |es'| ensures ForwardLink(es', i) {
      assert ForwardLink(es, i);
    }
    forall n | 0 <= n < |es'| ensures BackLink(cfg, es', n) {
      assert BackLink(cfg, es, n);
      if es[n].original.Some? {
        assert EntrySound(cfg, s.now, s.answered, es[n]);
        var i := es[n].parent.value;
        assert EntrySound(cfg, s.now, s.answered, es[i]);
      }
    }
  }

  lemma SetCaller(cfg: Config, s: State, t: Thread, c: Caller)
    requires Inv(cfg, s) && CallerSound(cfg, s.entries, s.answered, c)
    ensures Inv(cfg, WithCaller(s, t, c))
  {
  }

  /** A new entry at the end leaves the old ones as they were. */
  lemma LinksAppend(cfg: Config, es: seq<Entry>, e: Entry)
    requires LinksSound(cfg, es)
    ensures forall i | 0 <= i < |es| :: ForwardLink(es + [e], i)
    ensures forall i | 0 <= i < |es| :: BackLink(cfg, es + [e], i)
  {
    forall i | 0 <= i < |es| ensures ForwardLink(es + [e], i) && BackLink(cfg, es + [e], i) {
      assert ForwardLink(es, i) && BackLink(cfg, es, i);
    }
  }

  lemma AppendShared(cfg: Config, s: State, d: Domain)
    requires Inv(cfg, s)
    ensures
      var e := NewEntry(d, s.now).(shared := true);
      Inv(cfg, s.(entries := s.entries + [e], store := s.store[d := |s.entries|]))
  {
    var e := NewEntry(d, s.now).(shared := true);
    var s' := s.(entries := s.entries + [e], store := s.store[d := |s.entries|]);
    LinksAppend(cfg, s.entries, e);
    HoldersKeep(cfg, s, s');
  }

  // ----- the callers' steps -----

  lemma InvCaller(cfg: Config, s: State, a: Action)
    requires Inv(cfg, s)
    requires a.TryGet? || a.LockedGet? || a.CheckUpToDate? || a.CheckNeedsRefresh? || a.StartRefresh?
             || a.StartRetrieve? || a.Cancel? || a.Wake? || a.ReadLookup?
    requires StepCaller(cfg, s, a).Some?
    ensures Inv(cfg, StepCaller(cfg, s, a).value)
  {
    var c := s.callers[a.t];
    assert CallerSound(cfg, s.entries, s.answered, c);
    match a
    case TryGet(t) =>
      if c.d in s.store {
        assert Stored(s.entries, c.d, s.store[c.d]);
      }
      SetCaller(cfg, s, t, if c.d in s.store then Checking(c.d, s.store[c.d]) else Missed(c.d));
    case LockedGet(t) =>
      if c.d in s.store {
        assert Stored(s.entries, c.d, s.store[c.d]);
        SetCaller(cfg, s, t, Checking(c.d, s.store[c.d]));
      } else {
        AppendShared(cfg, s, c.d);
        var e := NewEntry(c.d, s.now).(shared := true);
        var s' := s.(entries := s.entries + [e], store := s.store[c.d := |s.entries|]);
        SetCaller(cfg, s', t, Checking(c.d, |s.entries|));
      }
    case StartRefresh(t) =>
      var e := s.entries[c.id];
      var e' := if e.refresher == Fresh then e.(refresher := Spawned) else e;
      assert EntrySound(cfg, s.now, s.answered, e);
      UpdateEntry(cfg, s, c.id, e', s.answered);
      assert WithEntry(s, c.id, e').(answered := s.answered) == WithEntry(s, c.id, e');
      SetCaller(cfg, WithEntry(s, c.id, e'), t, Reading(c.d, c.id));
    case StartRetrieve(t) =>
      var e := s.entries[c.id];
      var e' := if e.setter == Unset then e.(setter := Selecting) else e;
      assert EntrySound(cfg, s.now, s.answered, e);
      UpdateEntry(cfg, s, c.id, e', s.answered);
      assert WithEntry(s, c.id, e').(answered := s.answered) == WithEntry(s, c.id, e');
      SetCaller(cfg, WithEntry(s, c.id, e'), t, Waiting(c.d, c.id));
    case CheckUpToDate(t) =>
      SetCaller(cfg, s, t, StepCaller(cfg, s, a).value.callers[t]);
    case CheckNeedsRefresh(t) =>
      SetCaller(cfg, s, t, StepCaller(cfg, s, a).value.callers[t]);
    case Cancel(t) =>
      SetCaller(cfg, s, t, ContextDone(c.d));
    case Wake(t) =>
      assert EntrySound(cfg, s.now, s.answered, s.entries[c.id]);
      SetCaller(cfg, s, t, Reading(c.d, c.id));
    case ReadLookup(t) =>
      assert EntrySound(cfg, s.now, s.answered, s.entries[c.id]);
      SetCaller(cfg, s, t, Returned(c.d, s.entries[c.id].response));
  }

  // ----- the retrieval's steps -----

  lemma InvRetrieval(cfg: Config, s: State, a: Action)
    requires Inv(cfg, s)
    requires a.Call? || a.Receive? || a.Timeout? || a.Publish?
    requires StepEntry(cfg, s, a).Some?
    ensures Inv(cfg, StepEntry(cfg, s, a).value)
  {
    var s' := StepEntry(cfg, s, a).value;
    assert EntrySound(cfg, s.now, s.answered, s.entries[a.id]);
    UpdateEntry(cfg, s, a.id, s'.entries[a.id], s'.answered);
    assert s' == WithEntry(s, a.id, s'.entries[a.id]).(answered := s'.answered);
  }

  // ----- the refresh's steps -----

  lemma InvRefreshCreate(cfg: Config, s: State, id: Id)
    requires Inv(cfg, s) && StepEntry(cfg, s, RefreshCreate(id)).Some?
    ensures Inv(cfg, StepEntry(cfg, s, RefreshCreate(id)).value)
  {
    var s' := StepEntry(cfg, s, RefreshCreate(id)).value;
    var es, es', n := s.entries, s'.entries, |s.entries|;
    assert EntrySound(cfg, s.now, s.answered, es[id]);
    forall i | 0 <= i < |es'| ensures EntrySound(cfg, s.now, s.answered, es'[i]) {
      if i < n { assert EntrySound(cfg, s.now, s.answered, es[i]); }
    }
    forall i | 0 <= i < |es'| ensures ForwardLink(es', i) && BackLink(cfg, es', i) {
      if i < n { assert ForwardLink(es, i) && BackLink(cfg, es, i); }
    }
    HoldersKeep(cfg, s, s');
  }

  /** A step of the refresh of `id`, which touches it and the entry `n` created for it. */
  ghost predicate RefreshPair(cfg: Config, es: seq<Entry>, id: Id, n: Id, e: Entry, renewed: Entry) {
    && id < n < |es| && HasNext(es[id].refresher) && es[id].refresher.next == n
    && e == es[id].(refresher := e.refresher) && HasNext(e.refresher) && e.refresher.next == n
    && !e.refresher.Awaiting? && es[n].closes == 1 && es[n].refresher == Fresh
    && renewed == es[n].(response := renewed.response, original := renewed.original, shared := renewed.shared)
    && (renewed.shared <==> e.refresher.Replaced?)
    && (renewed.original.Some? ==> CarriedFrom(cfg, e, renewed))
  }

  lemma LinksRefresh(cfg: Config, es: seq<Entry>, id: Id, n: Id, e: Entry, renewed: Entry)
    requires LinksSound(cfg, es)
    requires id < |es| && HasNext(es[id].refresher) && RefreshPair(cfg, es, id, n, e, renewed)
    ensures LinksSound(cfg, es[id := e][n := renewed])
  {
    var es' := es[id := e][n := renewed];
    assert ForwardLink(es, id) && BackLink(cfg, es, n);
    forall i | 0 <= i < |es| ensures ForwardLink(es', i) {
      assert ForwardLink(es, i);
      if i != id && HasNext(es[i].refresher) {
        assert es[es[i].refresher.next].parent == Some(i);
      }
    }
    forall i | 0 <= i < |es| ensures BackLink(cfg, es', i) {
      assert BackLink(cfg, es, i);
    }
  }

  lemma EntriesRefresh(cfg: Config, s: State, id: Id, n: Id, e: Entry, renewed: Entry)
    requires Inv(cfg, s) && id < |s.entries| && HasNext(s.entries[id].refresher)
    requires RefreshPair(cfg, s.entries, id, n, e, renewed)
    requires EntrySound(cfg, s.now, s.answered, renewed)
    requires !s.entries[n].shared && renewed.response.Some?
    ensures Inv(cfg, s.(entries := s.entries[id := e][n := renewed]))
  {
    var s' := s.(entries := s.entries[id := e][n := renewed]);
    forall i | 0 <= i < |s.entries| ensures EntrySound(cfg, s.now, s.answered, s'.entries[i]) {
      assert EntrySound(cfg, s.now, s.answered, s.entries[i]);
    }
    LinksRefresh(cfg, s.entries, id, n, e, renewed);
    HoldersKeep(cfg, s, s');
  }

  lemma InvRefreshDecide(cfg: Config, s: State, id: Id)
    requires Inv(cfg, s) && StepEntry(cfg, s, RefreshDecide(id)).Some?
    ensures Inv(cfg, StepEntry(cfg, s, RefreshDecide(id)).value)
  {
    var es := s.entries;
    var n := es[id].refresher.next;
    var e := es[id].(refresher := Decided(n));
    var renewed := Decide(cfg, es[id], es[n], s.now);
    assert ForwardLink(es, id) && BackLink(cfg, es, n);
    assert EntrySound(cfg, s.now, s.answered, es[id]) && EntrySound(cfg, s.now, s.answered, es[n]);
    EntriesRefresh(cfg, s, id, n, e, renewed);
    assert StepEntry(cfg, s, RefreshDecide(id)).value == s.(entries := es[id := e][n := renewed]);
  }

  lemma InvRefreshReplace(cfg: Config, s: State, id: Id)
    requires Inv(cfg, s) && StepEntry(cfg, s, RefreshReplace(id)).Some?
    ensures Inv(cfg, StepEntry(cfg, s, RefreshReplace(id)).value)
  {
    var es := s.entries;
    var n := es[id].refresher.next;
    var e := es[id].(refresher := Replaced(n));
    var renewed := es[n].(shared := true);
    assert ForwardLink(es, id) && BackLink(cfg, es, n);
    assert EntrySound(cfg, s.now, s.answered, es[id]) && EntrySound(cfg, s.now, s.answered, es[n]);
    EntriesRefresh(cfg, s, id, n, e, renewed);
    var s' := s.(entries := es[id := e][n := renewed]);
    assert Stored(s'.entries, e.domain, n);
    assert StepEntry(cfg, s, RefreshReplace(id)).value == s'.(store := s.store[e.domain := n]);
  }

  lemma InvStep(cfg: Config, s: State, a: Action)
    requires Inv(cfg, s) && Step(cfg, s, a).Some?
    ensures Inv(cfg, Step(cfg, s, a).value)
  {
    match a
    case Tick(dt) =>
    case Begin(t, d) => SetCaller(cfg, s, t, Loading(d));
    case Evict(d) =>
    case RefreshCreate(id) => InvRefreshCreate(cfg, s, id);
    case RefreshDecide(id) => InvRefreshDecide(cfg, s, id);
    case RefreshReplace(id) => InvRefreshReplace(cfg, s, id);
    case Call(_, _) => InvRetrieval(cfg, s, a);
    case Receive(_) => InvRetrieval(cfg, s, a);
    case Timeout(_) => InvRetrieval(cfg, s, a);
    case Publish(_) => InvRetrieval(cfg, s, a);
    case _ => InvCaller(cfg, s, a);
  }

  /** Every state of every run. */
  lemma {:induction false} InvRun(cfg: Config, start: Time, run: seq<Action>)
    requires Play(cfg, start, run).Some?
    ensures Inv(cfg, Play(cfg, start, run).value)
  {
    if run != [] {
      var before := run[..|run| - 1];
      InvRun(cfg, start, before);
      InvStep(cfg, Play(cfg, start, before).value, run[|run| - 1]);
    }
  }
}
