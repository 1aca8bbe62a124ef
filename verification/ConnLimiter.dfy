/**
 A pool of connection slots shared by several listeners: goroutines accepting, connections being
 closed (perhaps twice), listeners being closed (perhaps twice), all interleaved.
 */
module ConnLimiter {
  import opened Basics

  type ListenerId = nat
  type ConnId = nat
  type Thread = nat

  /** Where a goroutine stands inside Accept or one of the Close methods. */
  datatype Pc =
    | Waiting(l: ListenerId)                       // in the select of acquire
    | Took(l: ListenerId)                          // has a slot, not yet counted
    | Accepting(l: ListenerId, acquired: bool)     // in the inner Accept
    | Releasing                                    // the inner Accept failed; giving the slot back
    | Dropping                                     // gave the slot back, not yet uncounted
    | Closing(l: ListenerId)                       // inner listener closed, `done` not yet
    | ConnClosing(c: ConnId)                       // inner connection closed
    | ConnReleasing(c: ConnId)                     // inside the once, giving the slot back
    | Finished

  datatype Listener = Listener(innerClosed: bool, doneCloses: nat)

  datatype Conn = Conn(onceTaken: bool, releases: nat)

  datatype State = State(
    sem: nat,
    concurrent: int,   // gauge
    waiting: int,      // gauge
    listeners: map<ListenerId, Listener>,
    threads: map<Thread, Pc>,
    conns: map<ConnId, Conn>)

  /** `honest`: an inner Accept fails once its listener is closed. */
  datatype Config = Config(capacity: nat, honest: bool)

  datatype Action =
    | Listen(l: ListenerId)
    | StartAccept(t: Thread, l: ListenerId)
    | SeeDone(t: Thread)
    | TakeSlot(t: Thread)
    | CountSlot(t: Thread)
    | AcceptOk(t: Thread, c: ConnId)
    | AcceptFail(t: Thread)
    | GiveBack(t: Thread)
    | Uncount(t: Thread)
    | BeginClose(t: Thread, l: ListenerId)
    | FinishClose(t: Thread)
    | BeginConnClose(t: Thread, c: ConnId)
    | EnterOnce(t: Thread)
    | ConnGiveBack(t: Thread)

  function Init(): State { State(0, 0, 0, map[], map[], map[]) }

  function At(s: State, t: Thread, pc: Pc): State { s.(threads := s.threads[t := pc]) }

  /** A goroutine's next step from where it stands. */
  function StepThread(cfg: Config, s: State, a: Action): Option<State>
    requires !a.Listen? && !a.StartAccept? && !a.BeginClose? && !a.BeginConnClose?
  {
    if a.t !in s.threads then None
    else
      match (a, s.threads[a.t])
      case (SeeDone(t), Waiting(l)) =>
        if l !in s.listeners || s.listeners[l].doneCloses == 0 then None
        else Some(At(s, t, Accepting(l, false)).(waiting := s.waiting - 1))
      case (TakeSlot(t), Waiting(l)) =>
        if s.sem >= cfg.capacity then None
        else Some(At(s, t, Took(l)).(sem := s.sem + 1))
      case (CountSlot(t), Took(l)) =>
        Some(At(s, t, Accepting(l, true)).(concurrent := s.concurrent + 1, waiting := s.waiting - 1))
      case (AcceptOk(t, c), Accepting(l, acquired)) =>
        if l !in s.listeners || (cfg.honest && s.listeners[l].innerClosed) || c in s.conns then None
        else Some(At(s, t, Finished).(conns := s.conns[c := Conn(false, 0)]))
      case (AcceptFail(t), Accepting(l, acquired)) =>
        Some(At(s, t, if acquired then Releasing else Finished))
      case (GiveBack(t), Releasing) =>
        if s.sem == 0 then None else Some(At(s, t, Dropping).(sem := s.sem - 1))
      case (Uncount(t), Dropping) =>
        Some(At(s, t, Finished).(concurrent := s.concurrent - 1))
      case (FinishClose(t), Closing(l)) =>
        if l !in s.listeners then None
        else
          var li := s.listeners[l];
          var li' := if li.doneCloses == 0 then li.(doneCloses := 1) else li;
          Some(At(s, t, Finished).(listeners := s.listeners[l := li']))
      case (EnterOnce(t), ConnClosing(c)) =>
        if c !in s.conns then None
        else if s.conns[c].onceTaken then Some(At(s, t, Finished))
        else Some(At(s, t, ConnReleasing(c)).(conns := s.conns[c := s.conns[c].(onceTaken := true)]))
      case (ConnGiveBack(t), ConnReleasing(c)) =>
        if s.sem == 0 || c !in s.conns then None
        else
          var conn := s.conns[c];
          Some(At(s, t, Dropping).(sem := s.sem - 1, conns := s.conns[c := conn.(releases := conn.releases + 1)]))
      case _ => None
  }

  function Step(cfg: Config, s: State, a: Action): Option<State> {
    match a
    case Listen(l) =>
      if l in s.listeners then None
      else Some(s.(listeners := s.listeners[l := Listener(false, 0)]))
    case StartAccept(t, l) =>
      if t in s.threads || l !in s.listeners then None
      else Some(At(s, t, Waiting(l)).(waiting := s.waiting + 1))
    case BeginClose(t, l) =>
      if t in s.threads || l !in s.listeners then None
      else Some(At(s, t, Closing(l)).(listeners := s.listeners[l := s.listeners[l].(innerClosed := true)]))
    case BeginConnClose(t, c) =>
      if t in s.threads || c !in s.conns then None
      else Some(At(s, t, ConnClosing(c)))
    case _ => StepThread(cfg, s, a)
  }

  function Play(cfg: Config, run: seq<Action>): Option<State> {
    if run == [] then Some(Init())
    else
      match Play(cfg, run[..|run| - 1])
      case None => None
      case Some(s) => Step(cfg, s, run[|run| - 1])
  }

  // ----- counting -----

  predicate HoldsSlot(pc: Pc) { pc.Took? || (pc.Accepting? && pc.acquired) || pc.Releasing? }
  predicate IsTook(pc: Pc) { pc.Took? }
  predicate IsDropping(pc: Pc) { pc.Dropping? }
  predicate IsWaiting(pc: Pc) { pc.Waiting? || pc.Took? }
  predicate Unreleased(c: Conn) { c.releases == 0 }

  ghost function Matching<K, V>(m: map<K, V>, p: V -> bool): set<K> {
    set k | k in m && p(m[k])
  }

  ghost function Count<K, V>(m: map<K, V>, p: V -> bool): nat { |Matching(m, p)| }

  lemma SplitOff<K>(a: set<K>, k: K)
    ensures |a| == |a - {k}| + if k in a then 1 else 0
  {
    if k in a {
      assert a == (a - {k}) + {k};
    } else {
      assert a == a - {k};
    }
  }

  lemma CountUpdate<K, V>(m: map<K, V>, k: K, v: V, p: V -> bool)
    ensures Count(m[k := v], p) == Count(m, p) - (if k in m && p(m[k]) then 1 else 0) + (if p(v) then 1 else 0)
  {
    var before, after := Matching(m, p), Matching(m[k := v], p);
    assert after - {k} == before - {k};
    SplitOff(before, k);
    SplitOff(after, k);
  }

  lemma CountPositive<K, V>(m: map<K, V>, k: K, p: V -> bool)
    requires k in m && p(m[k])
    ensures Count(m, p) > 0
  {
    assert k in Matching(m, p);
  }

  // ----- the invariant -----

  ghost predicate Tallies(cfg: Config, s: State) {
    && s.sem == Count(s.threads, HoldsSlot) + Count(s.conns, Unreleased)
    && s.sem <= cfg.capacity
    && s.concurrent == s.sem - Count(s.threads, IsTook) + Count(s.threads, IsDropping)
    && s.waiting == Count(s.threads, IsWaiting)
  }

  ghost predicate ThreadSound(s: State, pc: Pc) {
    match pc
    case Accepting(l, acquired) => l in s.listeners && (!acquired ==> s.listeners[l].innerClosed)
    case Waiting(l) => l in s.listeners
    case Took(l) => l in s.listeners
    case Closing(l) => l in s.listeners && s.listeners[l].innerClosed
    case ConnClosing(c) => c in s.conns
    case ConnReleasing(c) => c in s.conns && s.conns[c] == Conn(true, 0)
    case _ => true
  }

  ghost predicate ThreadsSound(s: State) { forall t | t in s.threads :: ThreadSound(s, s.threads[t]) }

  /** `done` is closed once at most, and only after the inner listener. */
  ghost predicate ListenerSound(l: Listener) { l.doneCloses <= 1 && (l.doneCloses == 1 ==> l.innerClosed) }

  ghost predicate ListenersSound(s: State) { forall l | l in s.listeners :: ListenerSound(s.listeners[l]) }

  ghost predicate ConnSound(c: Conn) { c.releases <= 1 && (!c.onceTaken ==> c.releases == 0) }

  ghost predicate ConnsSound(s: State) { forall c | c in s.conns :: ConnSound(s.conns[c]) }

  /** At most one goroutine is releasing each connection. */
  ghost predicate OneReleaser(threads: map<Thread, Pc>) {
    forall t, t' | t in threads && t' in threads && threads[t].ConnReleasing? && threads[t'] == threads[t] :: t == t'
  }

  ghost predicate Sound(s: State) {
    ThreadsSound(s) && ListenersSound(s) && ConnsSound(s) && OneReleaser(s.threads)
  }

  ghost predicate Inv(cfg: Config, s: State) { Tallies(cfg, s) && Sound(s) }

  // ----- every step keeps it -----

  function One(b: bool): int { if b then 1 else 0 }

  lemma ThreadCounts(threads: map<Thread, Pc>, t: Thread, pc: Pc)
    ensures
      var was := t in threads;
      var now := threads[t := pc];
      && Count(now, HoldsSlot) == Count(threads, HoldsSlot) - One(was && HoldsSlot(threads[t])) + One(HoldsSlot(pc))
      && Count(now, IsTook) == Count(threads, IsTook) - One(was && IsTook(threads[t])) + One(IsTook(pc))
      && Count(now, IsDropping) == Count(threads, IsDropping) - One(was && IsDropping(threads[t])) + One(IsDropping(pc))
      && Count(now, IsWaiting) == Count(threads, IsWaiting) - One(was && IsWaiting(threads[t])) + One(IsWaiting(pc))
  {
    CountUpdate(threads, t, pc, HoldsSlot);
    CountUpdate(threads, t, pc, IsTook);
    CountUpdate(threads, t, pc, IsDropping);
    CountUpdate(threads, t, pc, IsWaiting);
  }

  lemma TalliesThread(cfg: Config, s: State, a: Action)
    requires cfg.honest && Inv(cfg, s)
    requires !a.Listen? && !a.StartAccept? && !a.BeginClose? && !a.BeginConnClose?
    requires !a.AcceptOk? && !a.EnterOnce? && !a.ConnGiveBack?
    requires StepThread(cfg, s, a).Some?
    ensures Tallies(cfg, StepThread(cfg, s, a).value)
  {
    var s' := StepThread(cfg, s, a).value;
    ThreadCounts(s.threads, a.t, s'.threads[a.t]);
    assert s'.threads == s.threads[a.t := s'.threads[a.t]] && s'.conns == s.conns;
  }

  lemma TalliesConn(cfg: Config, s: State, a: Action)
    requires cfg.honest && Inv(cfg, s)
    requires a.AcceptOk? || a.EnterOnce? || a.ConnGiveBack?
    requires StepThread(cfg, s, a).Some?
    ensures Tallies(cfg, StepThread(cfg, s, a).value)
  {
    var s' := StepThread(cfg, s, a).value;
    var pc := s.threads[a.t];
    assert ThreadSound(s, pc);
    ThreadCounts(s.threads, a.t, s'.threads[a.t]);
    if a.AcceptOk? {
      CountUpdate(s.conns, a.c, Conn(false, 0), Unreleased);
    } else {
      CountUpdate(s.conns, pc.c, s'.conns[pc.c], Unreleased);
      assert s'.conns == s.conns[pc.c := s'.conns[pc.c]];
    }
  }

  lemma TalliesStep(cfg: Config, s: State, a: Action)
    requires cfg.honest && Inv(cfg, s) && Step(cfg, s, a).Some?
    ensures Tallies(cfg, Step(cfg, s, a).value)
  {
    match a
    case Listen(_) => assert Step(cfg, s, a).value.threads == s.threads && Step(cfg, s, a).value.conns == s.conns;
    case StartAccept(t, l) => ThreadCounts(s.threads, t, Waiting(l));
    case BeginClose(t, l) => ThreadCounts(s.threads, t, Closing(l));
    case BeginConnClose(t, c) => ThreadCounts(s.threads, t, ConnClosing(c));
    case AcceptOk(_, _) => TalliesConn(cfg, s, a);
    case EnterOnce(_) => TalliesConn(cfg, s, a);
    case ConnGiveBack(_) => TalliesConn(cfg, s, a);
    case _ => TalliesThread(cfg, s, a);
  }

  /** What a step may do to what goroutines rely on. */
  ghost predicate Grows(s: State, s': State) {
    && (forall l | l in s.listeners ::
          l in s'.listeners && (s.listeners[l].innerClosed ==> s'.listeners[l].innerClosed))
    && (forall c | c in s.conns :: c in s'.conns)
  }

  lemma ThreadsKept(s: State, s': State, t: Thread, pc: Pc)
    requires ThreadsSound(s) && Grows(s, s')
    requires s'.threads == s.threads[t := pc] && ThreadSound(s', pc)
    requires forall u | u in s.threads && u != t && s.threads[u].ConnReleasing? ::
               s.threads[u].c in s'.conns && s'.conns[s.threads[u].c] == Conn(true, 0)
    ensures ThreadsSound(s')
  {
    forall u | u in s'.threads ensures ThreadSound(s', s'.threads[u]) {
      assert u != t ==> ThreadSound(s, s.threads[u]);
    }
  }

  lemma SoundOther(cfg: Config, s: State, a: Action)
    requires cfg.honest && Sound(s)
    requires a.SeeDone? || a.TakeSlot? || a.CountSlot? || a.AcceptFail? || a.GiveBack? || a.Uncount? || a.FinishClose?
    requires StepThread(cfg, s, a).Some?
    ensures Sound(StepThread(cfg, s, a).value)
  {
    var s' := StepThread(cfg, s, a).value;
    var pc := s.threads[a.t];
    assert ThreadSound(s, pc);
    if a.SeeDone? {
      assert ListenerSound(s.listeners[pc.l]);
    }
    ThreadsKept(s, s', a.t, s'.threads[a.t]);
  }

  lemma SoundAcceptOk(cfg: Config, s: State, a: Action)
    requires Sound(s) && a.AcceptOk?
    requires StepThread(cfg, s, a).Some?
    ensures Sound(StepThread(cfg, s, a).value)
  {
    var s' := StepThread(cfg, s, a).value;
    assert ThreadSound(s, s.threads[a.t]);
    assert forall u | u in s.threads && s.threads[u].ConnReleasing? :: ThreadSound(s, s.threads[u]);
    ThreadsKept(s, s', a.t, s'.threads[a.t]);
  }

  lemma SoundEnterOnce(cfg: Config, s: State, a: Action)
    requires Sound(s) && a.EnterOnce?
    requires StepThread(cfg, s, a).Some?
    ensures Sound(StepThread(cfg, s, a).value)
  {
    var s' := StepThread(cfg, s, a).value;
    assert ThreadSound(s, s.threads[a.t]);
    assert forall u | u in s.threads && s.threads[u].ConnReleasing? :: ThreadSound(s, s.threads[u]);
    ThreadsKept(s, s', a.t, s'.threads[a.t]);
  }

  lemma SoundConnGiveBack(cfg: Config, s: State, a: Action)
    requires Sound(s) && a.ConnGiveBack?
    requires StepThread(cfg, s, a).Some?
    ensures Sound(StepThread(cfg, s, a).value)
  {
    var s' := StepThread(cfg, s, a).value;
    assert ThreadSound(s, s.threads[a.t]);
    assert forall u | u in s.threads && s.threads[u].ConnReleasing? :: ThreadSound(s, s.threads[u]);
    ThreadsKept(s, s', a.t, s'.threads[a.t]);
  }

  lemma SoundStart(cfg: Config, s: State, a: Action)
    requires Sound(s) && Step(cfg, s, a).Some?
    requires a.StartAccept? || a.BeginClose? || a.BeginConnClose?
    ensures Sound(Step(cfg, s, a).value)
  {
    var s' := Step(cfg, s, a).value;
    forall u | u in s.threads && s.threads[u].ConnReleasing?
      ensures s.threads[u].c in s'.conns && s'.conns[s.threads[u].c] == Conn(true, 0)
    {
      assert ThreadSound(s, s.threads[u]);
    }
    ThreadsKept(s, s', a.t, s'.threads[a.t]);
  }

  lemma SoundListen(cfg: Config, s: State, l: ListenerId)
    requires Inv(cfg, s) && Step(cfg, s, Listen(l)).Some?
    ensures Inv(cfg, Step(cfg, s, Listen(l)).value)
  {
    var s' := Step(cfg, s, Listen(l)).value;
    forall u | u in s.threads ensures ThreadSound(s', s.threads[u]) {
      assert ThreadSound(s, s.threads[u]);
    }
  }

  lemma InvStep(cfg: Config, s: State, a: Action)
    requires cfg.honest && Inv(cfg, s) && Step(cfg, s, a).Some?
    ensures Inv(cfg, Step(cfg, s, a).value)
  {
    if a.Listen? {
      SoundListen(cfg, s, a.l);
    } else {
      TalliesStep(cfg, s, a);
      if a.StartAccept? || a.BeginClose? || a.BeginConnClose? {
        SoundStart(cfg, s, a);
      } else if a.AcceptOk? {
        SoundAcceptOk(cfg, s, a);
      } else if a.EnterOnce? {
        SoundEnterOnce(cfg, s, a);
      } else if a.ConnGiveBack? {
        SoundConnGiveBack(cfg, s, a);
      } else {
        SoundOther(cfg, s, a);
      }
    }
  }

  lemma {:induction false} InvRun(cfg: Config, run: seq<Action>)
    requires cfg.honest && Play(cfg, run).Some?
    ensures Inv(cfg, Play(cfg, run).value)
  {
    if run != [] {
      var before := run[..|run| - 1];
      InvRun(cfg, before);
      InvStep(cfg, Play(cfg, before).value, run[|run| - 1]);
    }
  }

  // ----- what that means -----

  /** A goroutine about to give a slot back. */
  predicate GivingBack(pc: Pc) { pc.Releasing? || pc.ConnReleasing? }

  /** Every slot is accounted for, giving one back never blocks, and no connection gives back twice. */
  ghost predicate Safe(cfg: Config, s: State) {
    && s.sem == Count(s.threads, HoldsSlot) + Count(s.conns, Unreleased)
    && s.sem <= cfg.capacity
    && (forall t | t in s.threads && GivingBack(s.threads[t]) :: s.sem > 0)
    && (forall c | c in s.conns :: s.conns[c].releases <= 1)
    && (forall l | l in s.listeners :: s.listeners[l].doneCloses <= 1)
  }

  lemma InvSafe(cfg: Config, s: State)
    requires Inv(cfg, s)
    ensures Safe(cfg, s)
  {
    forall t | t in s.threads && GivingBack(s.threads[t]) ensures s.sem > 0 {
      assert ThreadSound(s, s.threads[t]);
      if s.threads[t].Releasing? {
        CountPositive(s.threads, t, HoldsSlot);
      } else {
        CountPositive(s.conns, s.threads[t].c, Unreleased);
      }
    }
    forall c | c in s.conns ensures s.conns[c].releases <= 1 { assert ConnSound(s.conns[c]); }
    forall l | l in s.listeners ensures s.listeners[l].doneCloses <= 1 { assert ListenerSound(s.listeners[l]); }
  }

  ghost predicate AlwaysSafe(cfg: Config) {
    forall run | Play(cfg, run).Some? :: Safe(cfg, Play(cfg, run).value)
  }

  /** A rogue listener that accepts after it was closed hands out a connection without a slot. */
  function RogueRun(): seq<Action> {
    [Listen(0), StartAccept(0, 0), BeginClose(1, 0), FinishClose(1), SeeDone(0), AcceptOk(0, 0),
     BeginConnClose(2, 0), EnterOnce(2)]
  }

  /** The limiter is safe in every run exactly when closed listeners stop accepting. */
  lemma SafeExactly(cfg: Config)
    ensures AlwaysSafe(cfg) <==> cfg.honest
  {
    if cfg.honest {
      forall run | Play(cfg, run).Some? ensures Safe(cfg, Play(cfg, run).value) {
        InvRun(cfg, run);
        InvSafe(cfg, Play(cfg, run).value);
      }
    } else {
      RogueBlocks(cfg);
    }
  }

  lemma PlaySnoc(cfg: Config, run: seq<Action>, a: Action)
    requires Play(cfg, run).Some?
    ensures Play(cfg, run + [a]) == Step(cfg, Play(cfg, run).value, a)
  {
    assert (run + [a])[..|run|] == run;
  }

  lemma RogueClose(cfg: Config)
    ensures
      var run := [Listen(0), StartAccept(0, 0), BeginClose(1, 0), FinishClose(1)];
      Play(cfg, run) == Some(State(0, 0, 1, map[0 := Listener(true, 1)], map[0 := Waiting(0), 1 := Finished], map[]))
  {
    PlaySnoc(cfg, [], Listen(0));
    assert [] + [Listen(0)] == [Listen(0)];
    PlaySnoc(cfg, [Listen(0)], StartAccept(0, 0));
    var run := [Listen(0), StartAccept(0, 0)];
    assert [Listen(0)] + [StartAccept(0, 0)] == run;
    assert Play(cfg, run) == Some(State(0, 0, 1, map[0 := Listener(false, 0)], map[0 := Waiting(0)], map[]));
    PlaySnoc(cfg, run, BeginClose(1, 0));
    assert map[0 := Listener(false, 0)][0 := Listener(true, 0)] == map[0 := Listener(true, 0)];
    assert map[0 := Listener(true, 0)][0 := Listener(true, 1)] == map[0 := Listener(true, 1)];
    assert map[0 := Waiting(0)][1 := Closing(0)] == map[0 := Waiting(0), 1 := Closing(0)];
    assert map[0 := Waiting(0), 1 := Closing(0)][1 := Finished] == map[0 := Waiting(0), 1 := Finished];
    assert Play(cfg, run + [BeginClose(1, 0)]) ==
           Some(State(0, 0, 1, map[0 := Listener(true, 0)], map[0 := Waiting(0), 1 := Closing(0)], map[]));
    PlaySnoc(cfg, run + [BeginClose(1, 0)], FinishClose(1));
    assert run + [BeginClose(1, 0)] + [FinishClose(1)] ==
           [Listen(0), StartAccept(0, 0), BeginClose(1, 0), FinishClose(1)];
  }

  lemma RogueRelease(cfg: Config, run: seq<Action>)
    requires Play(cfg, run).Some?
    requires
      var s := Play(cfg, run).value;
      s.sem == 0 && 2 !in s.threads && 0 in s.conns && s.conns[0] == Conn(false, 0)
    ensures
      var s := Play(cfg, run + [BeginConnClose(2, 0)] + [EnterOnce(2)]);
      s.Some? && !Safe(cfg, s.value)
  {
    PlaySnoc(cfg, run, BeginConnClose(2, 0));
    PlaySnoc(cfg, run + [BeginConnClose(2, 0)], EnterOnce(2));
    var s := Play(cfg, run + [BeginConnClose(2, 0)] + [EnterOnce(2)]).value;
    assert s.threads[2] == ConnReleasing(0) && s.sem == 0;
  }

  lemma RogueBlocks(cfg: Config)
    requires !cfg.honest
    ensures Play(cfg, RogueRun()).Some? && !Safe(cfg, Play(cfg, RogueRun()).value)
  {
    RogueClose(cfg);
    var run := [Listen(0), StartAccept(0, 0), BeginClose(1, 0), FinishClose(1)];
    PlaySnoc(cfg, run, SeeDone(0));
    PlaySnoc(cfg, run + [SeeDone(0)], AcceptOk(0, 0));
    RogueRelease(cfg, run + [SeeDone(0)] + [AcceptOk(0, 0)]);
    assert run + [SeeDone(0)] + [AcceptOk(0, 0)] + [BeginConnClose(2, 0)] + [EnterOnce(2)] == RogueRun();
  }

  /** No slot is lost: when no goroutine is inside Accept and every connection is released, all are free. */
  lemma NoSlotLost(cfg: Config, run: seq<Action>)
    requires cfg.honest && Play(cfg, run).Some?
    ensures
      var s := Play(cfg, run).value;
      (forall t | t in s.threads :: s.threads[t].Finished?) && (forall c | c in s.conns :: s.conns[c].releases > 0)
      ==> s.sem == 0 && s.concurrent == 0 && s.waiting == 0
  {
    InvRun(cfg, run);
    var s := Play(cfg, run).value;
    if (forall t | t in s.threads :: s.threads[t].Finished?) && (forall c | c in s.conns :: s.conns[c].releases > 0) {
      assert Matching(s.threads, HoldsSlot) == {} && Matching(s.conns, Unreleased) == {};
      assert Matching(s.threads, IsTook) == {} && Matching(s.threads, IsDropping) == {};
      assert Matching(s.threads, IsWaiting) == {};
    }
  }
}
