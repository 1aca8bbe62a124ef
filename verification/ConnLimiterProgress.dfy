/** What goroutines can rely on: free slots can be taken, closing is seen, and every slot comes back. */
module ConnLimiterProgress {
  import opened Basics
  import opened ConnLimiter

  /**
   A waiting goroutine can take a slot exactly when one is free, and can leave exactly when its
   listener is closed.
   */
  lemma AcceptExactly(cfg: Config, run: seq<Action>, t: Thread)
    requires cfg.honest && Play(cfg, run).Some? && t in Play(cfg, run).value.threads
    ensures
      var s := Play(cfg, run).value;
      s.threads[t].Waiting? ==>
        && s.threads[t].l in s.listeners
        && (Step(cfg, s, TakeSlot(t)).Some? <==>
            Count(s.threads, HoldsSlot) + Count(s.conns, Unreleased) < cfg.capacity)
        && (Step(cfg, s, SeeDone(t)).Some? <==> s.listeners[s.threads[t].l].doneCloses > 0)
  {
    InvRun(cfg, run);
    var s := Play(cfg, run).value;
    assert ThreadSound(s, s.threads[t]);
  }

  /** Who holds a slot: a goroutine from taking it to handing out a connection or giving it back. */
  lemma HoldersExactly(pc: Pc, c: Conn)
    ensures HoldsSlot(pc) <==>
            match pc
            case Took(_) => true
            case Accepting(_, acquired) => acquired
            case Releasing => true
            case _ => false
    ensures Unreleased(c) <==> c.releases == 0
  {
  }

  /** The step a goroutine makes next, unless it waits or is through. */
  function NextStep(t: Thread, pc: Pc): Option<Action> {
    match pc
    case Waiting(_) => None
    case Took(_) => Some(CountSlot(t))
    case Accepting(_, _) => Some(AcceptFail(t))
    case Releasing => Some(GiveBack(t))
    case Dropping => Some(Uncount(t))
    case Closing(_) => Some(FinishClose(t))
    case ConnClosing(_) => Some(EnterOnce(t))
    case ConnReleasing(_) => Some(ConnGiveBack(t))
    case Finished => None
  }

  lemma CanMove(cfg: Config, s: State, t: Thread)
    requires t in s.threads && ThreadSound(s, s.threads[t]) && (GivingBack(s.threads[t]) ==> s.sem > 0)
    ensures NextStep(t, s.threads[t]).Some? ==> Step(cfg, s, NextStep(t, s.threads[t]).value).Some?
  {
  }

  /** Nobody else is ever stuck: every goroutine that is neither waiting nor through has its step to make. */
  lemma GoroutinesProgress(cfg: Config, run: seq<Action>, t: Thread)
    requires cfg.honest && Play(cfg, run).Some? && t in Play(cfg, run).value.threads
    ensures
      var s := Play(cfg, run).value;
      || s.threads[t].Waiting? || s.threads[t].Finished?
      || (NextStep(t, s.threads[t]).Some? && Step(cfg, s, NextStep(t, s.threads[t]).value).Some?)
  {
    InvRun(cfg, run);
    var s := Play(cfg, run).value;
    InvSafe(cfg, s);
    CanMove(cfg, s, t);
  }

  // ----- closing a listener -----

  ghost predicate ClosedBy(s: State, t: Thread, l: ListenerId) {
    && t in s.threads && l in s.listeners && s.listeners[l].innerClosed
    && (s.threads[t] == Closing(l) || (s.threads[t] == Finished && s.listeners[l].doneCloses > 0))
  }

  lemma ClosedByStep(cfg: Config, s: State, a: Action, t: Thread, l: ListenerId)
    requires Step(cfg, s, a).Some? && (ClosedBy(s, t, l) || a == BeginClose(t, l))
    ensures ClosedBy(Step(cfg, s, a).value, t, l)
  {
  }

  /** Once a Close has returned, the listener's inner one is closed and whoever waits on it can see that. */
  lemma {:induction false} CloseSignals(cfg: Config, run: seq<Action>, k: nat)
    requires Play(cfg, run).Some? && k < |run| && run[k].BeginClose?
    ensures ClosedBy(Play(cfg, run).value, run[k].t, run[k].l)
  {
    var before := run[..|run| - 1];
    var s, a := Play(cfg, before).value, run[|run| - 1];
    if k < |run| - 1 {
      CloseSignals(cfg, before, k);
    }
    ClosedByStep(cfg, s, a, run[k].t, run[k].l);
  }

  // ----- closing a connection -----

  ghost predicate ConnClosedBy(s: State, t: Thread, c: ConnId) {
    && t in s.threads && c in s.conns
    && (s.threads[t] == ConnClosing(c) ||
        (s.conns[c].onceTaken && s.threads[t] in {ConnReleasing(c), Dropping, Finished}))
  }

  lemma ConnClosedByStep(cfg: Config, s: State, a: Action, t: Thread, c: ConnId)
    requires Step(cfg, s, a).Some? && (ConnClosedBy(s, t, c) || a == BeginConnClose(t, c))
    ensures ConnClosedBy(Step(cfg, s, a).value, t, c)
  {
  }

  lemma {:induction false} ConnCloseSeen(cfg: Config, run: seq<Action>, k: nat)
    requires Play(cfg, run).Some? && k < |run| && run[k].BeginConnClose?
    ensures ConnClosedBy(Play(cfg, run).value, run[k].t, run[k].c)
  {
    var before := run[..|run| - 1];
    var s, a := Play(cfg, before).value, run[|run| - 1];
    if k < |run| - 1 {
      ConnCloseSeen(cfg, before, k);
    }
    ConnClosedByStep(cfg, s, a, run[k].t, run[k].c);
  }

  /** A once that was taken has released, or someone is about to. */
  ghost predicate OnceSound(s: State, c: ConnId)
    requires c in s.conns
  {
    s.conns[c].onceTaken ==> s.conns[c].releases > 0 || exists u | u in s.threads :: s.threads[u] == ConnReleasing(c)
  }

  lemma OnceStep(cfg: Config, s: State, a: Action, c: ConnId)
    requires Step(cfg, s, a).Some? && c in Step(cfg, s, a).value.conns
    requires c in s.conns ==> OnceSound(s, c)
    ensures OnceSound(Step(cfg, s, a).value, c)
  {
    var s' := Step(cfg, s, a).value;
    if c in s.conns && s.conns[c].onceTaken && s'.conns[c].releases == 0 {
      var u :| u in s.threads && s.threads[u] == ConnReleasing(c);
      assert s'.threads[u] == ConnReleasing(c);
    } else if s'.conns[c].onceTaken && s'.conns[c].releases == 0 {
      assert a.EnterOnce? && s'.threads[a.t] == ConnReleasing(c);
    }
  }

  lemma {:induction false} OnceRun(cfg: Config, run: seq<Action>, c: ConnId)
    requires Play(cfg, run).Some? && c in Play(cfg, run).value.conns
    ensures OnceSound(Play(cfg, run).value, c)
  {
    if run != [] {
      var before := run[..|run| - 1];
      var s := Play(cfg, before).value;
      if c in s.conns {
        OnceRun(cfg, before, c);
      }
      OnceStep(cfg, s, run[|run| - 1], c);
    }
  }

  ghost predicate ClosedInRun(run: seq<Action>, c: ConnId) {
    exists k | 0 <= k < |run| :: run[k].BeginConnClose? && run[k].c == c
  }

  /** When everyone is through and every connection was closed, each gave its slot back once and all are free. */
  lemma EverySlotReturns(cfg: Config, run: seq<Action>)
    requires cfg.honest && Play(cfg, run).Some?
    requires forall t | t in Play(cfg, run).value.threads :: Play(cfg, run).value.threads[t] == Finished
    requires forall c | c in Play(cfg, run).value.conns :: ClosedInRun(run, c)
    ensures
      var s := Play(cfg, run).value;
      && (forall c | c in s.conns :: s.conns[c].releases == 1)
      && s.sem == 0 && s.concurrent == 0 && s.waiting == 0
  {
    var s := Play(cfg, run).value;
    InvRun(cfg, run);
    forall c | c in s.conns ensures s.conns[c].releases == 1 {
      var k :| 0 <= k < |run| && run[k].BeginConnClose? && run[k].c == c;
      ConnCloseSeen(cfg, run, k);
      OnceRun(cfg, run, c);
      assert ConnSound(s.conns[c]);
    }
    NoSlotLost(cfg, run);
  }
}
