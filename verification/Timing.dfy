/**
 Time bounds. A run is timely when the clock never passes an armed timer and never moves while the
 accept loop is between two awaits, a join is ready, a permit is pending, a broadcast is unseen or an
 aborted task has not ended yet.
 */
module Timing {
  import opened ByteStrings
  import opened Errors
  import opened Connection
  import opened Counting
  import opened Safety
  import opened Server
  import opened Shutdown

  // ----- Timely runs -----

  /** The accept loop waits, and its timer, if any, is not passed. */
  ghost predicate LoopWaits(s: State, now: nat) {
    match s.main.phase
    case Serving => true
    case Unready => false
    case Window(until) => now <= until
    case Broadcasting => false
    case Draining(until) =>
      && now <= until
      && s.main.joinSet != {}
      && forall id :: id in s.main.joinSet && id < |s.conns| ==> Live(s.conns[id])
    case Aborting => false
    case Returned => true
  }

  /** The connection task waits, and its timer is not passed. */
  ghost predicate TaskWaits(m: Main, task: Task, now: nat) {
    now <= task.deadline && (task.shuttingDown || (!task.permit && task.seen == m.channel.version))
  }

  ghost predicate MayAdvance(s: State, elapsed: nat) {
    var now := s.main.clock + elapsed;
    && LoopWaits(s, now)
    && forall id :: 0 <= id < |s.conns| && Live(s.conns[id]) ==> TaskWaits(s.main, s.conns[id].task, now)
  }

  ghost predicate IsTimely(cfg: Config, es: seq<Event>)
    decreases |es|
  {
    && IsRun(cfg, es)
    && (es != [] ==>
          && IsTimely(cfg, Front(es))
          && var e := es[|es| - 1];
             e.Tick? ==> MayAdvance(After(cfg, Front(es)), e.elapsed))
  }

  // ----- What timely runs keep -----

  function Min(a: nat, b: nat): nat {
    if a <= b then a else b
  }

  /** The last time by which the server has returned, once it took the signal. */
  function Latest(cfg: Config, m: Main): nat {
    m.signalAt + READINESS_DRAIN_WINDOW_MILLIS + Min(cfg.timeouts.graceful, cfg.drain)
  }

  ghost predicate LoopTimes(cfg: Config, m: Main) {
    match m.phase
    case Serving => true
    case Unready => m.clock == m.signalAt
    case Window(until) => m.clock <= until && until == m.signalAt + READINESS_DRAIN_WINDOW_MILLIS
    case Broadcasting => m.clock == m.stoppedAt == m.signalAt + READINESS_DRAIN_WINDOW_MILLIS
    case Draining(until) =>
      && m.stoppedAt == m.signalAt + READINESS_DRAIN_WINDOW_MILLIS
      && until == m.stoppedAt + cfg.drain
      && m.stoppedAt <= m.clock <= Latest(cfg, m)
    case Aborting => m.clock <= Latest(cfg, m)
    case Returned => true
  }

  /** The recorded times of a connection: `last` is the latest of its start and of every move of bytes. */
  ghost predicate PastInv(past: Past, clock: nat) {
    && past.started <= past.last <= clock
    && (past.last == past.started || past.last in past.moved)
    && (forall t :: t in past.moved ==> past.started <= t <= past.last)
  }

  /** No bytes moved strictly inside the idle timeout that ends at `t`. */
  ghost predicate QuietBefore(past: Past, idle: nat, t: nat) {
    past.started + idle <= t && forall a :: a in past.moved ==> a + idle <= t || t <= a
  }

  ghost predicate ConnTimes(cfg: Config, m: Main, c: Conn) {
    var idle, graceful := cfg.timeouts.idle, cfg.timeouts.graceful;
    && PastInv(c.past, m.clock)
    && (c.past.idleClosed.Some? ==>
          && c.task.shuttingDown
          && c.past.idleClosed.value <= m.clock
          && QuietBefore(c.past, idle, c.past.idleClosed.value))
    && (Live(c) ==> m.clock <= c.task.deadline)
    && (Live(c) && !c.task.shuttingDown ==>
          && (if c.task.permit then c.past.last == m.clock else c.task.deadline == c.past.last + idle)
          && c.past.started + idle <= c.task.deadline
          && (forall a :: a in c.past.moved ==> a + idle <= c.task.deadline || a == m.clock)
          && (m.phase.Draining? ==> m.clock == m.stoppedAt))
    && (Live(c) && c.task.shuttingDown ==>
          && c.task.deadline <= c.past.last + idle + graceful
          && (m.phase.Draining? ==> c.task.deadline <= m.stoppedAt + graceful)
          && (!m.phase.Draining? ==> c.task.deadline <= m.clock + graceful))
  }

  ghost predicate TimeInv(cfg: Config, s: State) {
    && LoopTimes(cfg, s.main)
    && forall id :: 0 <= id < |s.conns| ==> ConnTimes(cfg, s.main, s.conns[id])
  }

  // ----- Steps keep them -----

  /** The times of a connection outlive a step of the accept loop at the same instant. */
  lemma ConnTimesSurvive(cfg: Config, m: Main, n: Main, c: Conn)
    requires ConnTimes(cfg, m, c) && n.clock == m.clock
    requires m.phase.Draining? ==> m.stoppedAt <= m.clock
    requires n.phase.Draining? ==> n.stoppedAt == if m.phase.Draining? then m.stoppedAt else m.clock
    ensures ConnTimes(cfg, n, c)
  {
  }

  /** The accept loop's own times, and what the connections need of them. */
  lemma LoopTimesStep(cfg: Config, s: State, e: Event)
    requires Enabled(s, e) && MainInv(s.main) && LoopTimes(cfg, s.main)
    requires !OfConnection(e) && !OfRequest(e) && !e.Tick?
    ensures var m, n := s.main, LoopStep(cfg, s, e).main;
            && LoopTimes(cfg, n)
            && n.clock == m.clock
            && (m.phase.Draining? ==> m.stoppedAt <= m.clock)
            && (n.phase.Draining? ==> n.stoppedAt == if m.phase.Draining? then m.stoppedAt else m.clock)
  {
  }

  lemma NewConnTimes(cfg: Config, m: Main)
    requires !m.phase.Draining?
    ensures ConnTimes(cfg, m, NewConn(m, cfg.timeouts))
  {
  }

  /** A step of the accept loop admits one connection, or leaves every task and its past alone. */
  lemma LoopStepConns(cfg: Config, s: State, e: Event)
    requires Enabled(s, e) && !OfConnection(e) && !OfRequest(e)
    ensures var conns := LoopStep(cfg, s, e).conns;
            && (e.AcceptOk? ==> conns == s.conns + [NewConn(s.main, cfg.timeouts)] && !s.main.phase.Draining?)
            && (!e.AcceptOk? ==>
                  && |conns| == |s.conns|
                  && forall id :: 0 <= id < |conns| ==> conns[id] == s.conns[id].(aborted := conns[id].aborted))
  {
  }

  lemma LoopStepKeepsTimes(cfg: Config, s: State, e: Event)
    requires Enabled(s, e) && Inv(s) && TimeInv(cfg, s)
    requires !OfConnection(e) && !OfRequest(e) && !e.Tick?
    ensures TimeInv(cfg, LoopStep(cfg, s, e))
  {
    var t := LoopStep(cfg, s, e);
    LoopTimesStep(cfg, s, e);
    LoopStepConns(cfg, s, e);
    hide LoopStep, LoopTimes, ConnTimes, Enabled, ConnsInv, LedgerInv, RefusalInv;
    forall id | 0 <= id < |t.conns| ensures ConnTimes(cfg, t.main, t.conns[id]) {
      if id < |s.conns| {
        ConnTimesSurvive(cfg, s.main, t.main, s.conns[id]);
        SameTimes(cfg, t.main, s.conns[id], t.conns[id].aborted);
      } else {
        NewConnTimes(cfg, s.main);
        ConnTimesSurvive(cfg, s.main, t.main, t.conns[id]);
      }
    }
  }

  lemma SameTimes(cfg: Config, m: Main, c: Conn, aborted: bool)
    requires ConnTimes(cfg, m, c)
    ensures ConnTimes(cfg, m, c.(aborted := aborted))
  {
  }

  lemma TickKeepsTimes(cfg: Config, s: State, elapsed: nat)
    requires Inv(s) && TimeInv(cfg, s) && MayAdvance(s, elapsed)
    ensures TimeInv(cfg, LoopStep(cfg, s, Tick(elapsed)))
  {
    var t := LoopStep(cfg, s, Tick(elapsed));
    forall id | 0 <= id < |s.conns| ensures ConnTimes(cfg, t.main, s.conns[id]) {
      assert ConnTimes(cfg, s.main, s.conns[id]);
      assert ConnInv(s.main, id, s.conns[id]);
      assert Live(s.conns[id]) ==> TaskWaits(s.main, s.conns[id].task, t.main.clock);
    }
    if s.main.phase.Draining? {
      var id :| id in s.main.joinSet;
      assert ConnInv(s.main, id, s.conns[id]);
      assert ConnTimes(cfg, s.main, s.conns[id]);
      assert TaskWaits(s.main, s.conns[id].task, t.main.clock);
    }
  }

  lemma ReplaceKeepsTimes(cfg: Config, s: State, id: nat, c: Conn)
    requires TimeInv(cfg, s) && id < |s.conns| && ConnTimes(cfg, s.main, c)
    ensures TimeInv(cfg, Replace(s, id, c))
  {
    var t := Replace(s, id, c);
    forall k | 0 <= k < |s.conns| ensures ConnTimes(cfg, t.main, t.conns[k]) {
      assert ConnTimes(cfg, s.main, if k == id then c else s.conns[k]);
    }
  }

  lemma ConnectionStepKeepsTimes(cfg: Config, s: State, e: Event)
    requires Enabled(s, e) && Inv(s) && TimeInv(cfg, s) && OfConnection(e)
    ensures TimeInv(cfg, ConnectionStep(cfg, s, e))
  {
    var c := s.conns[e.id];
    assert ConnTimes(cfg, s.main, c);
    match e {
      case Io(id, bytes) =>
        MoveKeepsTimes(cfg, s.main, c, bytes);
        ReplaceKeepsTimes(cfg, s, id, Moved(c, s.main.clock, bytes));
      case LoopArm(id, arm) =>
        IterationKeepsTimes(cfg, s.main, c, arm);
        ReplaceKeepsTimes(cfg, s, id, Iterated(c, arm, s.main, cfg.timeouts));
      case AbortEnd(id) =>
        ReplaceKeepsTimes(cfg, s, id, c.(task := c.task.(finished := true)));
    }
  }

  lemma MoveKeepsTimes(cfg: Config, m: Main, c: Conn, bytes: nat)
    requires ConnTimes(cfg, m, c) && Live(c)
    ensures ConnTimes(cfg, m, Moved(c, m.clock, bytes))
  {
  }

  lemma IterationKeepsTimes(cfg: Config, m: Main, c: Conn, arm: Arm)
    requires ConnTimes(cfg, m, c) && ArmReady(c.task, arm, m.clock, m.channel)
    requires MainInv(m) && LoopTimes(cfg, m)
    ensures ConnTimes(cfg, m, Iterated(c, arm, m, cfg.timeouts))
  {
  }

  lemma StepKeepsTimes(cfg: Config, s: State, e: Event)
    requires Enabled(s, e) && Inv(s) && TimeInv(cfg, s)
    requires e.Tick? ==> MayAdvance(s, e.elapsed)
    ensures TimeInv(cfg, Step(cfg, s, e))
  {
    if OfConnection(e) {
      ConnectionStepKeepsTimes(cfg, s, e);
    } else if OfRequest(e) {
      StepFrame(cfg, s, e);
    } else if e.Tick? {
      TickKeepsTimes(cfg, s, e.elapsed);
    } else {
      LoopStepKeepsTimes(cfg, s, e);
    }
  }

  lemma TimeAtStart(cfg: Config)
    ensures TimeInv(cfg, Init())
  {
  }

  lemma {:induction false} AlwaysTimely(cfg: Config, es: seq<Event>)
    requires IsTimely(cfg, es)
    ensures TimeInv(cfg, After(cfg, es))
    decreases |es|
  {
    hide Step, Inv, TimeInv, Enabled, MayAdvance;
    if es == [] {
      TimeAtStart(cfg);
    } else {
      AlwaysTimely(cfg, Front(es));
      Always(cfg, Front(es));
      StepKeepsTimes(cfg, After(cfg, Front(es)), es[|es| - 1]);
    }
  }

  // ----- The bounds -----

  /**
   Shutdown time: in every timely run whose signal arm is taken at time S, a state in which the server
   has not returned has a clock of at most S + 250 + min(graceful, drain), for any number of
   connections in any condition.
   */
  lemma ShutdownBound(cfg: Config, es: seq<Event>, i: nat)
    requires IsTimely(cfg, es) && i < |es| && es[i].SignalArm?
    ensures IsRun(cfg, es[..i])
    ensures !After(cfg, es).main.phase.Returned? ==>
              After(cfg, es).main.clock
              <= After(cfg, es[..i]).main.clock + 250 + Min(cfg.timeouts.graceful, cfg.drain)
  {
    RunStep(cfg, es, i);
    RunIsLater(cfg, es, i + 1, |es|);
    assert es[..|es|] == es;
    AlwaysTimely(cfg, es);
  }

  // ----- Activity as the run shows it -----

  /** The times at which bytes moved on a connection, read off the run. */
  ghost function Moves(cfg: Config, es: seq<Event>, id: nat): set<nat>
    requires IsRun(cfg, es)
    decreases |es|
  {
    if es == [] then {}
    else
      var e := es[|es| - 1];
      Moves(cfg, Front(es), id) + if e.Io? && e.id == id && e.bytes > 0 then {After(cfg, Front(es)).main.clock} else {}
  }

  /** The time at which a connection was accepted, read off the run. */
  ghost function StartOf(cfg: Config, es: seq<Event>, id: nat): nat
    requires IsRun(cfg, es)
    decreases |es|
  {
    if es == [] then 0
    else
      var s := After(cfg, Front(es));
      if es[|es| - 1].AcceptOk? && |s.conns| == id then s.main.clock else StartOf(cfg, Front(es), id)
  }

  /** `t` is the last time at which the connection started or moved bytes. */
  ghost predicate IsLastActivity(cfg: Config, es: seq<Event>, id: nat, t: nat)
    requires IsRun(cfg, es)
  {
    && (t == StartOf(cfg, es, id) || t in Moves(cfg, es, id))
    && StartOf(cfg, es, id) <= t
    && forall a :: a in Moves(cfg, es, id) ==> a <= t
  }

  lemma HistoryStep(cfg: Config, s: State, e: Event, id: nat)
    requires Enabled(s, e)
    ensures var t := Step(cfg, s, e);
            && |s.conns| <= |t.conns|
            && (id < |t.conns| && id >= |s.conns| ==>
                  && e.AcceptOk? && id == |s.conns|
                  && t.conns[id].past.moved == {} && t.conns[id].past.started == s.main.clock)
            && (id < |s.conns| ==>
                  && t.conns[id].past.started == s.conns[id].past.started
                  && t.conns[id].past.moved == s.conns[id].past.moved
                     + if e.Io? && e.id == id && e.bytes > 0 then {s.main.clock} else {})
            && (e.Io? ==> e.id < |s.conns|)
  {
    if OfConnection(e) || OfRequest(e) {
      StepFrame(cfg, s, e);
      if OfConnection(e) {
        assert Step(cfg, s, e) == ConnectionStep(cfg, s, e);
      }
    } else {
      assert Step(cfg, s, e) == LoopStep(cfg, s, e);
    }
  }

  /** The recorded history of a connection is what the run shows. */
  lemma {:induction false} HistoryIsExact(cfg: Config, es: seq<Event>, id: nat)
    requires IsRun(cfg, es)
    ensures id < |After(cfg, es).conns| ==>
              && After(cfg, es).conns[id].past.moved == Moves(cfg, es, id)
              && After(cfg, es).conns[id].past.started == StartOf(cfg, es, id)
    ensures id >= |After(cfg, es).conns| ==> Moves(cfg, es, id) == {}
    decreases |es|
  {
    hide Step, Enabled;
    if es != [] {
      HistoryIsExact(cfg, Front(es), id);
      HistoryStep(cfg, After(cfg, Front(es)), es[|es| - 1], id);
    }
  }

  lemma TimesOf(cfg: Config, es: seq<Event>, id: nat)
    requires IsTimely(cfg, es) && id < |After(cfg, es).conns|
    ensures ConnTimes(cfg, After(cfg, es).main, After(cfg, es).conns[id])
    ensures IsLastActivity(cfg, es, id, After(cfg, es).conns[id].past.last)
  {
    hide Step, Inv;
    AlwaysTimely(cfg, es);
    HistoryIsExact(cfg, es, id);
  }

  /** Connection lifetime: a connection whose last activity is at `t` is finished by `t` + idle + graceful. */
  lemma LifetimeBound(cfg: Config, es: seq<Event>, id: nat, t: nat)
    requires IsTimely(cfg, es) && id < |After(cfg, es).conns| && IsLastActivity(cfg, es, id, t)
    ensures After(cfg, es).main.clock > t + cfg.timeouts.idle + cfg.timeouts.graceful ==>
              After(cfg, es).conns[id].task.finished
  {
    hide Step, Inv, IsTimely, Moves, StartOf;
    TimesOf(cfg, es, id);
  }

  /**
   Exact idleness from a lossy trigger: while a connection is not closing and has no permit pending,
   its deadline is the idle timeout after its last activity, however many moves had to share one
   permit; with a permit pending, the last activity is at this very instant; either way the idle
   timeout since the last activity has not been exceeded.
   */
  lemma ExactIdleness(cfg: Config, es: seq<Event>, id: nat, t: nat)
    requires IsTimely(cfg, es) && id < |After(cfg, es).conns| && IsLastActivity(cfg, es, id, t)
    requires Live(After(cfg, es).conns[id]) && !After(cfg, es).conns[id].task.shuttingDown
    ensures var task := After(cfg, es).conns[id].task;
            && (if task.permit then t == After(cfg, es).main.clock else task.deadline == t + cfg.timeouts.idle)
            && After(cfg, es).main.clock <= t + cfg.timeouts.idle
  {
    hide Step, Inv, IsTimely, Moves, StartOf;
    TimesOf(cfg, es, id);
  }

  lemma IdleCloseIsRecorded(cfg: Config, s: State, id: nat)
    requires Enabled(s, LoopArm(id, DeadlineReached)) && !s.conns[id].task.shuttingDown
    ensures Step(cfg, s, LoopArm(id, DeadlineReached)).conns[id].past.idleClosed == Some(s.main.clock)
    ensures Step(cfg, s, LoopArm(id, DeadlineReached)).conns[id].task.shuttingDown
  {
  }

  /**
   An idle close at `t` is justified: the connection started no later than `t` - idle, and no bytes
   moved strictly between `t` - idle and `t`, whatever moves before or after.
   */
  lemma IdleCloseIsJustified(cfg: Config, es: seq<Event>, i: nat, id: nat)
    requires IsTimely(cfg, es) && i < |es| && es[i] == LoopArm(id, DeadlineReached)
    requires IsRun(cfg, es[..i]) && id < |After(cfg, es[..i]).conns| && !After(cfg, es[..i]).conns[id].task.shuttingDown
    ensures var t := After(cfg, es[..i]).main.clock;
            && StartOf(cfg, es, id) + cfg.timeouts.idle <= t
            && forall a :: a in Moves(cfg, es, id) ==> !(t < a + cfg.timeouts.idle && a < t)
  {
    RunStep(cfg, es, i);
    IdleCloseIsRecorded(cfg, After(cfg, es[..i]), id);
    hide Step, Inv, Moves, StartOf;
    RunIsLater(cfg, es, i + 1, |es|);
    assert es[..|es|] == es;
    assert ConnLater(After(cfg, es[..i + 1]).conns[id], After(cfg, es).conns[id]);
    TimesOf(cfg, es, id);
    HistoryIsExact(cfg, es, id);
  }

  // ----- Timely runs exist, and reach the bound -----

  /** A timely run goes on with any enabled event, and with a tick that may pass. */
  lemma Extend(cfg: Config, es: seq<Event>, e: Event)
    requires IsTimely(cfg, es) && Enabled(After(cfg, es), e)
    requires e.Tick? ==> MayAdvance(After(cfg, es), e.elapsed)
    ensures IsTimely(cfg, es + [e]) && After(cfg, es + [e]) == Step(cfg, After(cfg, es), e)
  {
    assert Front(es + [e]) == es;
  }

  /** The steps that the server takes by itself: not the signal, the clock, a peer, or an end of its own accord. */
  predicate Urgent(e: Event) {
    && !e.SignalArm? && !e.Tick? && !e.Io? && !e.AcceptOk? && !e.AcceptErr? && !OfRequest(e)
    && !(e.LoopArm? && e.arm.ConnectionDone?)
  }

  ghost predicate HasUrgent(s: State) {
    exists e :: Urgent(e) && Enabled(s, e)
  }

  lemma Pressing(s: State, e: Event)
    requires Urgent(e) && Enabled(s, e)
    ensures HasUrgent(s)
  {
  }

  /**
   Time is never stuck: in every timely run, when even one more millisecond may not pass, the server
   itself has a step to take, without help from a peer.
   */
  lemma TimeIsNeverStuck(cfg: Config, es: seq<Event>)
    requires IsTimely(cfg, es) && !MayAdvance(After(cfg, es), 1)
    ensures HasUrgent(After(cfg, es))
  {
    hide Step, Inv;
    AlwaysTimely(cfg, es);
    Always(cfg, es);
    var s := After(cfg, es);
    if !LoopWaits(s, s.main.clock + 1) {
      LoopHasUrgent(cfg, s);
    } else {
      var id :| 0 <= id < |s.conns| && Live(s.conns[id]) && !TaskWaits(s.main, s.conns[id].task, s.main.clock + 1);
      assert ConnTimes(cfg, s.main, s.conns[id]);
      TaskHasUrgent(s, id);
    }
  }

  lemma TaskHasUrgent(s: State, id: nat)
    requires id < |s.conns| && Live(s.conns[id]) && s.main.clock <= s.conns[id].task.deadline
    requires !TaskWaits(s.main, s.conns[id].task, s.main.clock + 1)
    ensures HasUrgent(s)
  {
    var task := s.conns[id].task;
    if task.deadline == s.main.clock {
      Pressing(s, LoopArm(id, DeadlineReached));
    } else if task.permit {
      Pressing(s, LoopArm(id, ActivityNotified));
    } else {
      Pressing(s, LoopArm(id, ShutdownChanged));
    }
  }

  lemma LoopHasUrgent(cfg: Config, s: State)
    requires Inv(s) && TimeInv(cfg, s) && !LoopWaits(s, s.main.clock + 1)
    ensures HasUrgent(s)
  {
    match s.main.phase {
      case Unready => Pressing(s, StoreShuttingDown);
      case Window(_) => Pressing(s, WindowArm);
      case Broadcasting => Pressing(s, Send);
      case Draining(_) => FirstDrainHasUrgent(s);
      case Aborting => SecondDrainHasUrgent(s);
      case _ =>
    }
  }

  lemma FirstDrainHasUrgent(s: State)
    requires s.main.phase.Draining? && !LoopWaits(s, s.main.clock + 1)
    ensures HasUrgent(s)
  {
    if s.main.joinSet == {} {
      Pressing(s, DrainDone);
    } else if s.main.phase.until <= s.main.clock {
      Pressing(s, DrainTimeout);
    } else {
      var id :| id in s.main.joinSet && id < |s.conns| && !Live(s.conns[id]);
      Pressing(s, Join(id));
    }
  }

  lemma SecondDrainHasUrgent(s: State)
    requires ConnsInv(s.main, s.conns) && s.main.phase.Aborting?
    ensures HasUrgent(s)
  {
    if s.main.joinSet == {} {
      Pressing(s, DrainDone);
    } else {
      var id :| id in s.main.joinSet;
      assert ConnInv(s.main, id, s.conns[id]);
      if Live(s.conns[id]) {
        Pressing(s, AbortEnd(id));
      } else {
        Pressing(s, Join(id));
      }
    }
  }

  // ----- Urgent steps run out -----

  predicate Unwarned(c: Conn) {
    Live(c) && !c.task.shuttingDown
  }

  predicate Notified(c: Conn) {
    Unwarned(c) && c.task.permit
  }

  /** A bound on the steps that the server can take without the clock, the signal or a peer. */
  ghost function UrgentWork(s: State): nat {
    Count(s.conns, Live) + Count(s.conns, Unwarned) + Count(s.conns, Notified)
    + |s.main.joinSet| + (6 - Rank(s.main.phase))
  }

  /** What one connection adds to that bound. */
  function ConnWork(c: Conn): nat {
    (if Live(c) then 1 else 0) + (if Unwarned(c) then 1 else 0) + (if Notified(c) then 1 else 0)
  }

  lemma WorkUpdate(s: State, t: State, id: nat, c: Conn)
    requires id < |s.conns| && t.conns == s.conns[id := c] && t.main == s.main.(receivers := t.main.receivers)
    ensures UrgentWork(t) + ConnWork(s.conns[id]) == UrgentWork(s) + ConnWork(c)
  {
    CountUpdate(s.conns, id, c, Live);
    CountUpdate(s.conns, id, c, Unwarned);
    CountUpdate(s.conns, id, c, Notified);
  }

  lemma UrgentArm(cfg: Config, s: State, id: nat, arm: Arm)
    requires Inv(s) && Enabled(s, LoopArm(id, arm)) && !arm.ConnectionDone?
    ensures ConnWork(Iterated(s.conns[id], arm, s.main, cfg.timeouts)) < ConnWork(s.conns[id])
  {
    assert ConnInv(s.main, id, s.conns[id]);
  }

  lemma UrgentTaskStepWorks(cfg: Config, s: State, e: Event)
    requires Inv(s) && Urgent(e) && Enabled(s, e) && OfConnection(e)
    ensures UrgentWork(Step(cfg, s, e)) < UrgentWork(s)
  {
    var c := ConnectionStep(cfg, s, e).conns[e.id];
    StepFrame(cfg, s, e);
    WorkUpdate(s, Step(cfg, s, e), e.id, c);
    assert ConnWork(c) < ConnWork(s.conns[e.id]) by {
      if e.LoopArm? {
        UrgentArm(cfg, s, e.id, e.arm);
      }
    }
    hide UrgentWork, ConnWork, Inv;
  }

  lemma UrgentLoopStepWorks(cfg: Config, s: State, e: Event)
    requires Urgent(e) && Enabled(s, e) && !OfConnection(e)
    ensures UrgentWork(LoopStep(cfg, s, e)) < UrgentWork(s)
  {
    if e.Join? {
      RemoveOne(s.main.joinSet, e.id);
    } else if e.DrainTimeout? {
      var conns := AbortAll(s.conns, s.main.joinSet);
      CountSame(s.conns, conns, Live);
      CountSame(s.conns, conns, Unwarned);
      CountSame(s.conns, conns, Notified);
    }
  }

  /** Every urgent step takes work away. */
  lemma UrgentStepWorks(cfg: Config, s: State, e: Event)
    requires Inv(s) && Urgent(e) && Enabled(s, e)
    ensures UrgentWork(Step(cfg, s, e)) < UrgentWork(s)
  {
    hide UrgentWork, Enabled;
    if OfConnection(e) {
      UrgentTaskStepWorks(cfg, s, e);
    } else {
      UrgentLoopStepWorks(cfg, s, e);
    }
  }

  ghost predicate AllUrgent(es: seq<Event>) {
    forall e :: e in es ==> Urgent(e)
  }

  /** However urgent steps follow one another, there are at most as many as there was work. */
  lemma {:induction false} UrgentStepsRunOut(cfg: Config, es: seq<Event>, urgent: seq<Event>)
    requires IsRun(cfg, es + urgent) && AllUrgent(urgent)
    ensures IsRun(cfg, es)
    ensures |urgent| + UrgentWork(After(cfg, es + urgent)) <= UrgentWork(After(cfg, es))
    decreases |urgent|
  {
    hide Step, Inv, UrgentWork, Urgent, Enabled;
    if urgent == [] {
      assert es + urgent == es;
    } else {
      var front, last := Front(urgent), urgent[|urgent| - 1];
      assert Front(es + urgent) == es + front;
      UrgentStepsRunOut(cfg, es, front);
      Always(cfg, es + front);
      UrgentStepWorks(cfg, After(cfg, es + front), last);
    }
  }

  lemma UrgentExtends(cfg: Config, es: seq<Event>, e: Event)
    requires IsTimely(cfg, es) && Urgent(e) && Enabled(After(cfg, es), e)
    ensures IsTimely(cfg, es + [e])
    ensures UrgentWork(After(cfg, es + [e])) < UrgentWork(After(cfg, es))
    ensures After(cfg, es).main.clock == After(cfg, es + [e]).main.clock
  {
    Extend(cfg, es, e);
    Always(cfg, es);
    UrgentStepWorks(cfg, After(cfg, es), e);
    UrgentKeepsClock(cfg, After(cfg, es), e);
  }

  lemma UrgentKeepsClock(cfg: Config, s: State, e: Event)
    requires Urgent(e) && Enabled(s, e)
    ensures Step(cfg, s, e).main.clock == s.main.clock
  {
    if OfConnection(e) {
      StepFrame(cfg, s, e);
    } else {
      assert Step(cfg, s, e) == LoopStep(cfg, s, e);
    }
  }

  /** While time may not pass, the server takes a step that leaves it less to do. */
  lemma UrgentNext(cfg: Config, es: seq<Event>) returns (e: Event)
    requires IsTimely(cfg, es) && !MayAdvance(After(cfg, es), 1)
    ensures Urgent(e) && IsTimely(cfg, es + [e])
    ensures UrgentWork(After(cfg, es + [e])) < UrgentWork(After(cfg, es))
    ensures After(cfg, es).main.clock == After(cfg, es + [e]).main.clock
  {
    hide Step, Inv, UrgentWork, Urgent, MayAdvance, Enabled;
    TimeIsNeverStuck(cfg, es);
    e :| Urgent(e) && Enabled(After(cfg, es), e);
    UrgentExtends(cfg, es, e);
  }

  /**
   Time goes on: every timely run can be continued, by urgent steps of the server alone and by at most
   as many as there is work, to a state in which time may pass, and then it does.
   */
  lemma {:induction false} TimeGoesOn(cfg: Config, es: seq<Event>) returns (urgent: seq<Event>)
    requires IsTimely(cfg, es)
    ensures IsTimely(cfg, es + urgent) && AllUrgent(urgent)
    ensures |urgent| <= UrgentWork(After(cfg, es))
    ensures MayAdvance(After(cfg, es + urgent), 1)
    ensures IsTimely(cfg, es + urgent + [Tick(1)])
    ensures After(cfg, es + urgent + [Tick(1)]).main.clock == After(cfg, es).main.clock + 1
    decreases UrgentWork(After(cfg, es))
  {
    hide Step, Inv, UrgentWork, Urgent, MayAdvance;
    if MayAdvance(After(cfg, es), 1) {
      urgent := [];
      assert es + urgent == es;
      Extend(cfg, es, Tick(1));
      TickKeepsPhase(cfg, After(cfg, es));
    } else {
      var e := UrgentNext(cfg, es);
      var rest := TimeGoesOn(cfg, es + [e]);
      urgent := [e] + rest;
      assert es + urgent == es + [e] + rest;
    }
  }

  /** The latest time of a shutdown whose signal arm is event `i`. */
  ghost function ShutdownLimit(cfg: Config, es: seq<Event>, i: nat): nat
    requires IsRun(cfg, es) && i <= |es|
  {
    PrefixIsRun(cfg, es, i);
    After(cfg, es[..i]).main.clock + 250 + Min(cfg.timeouts.graceful, cfg.drain)
  }

  /**
   Shutdown completes: after the signal, whatever has happened since, the passing of time and urgent
   steps of the server alone make it return, within the shutdown bound, without help from any peer.
   */
  lemma {:induction false} ShutdownCompletes(cfg: Config, es: seq<Event>, i: nat) returns (rest: seq<Event>)
    requires IsTimely(cfg, es) && i < |es| && es[i].SignalArm?
    ensures IsTimely(cfg, es + rest) && forall e :: e in rest ==> Urgent(e) || e == Tick(1)
    ensures After(cfg, es + rest).main.phase.Returned?
    ensures After(cfg, es).main.phase.Returned? ==> rest == []
    ensures !After(cfg, es).main.phase.Returned? ==> After(cfg, es + rest).main.clock <= ShutdownLimit(cfg, es, i)
    decreases if After(cfg, es).main.phase.Returned? then 0
              else 1 + ShutdownLimit(cfg, es, i) - After(cfg, es).main.clock,
              UrgentWork(After(cfg, es))
  {
    hide Step, Inv, UrgentWork, Urgent, Enabled, MayAdvance, HasUrgent;
    ShutdownBound(cfg, es, i);
    if After(cfg, es).main.phase.Returned? {
      rest := [];
      assert es + rest == es;
    } else {
      var e := NextStep(cfg, es);
      var longer := es + [e];
      assert longer[..i] == es[..i];
      ShutdownBound(cfg, longer, i);
      var more := ShutdownCompletes(cfg, longer, i);
      rest := [e] + more;
      assert es + rest == longer + more;
      assert more == [] ==> es + rest == longer;
    }
  }

  /** A step towards the end: an urgent one, or else the clock's. */
  lemma NextStep(cfg: Config, es: seq<Event>) returns (e: Event)
    requires IsTimely(cfg, es)
    ensures Urgent(e) || e == Tick(1)
    ensures IsTimely(cfg, es + [e])
    ensures var s, t := After(cfg, es), After(cfg, es + [e]);
            || (t.main.clock == s.main.clock && UrgentWork(t) < UrgentWork(s))
            || (t.main.clock == s.main.clock + 1 && t.main.phase == s.main.phase)
  {
    hide Step, Inv, UrgentWork, Urgent, MayAdvance;
    if MayAdvance(After(cfg, es), 1) {
      e := Tick(1);
      Extend(cfg, es, e);
      TickKeepsPhase(cfg, After(cfg, es));
    } else {
      e := UrgentNext(cfg, es);
    }
  }

  /** At the bound the server has returned, or has a step of its own to take at once. */
  lemma NothingLeftAtTheBound(cfg: Config, es: seq<Event>, i: nat)
    requires IsTimely(cfg, es) && i < |es| && es[i].SignalArm?
    ensures IsRun(cfg, es[..i])
    ensures After(cfg, es).main.clock
            == After(cfg, es[..i]).main.clock + 250 + Min(cfg.timeouts.graceful, cfg.drain)
            ==> After(cfg, es).main.phase.Returned? || HasUrgent(After(cfg, es))
  {
    PrefixIsRun(cfg, es, i);
    if !HasUrgent(After(cfg, es)) {
      if !MayAdvance(After(cfg, es), 1) {
        TimeIsNeverStuck(cfg, es);
      }
      Extend(cfg, es, Tick(1));
      var later := es + [Tick(1)];
      assert later[..i] == es[..i];
      TickKeepsPhase(cfg, After(cfg, es));
      hide Step, HasUrgent, MayAdvance;
      ShutdownBound(cfg, later, i);
    }
  }

  lemma TickKeepsPhase(cfg: Config, s: State)
    ensures Step(cfg, s, Tick(1)).main == s.main.(clock := s.main.clock + 1)
  {
  }

  /** The state of the slowest run in its different phases. */
  function SlowState(clock: nat, phase: Phase, version: nat, stoppedAt: nat, task: Task): State {
    var window := READINESS_DRAIN_WINDOW_MILLIS;
    State(
      Main(clock, phase, false, true, Channel(version, version == 1, true), 1, {0}, false, 0, stoppedAt),
      [Conn(task, false, Past(window, window, {}, None))],
      Ledger([], 0, 0, 0, false))
  }

  function BareState(clock: nat, phase: Phase): State {
    State(Main(clock, phase, false, !phase.Unready?, Channel(0, false, true), 0, {}, false, 0, 0),
          [], Ledger([], 0, 0, 0, false))
  }

  /** Takes one step of a timely run, from a known state to a known state. */
  lemma Go(cfg: Config, es: seq<Event>, e: Event, s: State, t: State) returns (next: seq<Event>)
    requires IsTimely(cfg, es) && After(cfg, es) == s
    requires Enabled(s, e) && Step(cfg, s, e) == t
    requires e.Tick? ==> MayAdvance(s, e.elapsed)
    ensures IsTimely(cfg, next) && After(cfg, next) == t
  {
    Extend(cfg, es, e);
    next := es + [e];
  }

  lemma SlowSignal(cfg: Config) returns (es: seq<Event>)
    ensures IsTimely(cfg, es)
    ensures After(cfg, es) == BareState(READINESS_DRAIN_WINDOW_MILLIS, Window(READINESS_DRAIN_WINDOW_MILLIS))
  {
    var window := READINESS_DRAIN_WINDOW_MILLIS;
    es := Go(cfg, [], SignalArm, Init(), BareState(0, Unready));
    es := Go(cfg, es, StoreShuttingDown, BareState(0, Unready), BareState(0, Window(window)));
    es := Go(cfg, es, Tick(window), BareState(0, Window(window)), BareState(window, Window(window)));
  }

  lemma SlowAdmission(cfg: Config)
    ensures var window := READINESS_DRAIN_WINDOW_MILLIS;
            LoopStep(cfg, BareState(window, Window(window)), AcceptOk)
            == SlowState(window, Window(window), 0, 0, Task(window + cfg.timeouts.idle, false, false, 0, 0, false))
  {
    var window := READINESS_DRAIN_WINDOW_MILLIS;
    var s := BareState(window, Window(window));
    assert s.conns + [NewConn(s.main, cfg.timeouts)] == [NewConn(s.main, cfg.timeouts)];
    assert s.main.joinSet + {0} == {0};
  }

  lemma SlowAccept(cfg: Config) returns (es: seq<Event>)
    ensures IsTimely(cfg, es)
    ensures var window := READINESS_DRAIN_WINDOW_MILLIS;
            After(cfg, es) == SlowState(window, Broadcasting, 0, window,
                                        Task(window + cfg.timeouts.idle, false, false, 0, 0, false))
  {
    var window := READINESS_DRAIN_WINDOW_MILLIS;
    var started := Task(window + cfg.timeouts.idle, false, false, 0, 0, false);
    es := SlowSignal(cfg);
    SlowAdmission(cfg);
    es := Go(cfg, es, AcceptOk, BareState(window, Window(window)), SlowState(window, Window(window), 0, 0, started));
    es := Go(cfg, es, WindowArm,
             SlowState(window, Window(window), 0, 0, started), SlowState(window, Broadcasting, 0, window, started));
  }

  lemma SlowSend(cfg: Config) returns (es: seq<Event>)
    ensures IsTimely(cfg, es)
    ensures var window := READINESS_DRAIN_WINDOW_MILLIS;
            After(cfg, es) == SlowState(window, Draining(window + cfg.drain), 1, window,
                                        Task(window + cfg.timeouts.idle, false, false, 0, 0, false))
  {
    var window := READINESS_DRAIN_WINDOW_MILLIS;
    var started := Task(window + cfg.timeouts.idle, false, false, 0, 0, false);
    es := SlowAccept(cfg);
    es := Go(cfg, es, Send, SlowState(window, Broadcasting, 0, window, started),
             SlowState(window, Draining(window + cfg.drain), 1, window, started));
  }

  lemma SlowIteration(cfg: Config, c: Conn, m: Main)
    requires !c.task.finished && !c.task.shuttingDown && c.task.seen == 0 && m.channel == Channel(1, true, true)
    ensures ArmReady(c.task, ShutdownChanged, m.clock, m.channel)
    ensures var next := Iterated(c, ShutdownChanged, m, cfg.timeouts);
            && !next.task.finished
            && next == c.(task := BeginClose(c.task.(seen := 1), m.clock, cfg.timeouts))
  {
  }

  lemma SlowWarning(cfg: Config, s: State, c: Conn)
    requires s.conns == [c] && s.main.channel == Channel(1, true, true)
    requires !c.task.finished && !c.task.shuttingDown && c.task.seen == 0
    ensures Enabled(s, LoopArm(0, ShutdownChanged))
    ensures Step(cfg, s, LoopArm(0, ShutdownChanged))
         == s.(conns := [c.(task := BeginClose(c.task.(seen := 1), s.main.clock, cfg.timeouts))])
  {
    SlowIteration(cfg, c, s.main);
    hide Iterated, BeginClose, ArmReady;
    var next := Iterated(c, ShutdownChanged, s.main, cfg.timeouts);
    assert s.conns[0 := next] == [next];
  }

  lemma SlowClose(cfg: Config) returns (es: seq<Event>)
    ensures IsTimely(cfg, es)
    ensures var window := READINESS_DRAIN_WINDOW_MILLIS;
            After(cfg, es) == SlowState(window, Draining(window + cfg.drain), 1, window,
                                        Task(window + cfg.timeouts.graceful, true, false, 1, 1, false))
  {
    var window := READINESS_DRAIN_WINDOW_MILLIS;
    var draining := Draining(window + cfg.drain);
    var started := Task(window + cfg.timeouts.idle, false, false, 0, 0, false);
    var closing := Task(window + cfg.timeouts.graceful, true, false, 1, 1, false);
    hide Step, Enabled;
    es := SlowSend(cfg);
    var s := SlowState(window, draining, 1, window, started);
    SlowWarning(cfg, s, s.conns[0]);
    es := Go(cfg, es, LoopArm(0, ShutdownChanged),
             s, SlowState(window, draining, 1, window, closing));
  }

  /**
   The shutdown bound is exact: for all timeouts there is a timely run, with one connection accepted at
   the last instant, that reaches the bound without having returned.
   */
  lemma ShutdownBoundIsReached(cfg: Config) returns (es: seq<Event>, i: nat)
    ensures IsTimely(cfg, es) && i < |es| && es[i].SignalArm? && IsRun(cfg, es[..i])
    ensures !After(cfg, es).main.phase.Returned?
    ensures After(cfg, es).main.clock
         == After(cfg, es[..i]).main.clock + 250 + Min(cfg.timeouts.graceful, cfg.drain)
  {
    var window := READINESS_DRAIN_WINDOW_MILLIS;
    var draining := Draining(window + cfg.drain);
    var closing := Task(window + cfg.timeouts.graceful, true, false, 1, 1, false);
    var rest := Min(cfg.timeouts.graceful, cfg.drain);
    es := SlowClose(cfg);
    es := Go(cfg, es, Tick(rest),
             SlowState(window, draining, 1, window, closing), SlowState(window + rest, draining, 1, window, closing));
    i := SignalIsInRun(cfg, es);
  }
}
