/** Properties of whole runs, for every schedule: flags, the accept window, the broadcast, joins and requests. */
module Shutdown {
  import opened ByteStrings
  import opened Connection
  import opened Counting
  import opened Handler
  import opened Responses
  import opened Safety
  import opened Server

  // ----- What never goes back -----

  function Rank(p: Phase): nat {
    match p
    case Serving => 0
    case Unready => 1
    case Window(_) => 2
    case Broadcasting => 3
    case Draining(_) => 4
    case Aborting => 5
    case Returned => 6
  }

  ghost predicate MainLater(m: Main, n: Main) {
    && m.clock <= n.clock
    && Rank(m.phase) <= Rank(n.phase)
    && (m.phase.Window? && n.phase.Window? ==> m.phase == n.phase)
    && (!m.ready ==> !n.ready)
    && (m.shuttingDown ==> n.shuttingDown)
    && (Rank(m.phase) > 0 ==> n.signalAt == m.signalAt)
    && (Rank(m.phase) > 2 ==> n.stoppedAt == m.stoppedAt)
  }

  ghost predicate ConnLater(c: Conn, d: Conn) {
    && d.past.started == c.past.started
    && (c.task.shuttingDown ==> d.past.idleClosed == c.past.idleClosed)
    && (c.task.finished ==> d.task == c.task && d.past == c.past)
    && (c.task.shuttingDown ==>
          d.task.shuttingDown && d.task.deadline == c.task.deadline && d.task.closeRequests == c.task.closeRequests)
  }

  ghost predicate RequestLater(q: Request, r: Request) {
    && r.conn == q.conn && r.verb == q.verb && r.path == q.path && r.late == q.late
    && (q.stage.Counted? || q.stage.Cancelled? ==> r.stage == q.stage)
    && (q.stage.Answered? ==>
          || r.stage.Cancelled?
          || ((r.stage.Answered? || r.stage.Counted?) && r.stage.routed == q.stage.routed))
  }

  ghost predicate Later(s: State, t: State) {
    && MainLater(s.main, t.main)
    && |s.conns| <= |t.conns|
    && (forall id :: 0 <= id < |s.conns| ==> ConnLater(s.conns[id], t.conns[id]))
    && (s.ledger.refused ==> t.ledger.refused)
    && |s.ledger.requests| <= |t.ledger.requests|
    && (forall r :: 0 <= r < |s.ledger.requests| ==> RequestLater(s.ledger.requests[r], t.ledger.requests[r]))
    && (s.ledger.refused ==>
          forall r :: |s.ledger.requests| <= r < |t.ledger.requests| ==> t.ledger.requests[r].late)
  }

  /** Which parts of the state each kind of step leaves alone. */
  lemma StepFrame(cfg: Config, s: State, e: Event)
    requires Enabled(s, e)
    ensures var t := Step(cfg, s, e);
            && (OfConnection(e) ==> t.main == s.main.(receivers := t.main.receivers)
                                    && |t.conns| == |s.conns|
                                    && t.conns == s.conns[e.id := t.conns[e.id]])
            && (OfRequest(e) ==> t.main == s.main && t.conns == s.conns)
            && (!OfConnection(e) && !OfRequest(e) ==> t.ledger == s.ledger)
  {
  }

  lemma StepMainLater(cfg: Config, s: State, e: Event)
    requires Enabled(s, e)
    ensures MainLater(s.main, Step(cfg, s, e).main)
  {
    if OfConnection(e) || OfRequest(e) {
      StepFrame(cfg, s, e);
    } else {
      assert Step(cfg, s, e) == LoopStep(cfg, s, e);
    }
  }

  lemma StepConnsLater(cfg: Config, s: State, e: Event)
    requires Enabled(s, e)
    ensures |s.conns| <= |Step(cfg, s, e).conns|
    ensures forall id :: 0 <= id < |s.conns| ==> ConnLater(s.conns[id], Step(cfg, s, e).conns[id])
  {
    if OfConnection(e) || OfRequest(e) {
      StepFrame(cfg, s, e);
    } else {
      assert Step(cfg, s, e) == LoopStep(cfg, s, e);
    }
  }

  lemma StepLedgerLater(cfg: Config, s: State, e: Event)
    requires Enabled(s, e)
    ensures var l, k := s.ledger, Step(cfg, s, e).ledger;
            && (l.refused ==> k.refused)
            && |l.requests| <= |k.requests|
            && (forall r :: 0 <= r < |l.requests| ==> RequestLater(l.requests[r], k.requests[r]))
            && (forall r :: |l.requests| <= r < |k.requests| ==> k.requests[r].late == l.refused)
  {
    hide Route, Held, IsRefusal;
    if OfConnection(e) {
      DroppedPointwise(s.ledger.requests, e.id);
    } else if OfRequest(e) {
      assert Step(cfg, s, e) == RequestStep(s, e);
    } else {
      StepFrame(cfg, s, e);
    }
  }

  lemma StepIsLater(cfg: Config, s: State, e: Event)
    requires Enabled(s, e)
    ensures Later(s, Step(cfg, s, e))
  {
    StepMainLater(cfg, s, e);
    StepConnsLater(cfg, s, e);
    StepLedgerLater(cfg, s, e);
  }

  lemma LaterTransitive(s: State, t: State, u: State)
    requires Later(s, t) && Later(t, u)
    ensures Later(s, u)
  {
    forall id | 0 <= id < |s.conns| ensures ConnLater(s.conns[id], u.conns[id]) {
      assert ConnLater(s.conns[id], t.conns[id]) && ConnLater(t.conns[id], u.conns[id]);
    }
    forall r | 0 <= r < |s.ledger.requests| ensures RequestLater(s.ledger.requests[r], u.ledger.requests[r]) {
      assert RequestLater(s.ledger.requests[r], t.ledger.requests[r]);
      assert RequestLater(t.ledger.requests[r], u.ledger.requests[r]);
    }
    forall r | |s.ledger.requests| <= r < |u.ledger.requests| && s.ledger.refused
      ensures u.ledger.requests[r].late
    {
      if r < |t.ledger.requests| {
        assert RequestLater(t.ledger.requests[r], u.ledger.requests[r]);
      }
    }
  }

  lemma LaterReflexive(s: State)
    ensures Later(s, s)
  {
  }

  /** Every later state of a run is later in each of these respects. */
  lemma {:induction false} RunIsLater(cfg: Config, es: seq<Event>, i: nat, j: nat)
    requires IsRun(cfg, es) && i <= j <= |es|
    ensures IsRun(cfg, es[..i]) && IsRun(cfg, es[..j])
    ensures Later(After(cfg, es[..i]), After(cfg, es[..j]))
    decreases j
  {
    hide Step, Inv, Later;
    PrefixIsRun(cfg, es, i);
    PrefixIsRun(cfg, es, j);
    if i == j {
      LaterReflexive(After(cfg, es[..i]));
    } else {
      RunIsLater(cfg, es, i, j - 1);
      RunStep(cfg, es, j - 1);
      StepIsLater(cfg, After(cfg, es[..j - 1]), es[j - 1]);
      LaterTransitive(After(cfg, es[..i]), After(cfg, es[..j - 1]), After(cfg, es[..j]));
    }
  }

  // ----- The signal and the accept window -----

  /** From which phase to which the arms of the accept loop lead. */
  lemma ArmRanks(cfg: Config, s: State, e: Event)
    requires Enabled(s, e)
    ensures e.SignalArm? ==> Rank(s.main.phase) == 0 && Rank(Step(cfg, s, e).main.phase) == 1
    ensures e.SignalArm? ==> Step(cfg, s, e).main.signalAt == s.main.clock
    ensures e.WindowArm? ==> Rank(s.main.phase) == 2 && Rank(Step(cfg, s, e).main.phase) == 3
    ensures e.AcceptOk? || e.AcceptErr? ==> Rank(s.main.phase) == 0 || Rank(s.main.phase) == 2
  {
  }

  lemma MainIsLater(cfg: Config, es: seq<Event>, i: nat, j: nat)
    requires IsRun(cfg, es) && i <= j <= |es|
    ensures IsRun(cfg, es[..i]) && IsRun(cfg, es[..j])
    ensures MainLater(After(cfg, es[..i]).main, After(cfg, es[..j]).main)
  {
    hide Step, Enabled;
    RunIsLater(cfg, es, i, j);
  }

  /** The signal arm is taken at most once, and so is the window timer; no accept follows the timer. */
  lemma ArmsFireOnce(cfg: Config, es: seq<Event>, i: nat, j: nat)
    requires IsRun(cfg, es) && i < j < |es|
    ensures !(es[i].SignalArm? && es[j].SignalArm?)
    ensures !(es[i].WindowArm? && es[j].WindowArm?)
    ensures es[i].WindowArm? ==> !es[j].AcceptOk? && !es[j].AcceptErr?
  {
    hide Step, Enabled;
    RunStep(cfg, es, i);
    RunStep(cfg, es, j);
    ArmRanks(cfg, After(cfg, es[..i]), es[i]);
    ArmRanks(cfg, After(cfg, es[..j]), es[j]);
    MainIsLater(cfg, es, i + 1, j);
  }

  /** Only the signal arm leaves the first phase, and only the window timer ends accepting. */
  lemma PhaseSteps(cfg: Config, s: State, e: Event)
    requires Enabled(s, e)
    ensures var m, n := s.main, Step(cfg, s, e).main;
            && (!e.SignalArm? ==> n.signalAt == m.signalAt && (Rank(n.phase) > 0 ==> Rank(m.phase) > 0))
            && (!e.WindowArm? ==> n.stoppedAt == m.stoppedAt && (Rank(n.phase) > 2 ==> Rank(m.phase) > 2))
            && (e.SignalArm? ==> n.signalAt == m.clock)
            && (e.WindowArm? ==> n.stoppedAt == m.clock)
  {
    if OfConnection(e) || OfRequest(e) {
      StepFrame(cfg, s, e);
    } else {
      assert Step(cfg, s, e) == LoopStep(cfg, s, e);
    }
  }

  /** Once the signal has been taken, its one arm is in the run and its time is on record. */
  lemma {:induction false} SignalIsInRun(cfg: Config, es: seq<Event>) returns (i: nat)
    requires IsRun(cfg, es) && Rank(After(cfg, es).main.phase) > 0
    ensures i < |es| && es[i].SignalArm? && IsRun(cfg, es[..i])
    ensures After(cfg, es[..i]).main.clock == After(cfg, es).main.signalAt
    decreases |es|
  {
    hide Step;
    var last := |es| - 1;
    PhaseSteps(cfg, After(cfg, Front(es)), es[last]);
    if es[last].SignalArm? {
      i := last;
    } else {
      i := SignalIsInRun(cfg, Front(es));
      assert Front(es)[..i] == es[..i];
    }
  }

  /** Once accepting has stopped, the window timer fired in the run and its time is on record. */
  lemma {:induction false} WindowIsInRun(cfg: Config, es: seq<Event>) returns (j: nat)
    requires IsRun(cfg, es) && Rank(After(cfg, es).main.phase) > 2
    ensures j < |es| && es[j].WindowArm? && IsRun(cfg, es[..j])
    ensures After(cfg, es[..j]).main.clock == After(cfg, es).main.stoppedAt
    decreases |es|
  {
    hide Step;
    var last := |es| - 1;
    PhaseSteps(cfg, After(cfg, Front(es)), es[last]);
    if es[last].WindowArm? {
      j := last;
    } else {
      j := WindowIsInRun(cfg, Front(es));
      assert Front(es)[..j] == es[..j];
    }
  }

  ghost predicate WindowInv(m: Main) {
    && (Rank(m.phase) > 0 ==> m.signalAt <= m.clock)
    && (m.phase.Window? ==> m.signalAt + READINESS_DRAIN_WINDOW_MILLIS <= m.phase.until)
    && (Rank(m.phase) > 2 ==> m.signalAt + READINESS_DRAIN_WINDOW_MILLIS <= m.stoppedAt <= m.clock)
  }

  lemma WindowStep(cfg: Config, s: State, e: Event)
    requires Enabled(s, e) && WindowInv(s.main)
    ensures WindowInv(Step(cfg, s, e).main)
  {
    if OfConnection(e) || OfRequest(e) {
      StepFrame(cfg, s, e);
    } else {
      assert Step(cfg, s, e) == LoopStep(cfg, s, e);
    }
  }

  lemma WindowAtStart()
    ensures WindowInv(Init().main)
  {
  }

  lemma {:induction false} WindowAlways(cfg: Config, es: seq<Event>)
    requires IsRun(cfg, es)
    ensures WindowInv(After(cfg, es).main)
    decreases |es|
  {
    hide Step, WindowInv;
    if es == [] {
      WindowAtStart();
    } else {
      WindowAlways(cfg, Front(es));
      WindowStep(cfg, After(cfg, Front(es)), es[|es| - 1]);
    }
  }

  /**
   Every way out of the accept loop leads through the signal, and then through the window timer at
   least 250 ms after readiness was cleared.
   */
  lemma AcceptLoopEndsAfterWindow(cfg: Config, es: seq<Event>) returns (i: nat, j: nat)
    requires IsRun(cfg, es) && Rank(After(cfg, es).main.phase) > 2
    ensures i < j < |es| && es[i].SignalArm? && es[j].WindowArm?
    ensures IsRun(cfg, es[..i]) && IsRun(cfg, es[..i + 1]) && IsRun(cfg, es[..j])
    ensures After(cfg, es[..i]).main.ready && !After(cfg, es[..i + 1]).main.ready
    ensures After(cfg, es[..i]).main.clock + 250 <= After(cfg, es[..j]).main.clock
  {
    i := SignalIsInRun(cfg, es);
    j := WindowIsInRun(cfg, es);
    WindowAlways(cfg, es);
    RunStep(cfg, es, i);
    RunStep(cfg, es, j);
    Always(cfg, es[..i]);
    if j < i {
      RunIsLater(cfg, es, j + 1, i);
    }
  }

  lemma AcceptsAreHarmless(cfg: Config, s: State)
    requires s.main.phase.Window?
    ensures Enabled(s, AcceptOk) && Step(cfg, s, AcceptOk).main.phase == s.main.phase
    ensures Enabled(s, AcceptErr) && Step(cfg, s, AcceptErr) == s
  {
  }

  /**
   For at least 250 ms after the signal accepts stay enabled, failed ones included, save between the
   two stores; and no accept, failed or not, ends the loop or moves its timer.
   */
  lemma AcceptsStayOpen(cfg: Config, es: seq<Event>, i: nat)
    requires IsRun(cfg, es) && i < |es| && es[i].SignalArm?
    ensures IsRun(cfg, es[..i])
    ensures var s := After(cfg, es);
            var start := After(cfg, es[..i]).main.clock;
            s.main.clock < start + 250 && !s.main.phase.Unready? ==>
              && s.main.phase.Window?
              && Enabled(s, AcceptOk) && Step(cfg, s, AcceptOk).main.phase == s.main.phase
              && Enabled(s, AcceptErr) && Step(cfg, s, AcceptErr) == s
  {
    hide Step, Enabled;
    RunStep(cfg, es, i);
    ArmRanks(cfg, After(cfg, es[..i]), es[i]);
    MainIsLater(cfg, es, i + 1, |es|);
    assert es[..|es|] == es;
    WindowAlways(cfg, es);
    if After(cfg, es).main.phase.Window? {
      AcceptsAreHarmless(cfg, After(cfg, es));
    }
  }

  // ----- The broadcast -----

  /**
   No lost shutdown: from the broadcast on, every unfinished connection is closing already or has an
   unseen `true`; a failed send means that no connection is unfinished; no connection is ever woken by
   a closed channel, or by a change that still reads `false`.
   */
  lemma NoLostShutdown(cfg: Config, es: seq<Event>, id: nat)
    requires IsRun(cfg, es)
    requires id < |After(cfg, es).conns| && Live(After(cfg, es).conns[id])
    ensures var m := After(cfg, es).main;
            var task := After(cfg, es).conns[id].task;
            && (Rank(m.phase) > 3 ==> task.shuttingDown || (task.seen != m.channel.version && m.channel.value))
            && !m.sendFailed
            && m.channel.senderAlive
            && (task.seen != m.channel.version ==> m.channel.value)
  {
    hide Step;
    Always(cfg, es);
    assert ConnInv(After(cfg, es).main, id, After(cfg, es).conns[id]);
  }

  /** Whenever the shutdown arm of a connection is taken, it finds an unseen `true` and an open channel. */
  lemma ShutdownArmSeesTrue(cfg: Config, es: seq<Event>, i: nat)
    requires IsRun(cfg, es) && i < |es|
    requires es[i].LoopArm? && es[i].arm.ShutdownChanged?
    ensures IsRun(cfg, es[..i]) && es[i].id < |After(cfg, es[..i]).conns|
    ensures var s := After(cfg, es[..i]);
            s.conns[es[i].id].task.seen != s.main.channel.version && s.main.channel.value && s.main.channel.senderAlive
  {
    RunStep(cfg, es, i);
    hide Step;
    NoLostShutdown(cfg, es[..i], es[i].id);
  }

  /** Closing is final over whole runs: the deadline is frozen, and a graceful close is asked for once. */
  lemma CloseIsFinal(cfg: Config, es: seq<Event>, i: nat, id: nat)
    requires IsRun(cfg, es) && i <= |es|
    requires IsRun(cfg, es[..i]) && id < |After(cfg, es[..i]).conns| && After(cfg, es[..i]).conns[id].task.shuttingDown
    ensures id < |After(cfg, es).conns|
    ensures var task := After(cfg, es).conns[id].task;
            && task.shuttingDown
            && task.deadline == After(cfg, es[..i]).conns[id].task.deadline
            && task.closeRequests == 1
  {
    hide Step;
    RunIsLater(cfg, es, i, |es|);
    assert es[..|es|] == es;
    Always(cfg, es);
    assert ConnInv(After(cfg, es).main, id, After(cfg, es).conns[id]);
    assert ConnLater(After(cfg, es[..i]).conns[id], After(cfg, es).conns[id]);
  }

  /** A closing connection's loop takes at most one more iteration. */
  lemma OneMoreIteration(cfg: Config, es: seq<Event>, i: nat, j: nat, id: nat)
    requires IsRun(cfg, es) && i < j < |es|
    requires es[i].LoopArm? && es[i].id == id && es[j].LoopArm? && es[j].id == id
    ensures IsRun(cfg, es[..i]) && id < |After(cfg, es[..i]).conns|
    ensures !After(cfg, es[..i]).conns[id].task.shuttingDown
  {
    RunStep(cfg, es, i);
    RunStep(cfg, es, j);
    RunIsLater(cfg, es, i + 1, j);
    assert ConnLater(After(cfg, es[..i + 1]).conns[id], After(cfg, es[..j]).conns[id]);
  }

  // ----- Events counted -----

  predicate IsAccept(e: Event) {
    e.AcceptOk?
  }

  predicate IsStart(e: Event) {
    e.RequestStart?
  }

  predicate IsFinish(e: Event) {
    e.RequestFinish?
  }

  /** The connections are the accepted ones, the requests the started ones, and the counted the finished ones. */
  ghost predicate Accounted(s: State, accepts: nat, starts: nat, finishes: nat) {
    |s.conns| == accepts && |s.ledger.requests| == starts && s.ledger.counted == finishes
  }

  lemma AccountStep(cfg: Config, s: State, e: Event, accepts: nat, starts: nat, finishes: nat)
    requires Enabled(s, e) && Accounted(s, accepts, starts, finishes)
    ensures Accounted(Step(cfg, s, e),
                      accepts + (if IsAccept(e) then 1 else 0),
                      starts + (if IsStart(e) then 1 else 0),
                      finishes + (if IsFinish(e) then 1 else 0))
  {
    if OfConnection(e) {
      DroppedPointwise(s.ledger.requests, e.id);
    } else if OfRequest(e) {
      assert Step(cfg, s, e) == RequestStep(s, e);
    } else {
      assert Step(cfg, s, e) == LoopStep(cfg, s, e);
    }
  }

  lemma {:induction false} EventsAreAccounted(cfg: Config, es: seq<Event>)
    requires IsRun(cfg, es)
    ensures Accounted(After(cfg, es), Count(es, IsAccept), Count(es, IsStart), Count(es, IsFinish))
    decreases |es|
  {
    hide Step, Enabled;
    if es != [] {
      var front := Front(es);
      EventsAreAccounted(cfg, front);
      AccountStep(cfg, After(cfg, front), es[|es| - 1],
                  Count(front, IsAccept), Count(front, IsStart), Count(front, IsFinish));
    }
  }

  // ----- Joins -----

  function Joins(es: seq<Event>, id: nat): nat {
    if es == [] then 0 else Joins(Front(es), id) + if es[|es| - 1] == Join(id) then 1 else 0
  }

  /** The connection was accepted and has left the join set. */
  ghost predicate Gone(s: State, id: nat) {
    id < |s.conns| && id !in s.main.joinSet
  }

  lemma JoinStep(cfg: Config, s: State, e: Event, id: nat)
    requires Enabled(s, e) && Inv(s)
    ensures Gone(Step(cfg, s, e), id) <==> Gone(s, id) || e == Join(id)
    ensures e == Join(id) ==> !Gone(s, id)
  {
    if OfConnection(e) || OfRequest(e) {
      StepFrame(cfg, s, e);
    } else {
      assert Step(cfg, s, e) == LoopStep(cfg, s, e);
    }
  }

  lemma {:induction false} JoinsAreExact(cfg: Config, es: seq<Event>, id: nat)
    requires IsRun(cfg, es)
    ensures Joins(es, id) == if Gone(After(cfg, es), id) then 1 else 0
    decreases |es|
  {
    hide Step, Inv;
    if es != [] {
      JoinsAreExact(cfg, Front(es), id);
      Always(cfg, Front(es));
      JoinStep(cfg, After(cfg, Front(es)), es[|es| - 1], id);
    }
  }

  /**
   Conservation of tasks: the connections are those that were accepted, none is ever joined twice, and
   on return each was joined exactly once, is not unfinished, and holds no receiver.
   */
  lemma EveryTaskIsJoinedOnce(cfg: Config, es: seq<Event>, id: nat)
    requires IsRun(cfg, es)
    ensures |After(cfg, es).conns| == Count(es, IsAccept)
    ensures Joins(es, id) <= 1
    ensures After(cfg, es).main.phase.Returned? && id < |After(cfg, es).conns| ==>
              Joins(es, id) == 1 && !Live(After(cfg, es).conns[id])
    ensures After(cfg, es).main.phase.Returned? ==> After(cfg, es).main.receivers == 0
  {
    hide Step;
    JoinsAreExact(cfg, es, id);
    EventsAreAccounted(cfg, es);
    Always(cfg, es);
    var s := After(cfg, es);
    if s.main.phase.Returned? {
      forall k | 0 <= k < |s.conns| ensures !Live(s.conns[k]) {
        assert ConnInv(s.main, k, s.conns[k]);
      }
      CountNone(s.conns, Live);
    }
  }

  /** Tasks that still have to end, and tasks that still have to be joined. */
  ghost function DrainWork(s: State): nat {
    Count(s.conns, Live) + |s.main.joinSet|
  }

  ghost predicate InDrain(s: State) {
    s.main.phase.Draining? || s.main.phase.Aborting?
  }

  lemma RemoveOne(ids: set<nat>, id: nat)
    requires id in ids
    ensures |ids - {id}| == |ids| - 1
  {
  }

  /** The event joins a task or ends one. */
  ghost predicate Removes(cfg: Config, s: State, e: Event)
    requires Enabled(s, e)
  {
    e.Join? || (OfConnection(e) && !Live(Step(cfg, s, e).conns[e.id]))
  }

  /** In either drain loop a join and an end of a task each take away one piece of work, and nothing adds any. */
  lemma DrainStep(cfg: Config, s: State, e: Event)
    requires Inv(s) && InDrain(s) && Enabled(s, e)
    ensures DrainWork(s) == DrainWork(Step(cfg, s, e)) + if Removes(cfg, s, e) then 1 else 0
  {
    if OfConnection(e) {
      StepFrame(cfg, s, e);
      CountUpdate(s.conns, e.id, Step(cfg, s, e).conns[e.id], Live);
    } else if OfRequest(e) {
      StepFrame(cfg, s, e);
    } else if e.Join? {
      RemoveOne(s.main.joinSet, e.id);
    } else if e.DrainTimeout? {
      CountSame(s.conns, AbortAll(s.conns, s.main.joinSet), Live);
    } else {
      assert Step(cfg, s, e) == LoopStep(cfg, s, e);
    }
  }

  /** The number of joins and ends in a run after its first `from` events. */
  ghost function Removals(cfg: Config, es: seq<Event>, from: nat): nat
    requires IsRun(cfg, es)
    decreases |es|
  {
    if |es| <= from then 0
    else Removals(cfg, Front(es), from) + if Removes(cfg, After(cfg, Front(es)), es[|es| - 1]) then 1 else 0
  }

  /** A drain, once entered, lasts until the server returns. */
  lemma StillDraining(cfg: Config, es: seq<Event>, from: nat, j: nat)
    requires IsRun(cfg, es) && from <= j <= |es| && IsRun(cfg, es[..from])
    requires InDrain(After(cfg, es[..from])) && InDrain(After(cfg, es))
    ensures IsRun(cfg, es[..j]) && InDrain(After(cfg, es[..j]))
  {
    hide Step, Inv;
    assert es[..|es|] == es;
    RunIsLater(cfg, es, from, j);
    RunIsLater(cfg, es, j, |es|);
  }

  lemma {:induction false} WorkIsConserved(cfg: Config, es: seq<Event>, from: nat)
    requires IsRun(cfg, es) && from <= |es| && IsRun(cfg, es[..from])
    requires InDrain(After(cfg, es[..from])) && InDrain(After(cfg, es))
    ensures DrainWork(After(cfg, es)) + Removals(cfg, es, from) == DrainWork(After(cfg, es[..from]))
    decreases |es|
  {
    hide Step, Inv, DrainWork, Removes;
    if from == |es| {
      assert es[..from] == es;
    } else {
      var front := Front(es);
      assert front[..from] == es[..from];
      StillDraining(cfg, es, from, |es| - 1);
      Always(cfg, front);
      WorkIsConserved(cfg, front, from);
      DrainStep(cfg, After(cfg, front), es[|es| - 1]);
    }
  }

  /**
   Both drain loops run down, in every schedule: the work left plus the joins and ends so far is what
   there was when the drain began; the loop can be left exactly when no work is left; and after the
   abort some join or end is enabled as long as any is.
   */
  lemma DrainRunsDown(cfg: Config, es: seq<Event>, from: nat)
    requires IsRun(cfg, es) && from <= |es| && IsRun(cfg, es[..from])
    requires InDrain(After(cfg, es[..from])) && InDrain(After(cfg, es))
    ensures DrainWork(After(cfg, es)) + Removals(cfg, es, from) == DrainWork(After(cfg, es[..from]))
    ensures Enabled(After(cfg, es), DrainDone) <==> DrainWork(After(cfg, es)) == 0
    ensures After(cfg, es).main.phase.Aborting? && DrainWork(After(cfg, es)) > 0 ==>
              exists id :: Enabled(After(cfg, es), Join(id)) || Enabled(After(cfg, es), AbortEnd(id))
  {
    hide Step, Inv;
    WorkIsConserved(cfg, es, from);
    Always(cfg, es);
    DrainEnds(After(cfg, es));
  }

  lemma DrainEnds(s: State)
    requires Inv(s) && InDrain(s)
    ensures s.main.joinSet == {} <==> DrainWork(s) == 0
    ensures s.main.phase.Aborting? && DrainWork(s) > 0 ==>
              exists id :: Enabled(s, Join(id)) || Enabled(s, AbortEnd(id))
  {
    CountNone(s.conns, Live);
    assert forall id :: 0 <= id < |s.conns| ==> ConnInv(s.main, id, s.conns[id]);
    if s.main.joinSet == {} {
      assert DrainWork(s) == 0;
    } else {
      var id :| id in s.main.joinSet;
      assert |s.main.joinSet| > 0;
      if s.main.phase.Aborting? {
        assert Enabled(s, Join(id)) || Enabled(s, AbortEnd(id));
      }
    }
  }

  // ----- Requests -----

  /**
   Conservation of requests: the gauge is always the number of unfinished guards; the requests that
   started are those that finished, those that were cancelled, and those still on the gauge; and on
   return nothing runs.
   */
  lemma RequestsAreConserved(cfg: Config, es: seq<Event>)
    requires IsRun(cfg, es)
    ensures var l := After(cfg, es).ledger;
            && l.gauge == Count(l.requests, Running) >= 0
            && l.counted == Count(es, IsFinish)
            && l.cancelled == Count(l.requests, IsCancelled)
            && Count(es, IsStart) == l.gauge + l.counted + l.cancelled
            && (After(cfg, es).main.phase.Returned? ==> l.gauge == 0)
  {
    hide Step;
    Always(cfg, es);
    EventsAreAccounted(cfg, es);
    var s := After(cfg, es);
    EveryRequestIsSomewhere(s.ledger.requests);
    if s.main.phase.Returned? {
      assert forall id :: 0 <= id < |s.conns| ==> ConnInv(s.main, id, s.conns[id]);
      CountNone(s.ledger.requests, Running);
    }
  }

  // ----- Refusals -----

  /** The event answers a request by turning it away in the drain check. */
  ghost predicate Refuses(s: State, e: Event) {
    && e.RequestAnswer?
    && Enabled(s, e)
    && var q := s.ledger.requests[e.r];
       IsRefusal(q.path, Route(e.site, s.main.ready, s.main.shuttingDown, q.verb, q.path))
  }

  ghost predicate RefusesAt(cfg: Config, es: seq<Event>, k: nat) {
    k < |es| && IsRun(cfg, es[..k]) && Refuses(After(cfg, es[..k]), es[k])
  }

  /** Some request was refused by the drain check among the first `i` events. */
  ghost predicate RefusedBefore(cfg: Config, es: seq<Event>, i: nat) {
    exists k: nat :: k < i && RefusesAt(cfg, es, k)
  }

  lemma RefusalStep(cfg: Config, s: State, e: Event)
    requires Enabled(s, e)
    ensures Step(cfg, s, e).ledger.refused <==> s.ledger.refused || Refuses(s, e)
  {
    if !OfConnection(e) && !OfRequest(e) {
      StepFrame(cfg, s, e);
    }
  }

  lemma {:induction false} RefusalsAreEvents(cfg: Config, es: seq<Event>, i: nat)
    requires IsRun(cfg, es) && i <= |es|
    ensures IsRun(cfg, es[..i])
    ensures After(cfg, es[..i]).ledger.refused <==> RefusedBefore(cfg, es, i)
  {
    hide Step, Refuses, Enabled;
    if i > 0 {
      RefusalsAreEvents(cfg, es, i - 1);
      RunStep(cfg, es, i - 1);
      RefusalStep(cfg, After(cfg, es[..i - 1]), es[i - 1]);
      if RefusesAt(cfg, es, i - 1) {
        assert RefusedBefore(cfg, es, i);
      }
    }
  }

  /**
   Drain ordering: readiness is down whenever the drain flag is up, and neither flag ever goes back;
   liveness is always 200; and once some event of the run has refused a request in the drain check,
   every request that starts later and is answered gets 503 if it is `/readyz` or a GET or HEAD
   elsewhere, and 405 if it uses another verb elsewhere, without a single call into the file system and
   just as it would with any other content.
   */
  lemma DrainOrdering(cfg: Config, es: seq<Event>, i: nat)
    requires IsRun(cfg, es) && i <= |es|
    ensures IsRun(cfg, es[..i])
    ensures var before, now := After(cfg, es[..i]), After(cfg, es);
            && (now.main.shuttingDown ==> !now.main.ready)
            && (before.main.shuttingDown ==> now.main.shuttingDown)
            && (!before.main.ready ==> !now.main.ready)
            && (forall r :: 0 <= r < |now.ledger.requests| ==>
                  var q := now.ledger.requests[r];
                  q.stage.Answered? || q.stage.Counted? ==>
                    && (q.path == LIVEZ ==> q.stage.routed.outcome.response.status == OK)
                    && (RefusedBefore(cfg, es, i) && |before.ledger.requests| <= r ==>
                          DrainAnswer(q.verb, q.path, q.stage.routed)))
  {
    hide Step, DrainAnswer, RefusedBefore;
    RefusalsAreEvents(cfg, es, i);
    RunIsLater(cfg, es, i, |es|);
    assert es[..|es|] == es;
    Always(cfg, es);
    var before, now := After(cfg, es[..i]), After(cfg, es);
    assert forall r :: 0 <= r < |now.ledger.requests| ==> RequestInv(now.ledger.requests[r]);
  }
}
