/** Why the server is in the state it is in: for what a run shows in the end, the events of the run that caused it. */
module Histories {
  import opened ByteStrings
  import opened Connection
  import opened FileTree
  import opened Handler
  import opened Safety
  import opened Server
  import opened Shutdown

  // ----- What is always possible -----

  /** Until the signal the server is ready, and takes connections, failed accepts and the signal at any time. */
  lemma ServingIsOpen(cfg: Config, es: seq<Event>)
    requires IsRun(cfg, es) && forall e :: e in es ==> !e.SignalArm?
    ensures var s := After(cfg, es);
            && s.main.phase.Serving? && s.main.ready && !s.main.shuttingDown
            && Enabled(s, SignalArm)
            && Enabled(s, AcceptErr) && Step(cfg, s, AcceptErr) == s
            && Enabled(s, AcceptOk) && Step(cfg, s, AcceptOk).main.phase.Serving?
  {
    Always(cfg, es);
    if Rank(After(cfg, es).main.phase) > 0 {
      var _ := SignalIsInRun(cfg, es);
    }
  }

  /** An accepted connection is served from now on for the idle timeout, and known to the drain and the broadcast. */
  lemma AcceptedIsServed(cfg: Config, s: State)
    requires Enabled(s, AcceptOk)
    ensures var t := Step(cfg, s, AcceptOk);
            && |t.conns| == |s.conns| + 1
            && (forall id :: 0 <= id < |s.conns| ==> t.conns[id] == s.conns[id])
            && var c := t.conns[|s.conns|];
               && Live(c) && !c.aborted && !c.task.shuttingDown && !c.task.permit && c.task.closeRequests == 0
               && c.task.deadline == s.main.clock + cfg.timeouts.idle
               && c.task.seen == s.main.channel.version
               && |s.conns| in t.main.joinSet
               && t.main.receivers == s.main.receivers + 1
               && t.ledger == s.ledger
  {
  }

  /**
   Peers are never held up: at any time in any run an unfinished connection may move bytes, start
   requests and be done, which ends it.
   */
  lemma PeersAreFree(cfg: Config, s: State, id: nat, bytes: nat, verb: Verb, path: ByteString)
    requires id < |s.conns| && Live(s.conns[id])
    ensures Enabled(s, Io(id, bytes)) && Enabled(s, RequestStart(id, verb, path))
    ensures Enabled(s, LoopArm(id, ConnectionDone))
    ensures Step(cfg, s, LoopArm(id, ConnectionDone)).conns[id].task.finished
    ensures forall k :: 0 <= k < |s.conns| && k != id ==>
              Step(cfg, s, LoopArm(id, ConnectionDone)).conns[k] == s.conns[k]
  {
  }

  /** Requests are never held up: while its connection lives, a request can be answered, counted or cancelled. */
  lemma RequestsAreFree(cfg: Config, s: State, r: nat, site: Site)
    requires r < |s.ledger.requests| && Running(s.ledger.requests[r]) && ValidTree(site.fs)
    ensures Enabled(s, RequestCancel(r)) && Step(cfg, s, RequestCancel(r)).ledger.requests[r].stage.Cancelled?
    ensures s.ledger.requests[r].stage.Waiting? ==>
              && Enabled(s, RequestAnswer(r, site))
              && Step(cfg, s, RequestAnswer(r, site)).ledger.requests[r].stage.Answered?
    ensures s.ledger.requests[r].stage.Answered? ==>
              && Enabled(s, RequestFinish(r))
              && Step(cfg, s, RequestFinish(r)).ledger.requests[r].stage == Counted(s.ledger.requests[r].stage.routed)
  {
  }

  // ----- Why a connection is closing, and why it ended -----

  /** Clock of the state that the first `k` events lead to. */
  ghost function ClockAt(cfg: Config, es: seq<Event>, k: nat): nat
    requires IsRun(cfg, es) && k <= |es|
  {
    PrefixIsRun(cfg, es, k);
    After(cfg, es[..k]).main.clock
  }

  ghost predicate LiveAt(cfg: Config, es: seq<Event>, k: nat, id: nat)
    requires IsRun(cfg, es) && k <= |es|
  {
    PrefixIsRun(cfg, es, k);
    id < |After(cfg, es[..k]).conns| && Live(After(cfg, es[..k]).conns[id])
  }

  /** Event `k` tells the connection to close: served until then, it was idle for too long or saw the broadcast. */
  ghost predicate ClosesAt(cfg: Config, es: seq<Event>, k: nat, id: nat)
    requires IsRun(cfg, es) && k < |es|
  {
    PrefixIsRun(cfg, es, k);
    && LiveAt(cfg, es, k, id)
    && !After(cfg, es[..k]).conns[id].task.shuttingDown
    && (es[k] == LoopArm(id, DeadlineReached) || es[k] == LoopArm(id, ShutdownChanged))
  }

  /** A close gives the connection its grace time, and nothing later changes that. */
  lemma CloseStep(cfg: Config, s: State, e: Event, id: nat)
    requires Enabled(s, e) && id < |Step(cfg, s, e).conns| && Step(cfg, s, e).conns[id].task.shuttingDown
    ensures id < |s.conns|
    ensures if s.conns[id].task.shuttingDown
            then Step(cfg, s, e).conns[id].task.deadline == s.conns[id].task.deadline
            else
              && Live(s.conns[id])
              && (e == LoopArm(id, DeadlineReached) || e == LoopArm(id, ShutdownChanged))
              && Step(cfg, s, e).conns[id].task.deadline == s.main.clock + cfg.timeouts.graceful
  {
    if OfConnection(e) || OfRequest(e) {
      StepFrame(cfg, s, e);
    } else {
      assert Step(cfg, s, e) == LoopStep(cfg, s, e);
    }
  }

  /** A closing connection was told to close by an event of the run, and has the graceful timeout from there on. */
  lemma {:induction false} CloseIsInRun(cfg: Config, es: seq<Event>, id: nat) returns (k: nat)
    requires IsRun(cfg, es) && id < |After(cfg, es).conns| && After(cfg, es).conns[id].task.shuttingDown
    ensures k < |es| && ClosesAt(cfg, es, k, id)
    ensures After(cfg, es).conns[id].task.deadline == ClockAt(cfg, es, k) + cfg.timeouts.graceful
    decreases |es|
  {
    hide Step, Enabled;
    var front := Front(es);
    CloseStep(cfg, After(cfg, front), es[|es| - 1], id);
    if After(cfg, front).conns[id].task.shuttingDown {
      k := CloseIsInRun(cfg, front, id);
      assert front[..k] == es[..k];
    } else {
      k := |es| - 1;
    }
  }

  /** The ways in which one step can end a connection. */
  lemma EndStep(cfg: Config, s: State, e: Event, id: nat)
    requires Enabled(s, e) && id < |Step(cfg, s, e).conns| && Step(cfg, s, e).conns[id].task.finished
    ensures id < |s.conns|
    ensures s.conns[id].task.finished
         || e == LoopArm(id, ConnectionDone)
         || (e == AbortEnd(id) && s.conns[id].aborted)
         || (e == LoopArm(id, DeadlineReached) && s.conns[id].task.shuttingDown
             && s.conns[id].task.deadline <= s.main.clock)
  {
    if OfConnection(e) || OfRequest(e) {
      StepFrame(cfg, s, e);
    } else {
      assert Step(cfg, s, e) == LoopStep(cfg, s, e);
    }
  }

  lemma {:induction false} EndIsInRun(cfg: Config, es: seq<Event>, id: nat) returns (i: nat)
    requires IsRun(cfg, es) && id < |After(cfg, es).conns| && !Live(After(cfg, es).conns[id])
    ensures i < |es| && LiveAt(cfg, es, i, id) && IsRun(cfg, es[..i]) && Enabled(After(cfg, es[..i]), es[i])
    ensures IsRun(cfg, es[..i + 1]) && After(cfg, es[..i + 1]) == Step(cfg, After(cfg, es[..i]), es[i])
    ensures id < |After(cfg, es[..i + 1]).conns| && !Live(After(cfg, es[..i + 1]).conns[id])
    decreases |es|
  {
    hide Step, Enabled;
    var front := Front(es);
    EndStep(cfg, After(cfg, front), es[|es| - 1], id);
    if Live(After(cfg, front).conns[id]) {
      i := |es| - 1;
      assert es[..i + 1] == es;
    } else {
      i := EndIsInRun(cfg, front, id);
      assert front[..i] == es[..i] && front[..i + 1] == es[..i + 1];
    }
  }

  lemma DrainSteps(cfg: Config, s: State, e: Event, id: nat)
    requires Enabled(s, e)
    ensures var t := Step(cfg, s, e);
            && (t.main.phase.Draining? && t.main.phase != s.main.phase ==>
                  e == Send && t.main.phase.until == s.main.clock + cfg.drain)
            && (id < |t.conns| && t.conns[id].aborted && !(id < |s.conns| && s.conns[id].aborted) ==>
                  e == DrainTimeout && s.main.phase.Draining? && s.main.phase.until <= s.main.clock)
  {
    if OfConnection(e) || OfRequest(e) {
      StepFrame(cfg, s, e);
    } else {
      assert Step(cfg, s, e) == LoopStep(cfg, s, e);
    }
  }

  /** The drain timer runs from the broadcast. */
  lemma {:induction false} SendIsInRun(cfg: Config, es: seq<Event>) returns (k: nat)
    requires IsRun(cfg, es) && After(cfg, es).main.phase.Draining?
    ensures k < |es| && es[k] == Send
    ensures After(cfg, es).main.phase.until == ClockAt(cfg, es, k) + cfg.drain
    decreases |es|
  {
    hide Step, Enabled;
    var front := Front(es);
    DrainSteps(cfg, After(cfg, front), es[|es| - 1], 0);
    if After(cfg, es).main.phase == After(cfg, front).main.phase {
      k := SendIsInRun(cfg, front);
      assert front[..k] == es[..k];
    } else {
      k := |es| - 1;
    }
  }

  /** By event `i` the drain timeout had passed since the broadcast. */
  ghost predicate DrainPassed(cfg: Config, es: seq<Event>, i: nat)
    requires IsRun(cfg, es) && i <= |es|
  {
    exists k: nat :: k < i && es[k] == Send && ClockAt(cfg, es, k) + cfg.drain <= ClockAt(cfg, es, i)
  }

  /** By event `i` the graceful timeout had passed since the connection was told to close. */
  ghost predicate GracePassed(cfg: Config, es: seq<Event>, i: nat, id: nat)
    requires IsRun(cfg, es) && i <= |es|
  {
    exists k: nat :: k < i && ClosesAt(cfg, es, k, id)
                     && ClockAt(cfg, es, k) + cfg.timeouts.graceful <= ClockAt(cfg, es, i)
  }

  /** Nothing is aborted before the drain timeout has passed since the broadcast. */
  lemma {:induction false} AbortIsInRun(cfg: Config, es: seq<Event>, id: nat)
    requires IsRun(cfg, es) && id < |After(cfg, es).conns| && After(cfg, es).conns[id].aborted
    ensures DrainPassed(cfg, es, |es|)
    decreases |es|
  {
    hide Step, Enabled;
    var front := Front(es);
    assert es[..|es|] == es && front[..|front|] == front && es[..|front|] == front;
    DrainSteps(cfg, After(cfg, front), es[|es| - 1], id);
    RunIsLater(cfg, es, |front|, |es|);
    if id < |After(cfg, front).conns| && After(cfg, front).conns[id].aborted {
      AbortIsInRun(cfg, front, id);
      var k: nat :|
        k < |front| && front[k] == Send && ClockAt(cfg, front, k) + cfg.drain <= ClockAt(cfg, front, |front|);
      assert front[..k] == es[..k] && es[k] == Send;
    } else {
      var k := SendIsInRun(cfg, front);
      assert front[..k] == es[..k] && es[k] == Send;
    }
  }

  /**
   No connection is dropped early, in any schedule: an ended one was done by itself; or it was told to
   close and had the whole graceful timeout since; or the whole drain timeout had passed since the broadcast.
   */
  lemma EndsAreDue(cfg: Config, es: seq<Event>, id: nat) returns (i: nat)
    requires IsRun(cfg, es) && id < |After(cfg, es).conns| && !Live(After(cfg, es).conns[id])
    ensures i < |es| && LiveAt(cfg, es, i, id)
    ensures || es[i] == LoopArm(id, ConnectionDone)
            || (es[i] == LoopArm(id, DeadlineReached) && GracePassed(cfg, es, i, id))
            || (es[i] == AbortEnd(id) && DrainPassed(cfg, es, i))
  {
    hide Step, Enabled;
    i := EndIsInRun(cfg, es, id);
    var before := es[..i];
    EndStep(cfg, After(cfg, before), es[i], id);
    assert before[..i] == es[..i];
    if es[i] == LoopArm(id, DeadlineReached) {
      var k := CloseIsInRun(cfg, before, id);
      assert before[..k] == es[..k] && before[k] == es[k];
      assert ClosesAt(cfg, es, k, id);
    } else if es[i] == AbortEnd(id) {
      AbortIsInRun(cfg, before, id);
      var k: nat :| k < i && before[k] == Send && ClockAt(cfg, before, k) + cfg.drain <= ClockAt(cfg, before, i);
      assert before[..k] == es[..k] && es[k] == Send;
    }
  }

  // ----- Where an answer comes from, and why a request was cancelled -----

  /** What one step can do to a request. */
  ghost predicate Changes(s: State, e: Event, t: State, r: nat)
    requires Enabled(s, e) && r < |t.ledger.requests|
  {
    var q := t.ledger.requests[r];
    if r < |s.ledger.requests| then
      var p := s.ledger.requests[r];
      && q == p.(stage := q.stage)
      && match q.stage {
           case Waiting => false
           case Answered(routed) =>
             && p.stage.Waiting? && e.RequestAnswer? && e.r == r
             && routed == Route(e.site, s.main.ready, s.main.shuttingDown, p.verb, p.path)
           case Counted(routed) => p.stage == Answered(routed) && e == RequestFinish(r)
           case Cancelled => Running(p) && (e == RequestCancel(r) || Ends(s, e, t, p.conn))
         }
    else
      && r == |s.ledger.requests|
      && e == RequestStart(q.conn, q.verb, q.path)
      && q.stage.Waiting?
      && q.conn < |s.conns| && Live(s.conns[q.conn])
  }

  /** The step ends the connection. */
  ghost predicate Ends(s: State, e: Event, t: State, id: nat) {
    OfConnection(e) && e.id == id && id < |s.conns| && id < |t.conns| && Live(s.conns[id]) && !Live(t.conns[id])
  }

  /** Dropping the handlers of a connection that ends cancels its running requests, and no others. */
  lemma DropChanges(cfg: Config, s: State, e: Event, r: nat)
    requires Enabled(s, e) && OfConnection(e) && r < |Step(cfg, s, e).ledger.requests|
    ensures r < |s.ledger.requests|
    ensures Step(cfg, s, e).ledger.requests[r] == s.ledger.requests[r] || Changes(s, e, Step(cfg, s, e), r)
  {
    hide Route, Held, IsRefusal;
    DroppedPointwise(s.ledger.requests, e.id);
  }

  lemma RequestChanges(cfg: Config, s: State, e: Event, r: nat)
    requires Enabled(s, e) && r < |Step(cfg, s, e).ledger.requests|
    ensures || (r < |s.ledger.requests| && Step(cfg, s, e).ledger.requests[r] == s.ledger.requests[r])
            || Changes(s, e, Step(cfg, s, e), r)
  {
    hide Route, Held, IsRefusal;
    if OfConnection(e) {
      DropChanges(cfg, s, e, r);
    } else if OfRequest(e) {
      assert Step(cfg, s, e) == RequestStep(s, e);
    } else {
      StepFrame(cfg, s, e);
    }
  }

  ghost predicate ChangesAt(cfg: Config, es: seq<Event>, i: nat, r: nat, q: Request)
    requires IsRun(cfg, es) && i < |es|
  {
    PrefixIsRun(cfg, es, i);
    RunStep(cfg, es, i);
    var t := After(cfg, es[..i + 1]);
    r < |t.ledger.requests| && t.ledger.requests[r] == q && Changes(After(cfg, es[..i]), es[i], t, r)
  }

  /** What a request is in the end it became by the last event that changed it. */
  lemma {:induction false} LastChange(cfg: Config, es: seq<Event>, r: nat) returns (i: nat)
    requires IsRun(cfg, es) && r < |After(cfg, es).ledger.requests|
    ensures i < |es| && ChangesAt(cfg, es, i, r, After(cfg, es).ledger.requests[r])
    decreases |es|
  {
    hide Step, Enabled, Changes;
    var front := Front(es);
    RequestChanges(cfg, After(cfg, front), es[|es| - 1], r);
    assert es[..|es|] == es && es[..|front|] == front;
    if r < |After(cfg, front).ledger.requests|
       && After(cfg, es).ledger.requests[r] == After(cfg, front).ledger.requests[r] {
      i := LastChange(cfg, front, r);
      assert front[..i] == es[..i] && front[..i + 1] == es[..i + 1];
    } else {
      i := |es| - 1;
    }
  }

  /** A waiting request was started by the event that asked for it. */
  ghost predicate StartsAt(cfg: Config, es: seq<Event>, i: nat, r: nat, q: Request)
    requires IsRun(cfg, es) && i < |es|
  {
    PrefixIsRun(cfg, es, i);
    es[i] == RequestStart(q.conn, q.verb, q.path) && |After(cfg, es[..i]).ledger.requests| == r
  }

  /** Event `j` answers the request from the flags at that time and from the content found then. */
  ghost predicate AnswersAt(cfg: Config, es: seq<Event>, j: nat, r: nat, q: Request, routed: Routed)
    requires IsRun(cfg, es) && j < |es|
  {
    PrefixIsRun(cfg, es, j);
    var m := After(cfg, es[..j]).main;
    && es[j].RequestAnswer? && es[j].r == r && ValidTree(es[j].site.fs)
    && routed == Route(es[j].site, m.ready, m.shuttingDown, q.verb, q.path)
  }

  lemma WaitingWasStarted(cfg: Config, es: seq<Event>, r: nat) returns (i: nat)
    requires IsRun(cfg, es) && r < |After(cfg, es).ledger.requests| && After(cfg, es).ledger.requests[r].stage.Waiting?
    ensures i < |es| && StartsAt(cfg, es, i, r, After(cfg, es).ledger.requests[r])
  {
    hide Step, Enabled;
    i := LastChange(cfg, es, r);
  }

  lemma AnsweredWasAsked(cfg: Config, es: seq<Event>, r: nat) returns (i: nat, j: nat)
    requires IsRun(cfg, es) && r < |After(cfg, es).ledger.requests| && After(cfg, es).ledger.requests[r].stage.Answered?
    ensures i < j < |es|
    ensures StartsAt(cfg, es, i, r, After(cfg, es).ledger.requests[r])
    ensures AnswersAt(cfg, es, j, r, After(cfg, es).ledger.requests[r], After(cfg, es).ledger.requests[r].stage.routed)
  {
    hide Step, Route;
    j := LastChange(cfg, es, r);
    RunStep(cfg, es, j);
    var before := es[..j];
    i := WaitingWasStarted(cfg, before, r);
    assert before[..i] == es[..i];
  }

  /**
   Every answer has its request: whatever is answered or counted in the end was started by an earlier
   event with the same connection, verb and path, and its answer is the router's for the flags and the
   content at the event that answered it.
   */
  lemma EveryAnswerHasItsRequest(cfg: Config, es: seq<Event>, r: nat) returns (i: nat, j: nat)
    requires IsRun(cfg, es) && r < |After(cfg, es).ledger.requests|
    requires After(cfg, es).ledger.requests[r].stage.Answered? || After(cfg, es).ledger.requests[r].stage.Counted?
    ensures i < j < |es|
    ensures StartsAt(cfg, es, i, r, After(cfg, es).ledger.requests[r])
    ensures AnswersAt(cfg, es, j, r, After(cfg, es).ledger.requests[r], After(cfg, es).ledger.requests[r].stage.routed)
  {
    hide Step, Route;
    if After(cfg, es).ledger.requests[r].stage.Answered? {
      i, j := AnsweredWasAsked(cfg, es, r);
    } else {
      var k := LastChange(cfg, es, r);
      RunStep(cfg, es, k);
      var before := es[..k];
      i, j := AnsweredWasAsked(cfg, before, r);
      assert before[..i] == es[..i] && before[..j] == es[..j];
    }
  }

  /**
   Every cancelled request has its cause: its own cancellation, or the end of its own connection. The end
   of one connection never cancels the requests of another.
   */
  lemma EveryCancelHasItsCause(cfg: Config, es: seq<Event>, r: nat) returns (i: nat)
    requires IsRun(cfg, es) && r < |After(cfg, es).ledger.requests|
    requires After(cfg, es).ledger.requests[r].stage.Cancelled?
    ensures i < |es|
    ensures || es[i] == RequestCancel(r)
            || (LiveAt(cfg, es, i, After(cfg, es).ledger.requests[r].conn)
                && !LiveAt(cfg, es, i + 1, After(cfg, es).ledger.requests[r].conn))
  {
    hide Step, Enabled;
    i := LastChange(cfg, es, r);
  }
}
