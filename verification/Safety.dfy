/** What every run keeps, whatever the schedule. */
module Safety {
  import opened ByteStrings
  import opened Connection
  import opened Counting
  import opened FileTree
  import opened Handler
  import opened Responses
  import opened Server

  // ----- Invariants -----

  /** The two flags go down with the phase, and the channel carries `true` from the broadcast on, unless it failed. */
  ghost predicate MainInv(m: Main) {
    && m.ready == m.phase.Serving?
    && m.shuttingDown == !(m.phase.Serving? || m.phase.Unready?)
    && m.channel.senderAlive == !m.phase.Returned?
    && (if BeforeBroadcast(m.phase) then !m.sendFailed && m.channel.version == 0 && !m.channel.value
        else if m.sendFailed then m.channel.version == 0 && !m.channel.value
        else m.channel.version == 1 && m.channel.value)
    && (m.phase.Returned? ==> m.joinSet == {})
  }

  predicate BeforeBroadcast(p: Phase) {
    p.Serving? || p.Unready? || p.Window? || p.Broadcasting?
  }

  ghost predicate ConnInv(m: Main, id: nat, c: Conn) {
    && c.task.seen <= m.channel.version
    && c.task.closeRequests == (if c.task.shuttingDown then 1 else 0)
    && (BeforeBroadcast(m.phase) ==> id in m.joinSet)
    && (c.aborted ==> m.phase.Aborting? || m.phase.Returned?)
    && (Live(c) ==> id in m.joinSet && !m.sendFailed)
    && (Live(c) && m.phase.Aborting? ==> c.aborted)
    && (Live(c) && !BeforeBroadcast(m.phase) ==> c.task.shuttingDown || c.task.seen != m.channel.version)
  }

  ghost predicate ConnsInv(m: Main, conns: seq<Conn>) {
    && (forall id :: id in m.joinSet ==> id < |conns|)
    && (forall id :: 0 <= id < |conns| ==> ConnInv(m, id, conns[id]))
    && m.receivers == Count(conns, Live)
  }

  predicate IsCounted(r: Request) {
    r.stage.Counted?
  }

  predicate IsCancelled(r: Request) {
    r.stage.Cancelled?
  }

  /** The gauge counts the unfinished guards, and every handler that runs belongs to a live connection. */
  ghost predicate LedgerInv(conns: seq<Conn>, l: Ledger) {
    && l.gauge == Count(l.requests, Running)
    && l.counted == Count(l.requests, IsCounted)
    && l.cancelled == Count(l.requests, IsCancelled)
    && forall r :: 0 <= r < |l.requests| && Running(l.requests[r]) ==>
         l.requests[r].conn < |conns| && Live(conns[l.requests[r].conn])
  }

  /** How a request that started after a refusal is answered: without a call into the file system, whatever it holds. */
  ghost predicate DrainAnswer(verb: Verb, path: ByteString, routed: Routed) {
    && routed.accesses == []
    && (forall site: Site :: ValidTree(site.fs) ==> Route(site, false, true, verb, path) == routed)
    && routed.outcome.response.status ==
         if path == LIVEZ then OK
         else if path != READYZ && verb.OtherVerb? then METHOD_NOT_ALLOWED
         else SERVICE_UNAVAILABLE
  }

  ghost predicate RequestInv(r: Request) {
    r.stage.Answered? || r.stage.Counted? ==>
      && (r.late ==> DrainAnswer(r.verb, r.path, r.stage.routed))
      && (r.path == LIVEZ ==> r.stage.routed.outcome.response.status == OK)
  }

  ghost predicate RefusalInv(m: Main, l: Ledger) {
    && (l.refused ==> m.shuttingDown)
    && forall r :: 0 <= r < |l.requests| ==> RequestInv(l.requests[r]) && (l.requests[r].late ==> l.refused)
  }

  ghost predicate Inv(s: State) {
    MainInv(s.main) && ConnsInv(s.main, s.conns) && LedgerInv(s.conns, s.ledger) && RefusalInv(s.main, s.ledger)
  }

  // ----- Counting the handlers that a connection drops -----

  lemma {:induction false} DroppedPointwise(requests: seq<Request>, conn: nat)
    ensures |DropHandlers(requests, conn)| == |requests|
    ensures forall r :: 0 <= r < |requests| ==>
              DropHandlers(requests, conn)[r]
              == var q := requests[r];
                 if Running(q) && q.conn == conn then q.(stage := Cancelled) else q
  {
    if requests != [] {
      DroppedPointwise(requests[..|requests| - 1], conn);
    }
  }

  lemma {:induction false} DroppedCounts(requests: seq<Request>, conn: nat)
    ensures Count(DropHandlers(requests, conn), Running) == Count(requests, Running) - Held(requests, conn)
    ensures Count(DropHandlers(requests, conn), IsCounted) == Count(requests, IsCounted)
    ensures Count(DropHandlers(requests, conn), IsCancelled) == Count(requests, IsCancelled) + Held(requests, conn)
  {
    if requests != [] {
      var front := requests[..|requests| - 1];
      var r := requests[|requests| - 1];
      var last := if Running(r) && r.conn == conn then r.(stage := Cancelled) else r;
      DroppedCounts(front, conn);
      CountAppend(DropHandlers(front, conn), last, Running);
      CountAppend(DropHandlers(front, conn), last, IsCounted);
      CountAppend(DropHandlers(front, conn), last, IsCancelled);
    }
  }

  lemma {:induction false} EveryRequestIsSomewhere(requests: seq<Request>)
    ensures |requests| == Count(requests, Running) + Count(requests, IsCounted) + Count(requests, IsCancelled)
  {
    if requests != [] {
      EveryRequestIsSomewhere(requests[..|requests| - 1]);
    }
  }

  // ----- Steps keep the invariants -----

  lemma AcceptKeeps(cfg: Config, s: State)
    requires Enabled(s, AcceptOk) && Inv(s)
    ensures Inv(Step(cfg, s, AcceptOk))
  {
    var m := Admit(s.main, |s.conns|);
    var c := NewConn(s.main, cfg.timeouts);
    CountAppend(s.conns, c, Live);
    assert ConnInv(m, |s.conns|, c);
    forall id | 0 <= id < |s.conns| ensures ConnInv(m, id, s.conns[id]) {
      assert ConnInv(s.main, id, s.conns[id]);
    }
  }

  lemma SendKeeps(cfg: Config, s: State)
    requires Enabled(s, Send) && Inv(s)
    ensures Inv(Step(cfg, s, Send))
  {
    CountNone(s.conns, Live);
    forall id | 0 <= id < |s.conns| ensures ConnInv(Broadcast(s.main, cfg.drain), id, s.conns[id]) {
      assert ConnInv(s.main, id, s.conns[id]);
    }
  }

  lemma TimeoutKeeps(cfg: Config, s: State)
    requires Enabled(s, DrainTimeout) && Inv(s)
    ensures Inv(Step(cfg, s, DrainTimeout))
  {
    var conns := AbortAll(s.conns, s.main.joinSet);
    CountSame(s.conns, conns, Live);
    forall id | 0 <= id < |s.conns| ensures ConnInv(s.main.(phase := Aborting), id, conns[id]) {
      assert ConnInv(s.main, id, s.conns[id]);
    }
  }

  /** The steps that leave connections and requests as they are. */
  lemma LoopKeeps(cfg: Config, s: State, e: Event)
    requires Enabled(s, e) && Inv(s)
    requires !OfConnection(e) && !OfRequest(e) && !e.AcceptOk? && !e.Send? && !e.DrainTimeout?
    ensures Inv(Step(cfg, s, e))
  {
    var m := Step(cfg, s, e).main;
    forall id | 0 <= id < |s.conns| ensures ConnInv(m, id, s.conns[id]) {
      assert ConnInv(s.main, id, s.conns[id]);
    }
  }

  lemma DropKeeps(conns: seq<Conn>, l: Ledger, id: nat, c: Conn)
    requires LedgerInv(conns, l) && id < |conns| && !Live(c)
    ensures LedgerInv(conns[id := c], DropConnection(l, id))
  {
    DroppedCounts(l.requests, id);
    DroppedPointwise(l.requests, id);
  }

  lemma DropKeepsRefusals(m: Main, l: Ledger, id: nat)
    requires RefusalInv(m, l)
    ensures RefusalInv(m.(receivers := m.receivers - 1), DropConnection(l, id))
  {
    DroppedPointwise(l.requests, id);
  }

  /** Replacing a live connection by one that keeps its own invariant. */
  lemma ReplaceKeeps(s: State, id: nat, c: Conn)
    requires Inv(s) && id < |s.conns| && Live(s.conns[id])
    requires ConnInv(s.main, id, c)
    ensures Inv(Replace(s, id, c))
  {
    var t := Replace(s, id, c);
    CountUpdate(s.conns, id, c, Live);
    forall k | 0 <= k < |s.conns| ensures ConnInv(t.main, k, t.conns[k]) {
      assert ConnInv(s.main, k, if k == id then c else s.conns[k]);
    }
    if !Live(c) {
      DropKeeps(s.conns, s.ledger, id, c);
      DropKeepsRefusals(s.main, s.ledger, id);
    }
  }

  lemma ConnectionKeeps(cfg: Config, s: State, e: Event)
    requires Enabled(s, e) && Inv(s) && OfConnection(e)
    ensures Inv(Step(cfg, s, e))
  {
    var id := e.id;
    var was := s.conns[id];
    assert ConnInv(s.main, id, was);
    match e
    case Io(_, bytes) =>
      ReplaceKeeps(s, id, Moved(was, s.main.clock, bytes));
    case LoopArm(_, arm) =>
      ReplaceKeeps(s, id, Iterated(was, arm, s.main, cfg.timeouts));
    case AbortEnd(_) =>
      ReplaceKeeps(s, id, was.(task := was.task.(finished := true)));
  }

  /** Moving a running request on, keeping count. */
  lemma StageKeeps(conns: seq<Conn>, l: Ledger, next: Ledger, r: nat, q: Request)
    requires LedgerInv(conns, l) && r < |l.requests| && Running(l.requests[r]) && q.conn == l.requests[r].conn
    requires next.requests == l.requests[r := q]
    requires next.gauge == l.gauge - (if Running(q) then 0 else 1)
    requires next.counted == l.counted + (if IsCounted(q) then 1 else 0)
    requires next.cancelled == l.cancelled + (if IsCancelled(q) then 1 else 0)
    ensures LedgerInv(conns, next)
  {
    CountUpdates(l.requests, r, q);
  }

  lemma RequestKeeps(cfg: Config, s: State, e: Event)
    requires Enabled(s, e) && Inv(s) && OfRequest(e)
    ensures Inv(Step(cfg, s, e))
  {
    var was := s.ledger;
    if e.RequestStart? {
      var q := Request(e.id, e.verb, e.path, was.refused, Waiting);
      CountAppend(was.requests, q, Running);
      CountAppend(was.requests, q, IsCounted);
      CountAppend(was.requests, q, IsCancelled);
    } else if e.RequestAnswer? {
      AnswerKeeps(s.conns, was, e.r, s.main, e.site);
    } else if e.RequestFinish? {
      FinishKeeps(s.conns, was, e.r, s.main);
    } else {
      CancelKeeps(s.conns, was, e.r, s.main);
    }
  }

  lemma AnswerKeeps(conns: seq<Conn>, l: Ledger, r: nat, m: Main, site: Site)
    requires ValidTree(site.fs) && LedgerInv(conns, l) && RefusalInv(m, l) && MainInv(m)
    requires r < |l.requests| && l.requests[r].stage.Waiting?
    ensures LedgerInv(conns, Answer(l, r, m, site)) && RefusalInv(m, Answer(l, r, m, site))
  {
    var next := Answer(l, r, m, site);
    RouteKeeps(site, m, l.requests[r]);
    StageKeeps(conns, l, next, r, next.requests[r]);
  }

  lemma FinishKeeps(conns: seq<Conn>, l: Ledger, r: nat, m: Main)
    requires LedgerInv(conns, l) && RefusalInv(m, l)
    requires r < |l.requests| && l.requests[r].stage.Answered?
    ensures LedgerInv(conns, Finish(l, r)) && RefusalInv(m, Finish(l, r))
  {
    var next := Finish(l, r);
    assert RequestInv(l.requests[r]);
    StageKeeps(conns, l, next, r, next.requests[r]);
  }

  lemma CancelKeeps(conns: seq<Conn>, l: Ledger, r: nat, m: Main)
    requires LedgerInv(conns, l) && RefusalInv(m, l)
    requires r < |l.requests| && Running(l.requests[r])
    ensures LedgerInv(conns, Cancel(l, r)) && RefusalInv(m, Cancel(l, r))
  {
    var next := Cancel(l, r);
    StageKeeps(conns, l, next, r, next.requests[r]);
  }

  ghost predicate Updated(requests: seq<Request>, r: nat, q: Request, p: Request -> bool)
    requires r < |requests|
  {
    Count(requests[r := q], p) + (if p(requests[r]) then 1 else 0) == Count(requests, p) + if p(q) then 1 else 0
  }

  lemma CountUpdates(requests: seq<Request>, r: nat, q: Request)
    requires r < |requests|
    ensures Updated(requests, r, q, Running)
    ensures Updated(requests, r, q, IsCounted)
    ensures Updated(requests, r, q, IsCancelled)
  {
    CountUpdate(requests, r, q, Running);
    CountUpdate(requests, r, q, IsCounted);
    CountUpdate(requests, r, q, IsCancelled);
  }

  lemma RouteKeeps(site: Site, m: Main, q: Request)
    requires ValidTree(site.fs) && MainInv(m) && (q.late ==> m.shuttingDown)
    ensures RequestInv(q.(stage := Answered(Route(site, m.ready, m.shuttingDown, q.verb, q.path))))
    ensures IsRefusal(q.path, Route(site, m.ready, m.shuttingDown, q.verb, q.path)) ==> m.shuttingDown
  {
    if m.shuttingDown {
      AnswersWhileDraining(site, q.verb, q.path);
      forall other: Site | ValidTree(other.fs)
        ensures Route(other, false, true, q.verb, q.path) == Route(site, false, true, q.verb, q.path)
      {
        DrainIgnoresContent(other, site, q.verb, q.path);
      }
    }
    if q.path != READYZ {
      OnlyTheDrainRefuses(site, m.ready, m.shuttingDown, q.verb, q.path);
    }
    LivenessIsOk(site, m.ready, m.shuttingDown, q.verb);
  }

  lemma InitHolds()
    ensures Inv(Init())
  {
  }

  lemma {:induction false} Always(cfg: Config, es: seq<Event>)
    requires IsRun(cfg, es)
    ensures Inv(After(cfg, es))
    decreases |es|
  {
    hide Step, Inv, Enabled;
    if es == [] {
      InitHolds();
    } else {
      Always(cfg, Front(es));
      var s, e := After(cfg, Front(es)), es[|es| - 1];
      if OfConnection(e) {
        ConnectionKeeps(cfg, s, e);
      } else if OfRequest(e) {
        RequestKeeps(cfg, s, e);
      } else if e.AcceptOk? {
        AcceptKeeps(cfg, s);
      } else if e.Send? {
        SendKeeps(cfg, s);
      } else if e.DrainTimeout? {
        TimeoutKeeps(cfg, s);
      } else {
        LoopKeeps(cfg, s, e);
      }
    }
  }
}
