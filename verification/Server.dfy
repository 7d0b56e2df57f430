/**
 The server as a transition system: the accept loop, any number of connection tasks with their
 requests, and a clock. Every select arm and every store to a shared flag is a step of its own, and a
 run is any sequence of enabled steps.
 */
module Server {
  import opened ByteStrings
  import opened Errors
  import opened Connection
  import opened FileTree
  import opened Handler
  import opened Responses

  const READINESS_DRAIN_WINDOW_MILLIS: nat := 250

  // ----- State -----

  /** Where the accept loop is: at which await point, or between which two stores. */
  datatype Phase =
    | Serving
    | Unready
    | Window(until: nat)
    | Broadcasting
    | Draining(until: nat)
    | Aborting
    | Returned

  /** The accept loop's own state and the state it shares, with the times it took the signal and stopped accepting. */
  datatype Main = Main(
    clock: nat,
    phase: Phase,
    ready: bool,
    shuttingDown: bool,
    channel: Channel,
    receivers: int,
    joinSet: set<nat>,
    sendFailed: bool,
    signalAt: nat,
    stoppedAt: nat)

  /** What happened to a connection: its start, the times bytes moved on it, and its close for idleness. */
  datatype Past = Past(started: nat, last: nat, moved: set<nat>, idleClosed: Option<nat>)

  datatype Conn = Conn(task: Task, aborted: bool, past: Past)

  /** A request waits to load its flag, then has its answer, and is counted or cancelled in the end. */
  datatype Stage = Waiting | Answered(routed: Routed) | Counted(routed: Routed) | Cancelled

  /** A request; `late` if some request had been refused by the drain check before it started. */
  datatype Request = Request(conn: nat, verb: Verb, path: ByteString, late: bool, stage: Stage)

  /** All requests in the order they started, and the metrics kept for them. */
  datatype Ledger = Ledger(requests: seq<Request>, gauge: int, counted: nat, cancelled: nat, refused: bool)

  datatype State = State(main: Main, conns: seq<Conn>, ledger: Ledger)

  datatype Config = Config(timeouts: Timeouts, drain: nat)

  function Init(): State {
    State(Main(0, Serving, true, false, Channel(0, false, true), 0, {}, false, 0, 0), [], Ledger([], 0, 0, 0, false))
  }

  // ----- Steps of the accept loop -----

  /** The signal arm, up to and including the first store. */
  function TakeSignal(m: Main): Main {
    m.(phase := Unready, ready := false, signalAt := m.clock)
  }

  /** The second store, and the arming of the window timer. */
  function OpenWindow(m: Main): Main {
    m.(phase := Window(m.clock + READINESS_DRAIN_WINDOW_MILLIS), shuttingDown := true)
  }

  /** A new task subscribes to the channel and joins the set. */
  function Admit(m: Main, id: nat): Main {
    m.(receivers := m.receivers + 1, joinSet := m.joinSet + {id})
  }

  function StopAccepting(m: Main): Main {
    m.(phase := Broadcasting, stoppedAt := m.clock)
  }

  /** Sends `true`, which fails and changes nothing when nobody is subscribed; then arms the drain timeout. */
  function Broadcast(m: Main, drain: nat): Main {
    var sent := if m.receivers == 0 then m.(sendFailed := true)
                else m.(channel := m.channel.(version := m.channel.version + 1, value := true));
    sent.(phase := Draining(m.clock + drain))
  }

  function Joined(m: Main, id: nat): Main {
    m.(joinSet := m.joinSet - {id})
  }

  /** Returning drops the only sender. */
  function Return(m: Main): Main {
    m.(phase := Returned, channel := m.channel.(senderAlive := false))
  }

  function AbortAll(conns: seq<Conn>, ids: set<nat>): seq<Conn> {
    seq(|conns|, i requires 0 <= i < |conns| => conns[i].(aborted := conns[i].aborted || i in ids))
  }

  // ----- Steps of connections and requests -----

  function NewConn(m: Main, timeouts: Timeouts): Conn {
    Conn(StartTask(m.clock, timeouts, m.channel), false, Past(m.clock, m.clock, {}, None))
  }

  /** A read or a write of some bytes leaves a permit; an empty one does nothing. */
  function Moved(c: Conn, now: nat, bytes: nat): Conn {
    if bytes == 0 then c
    else c.(task := c.task.(permit := true), past := c.past.(last := now, moved := c.past.moved + {now}))
  }

  function Iterated(c: Conn, arm: Arm, m: Main, timeouts: Timeouts): Conn {
    var idle := arm == DeadlineReached && !c.task.shuttingDown;
    c.(task := TakeArm(c.task, arm, m.clock, m.channel, timeouts),
       past := if idle then c.past.(idleClosed := Some(m.clock)) else c.past)
  }

  predicate Running(r: Request) {
    r.stage.Waiting? || r.stage.Answered?
  }

  /** The requests once the handlers of a connection are dropped. */
  function DropHandlers(requests: seq<Request>, conn: nat): seq<Request> {
    if requests == [] then []
    else
      var r := requests[|requests| - 1];
      DropHandlers(requests[..|requests| - 1], conn)
        + [if Running(r) && r.conn == conn then r.(stage := Cancelled) else r]
  }

  /** How many handlers a connection holds. */
  function Held(requests: seq<Request>, conn: nat): nat {
    if requests == [] then 0
    else
      var r := requests[|requests| - 1];
      Held(requests[..|requests| - 1], conn) + if Running(r) && r.conn == conn then 1 else 0
  }

  /** Dropping a connection drops its handlers, and the guard of each leaves the gauge. */
  function DropConnection(l: Ledger, conn: nat): Ledger {
    var held := Held(l.requests, conn);
    l.(requests := DropHandlers(l.requests, conn), gauge := l.gauge - held, cancelled := l.cancelled + held)
  }

  /** The connection `c` takes the place of `id`; if it has ended, its receiver and its handlers go. */
  function Replace(s: State, id: nat, c: Conn): State
    requires id < |s.conns|
  {
    var next := s.(conns := s.conns[id := c]);
    if c.task.finished && !s.conns[id].task.finished then
      next.(main := s.main.(receivers := s.main.receivers - 1), ledger := DropConnection(s.ledger, id))
    else next
  }

  function Begin(l: Ledger, conn: nat, verb: Verb, path: ByteString): Ledger {
    l.(requests := l.requests + [Request(conn, verb, path, l.refused, Waiting)], gauge := l.gauge + 1)
  }

  /** The drain check turned the request away: it got 503, and not from the readiness probe. */
  predicate IsRefusal(path: ByteString, routed: Routed) {
    path != READYZ && routed.outcome.response.status == SERVICE_UNAVAILABLE
  }

  /** The request loads its flag, which settles its answer from the content that it finds. */
  function Answer(l: Ledger, r: nat, m: Main, site: Site): Ledger
    requires r < |l.requests| && ValidTree(site.fs)
  {
    var q := l.requests[r];
    var routed := Route(site, m.ready, m.shuttingDown, q.verb, q.path);
    l.(requests := l.requests[r := q.(stage := Answered(routed))],
       refused := l.refused || IsRefusal(q.path, routed))
  }

  /** The handler finishes its guard and counts the request. */
  function Finish(l: Ledger, r: nat): Ledger
    requires r < |l.requests| && l.requests[r].stage.Answered?
  {
    var q := l.requests[r];
    l.(requests := l.requests[r := q.(stage := Counted(q.stage.routed))],
       gauge := l.gauge - 1,
       counted := l.counted + 1)
  }

  /** The handler is dropped before it finished. */
  function Cancel(l: Ledger, r: nat): Ledger
    requires r < |l.requests|
  {
    l.(requests := l.requests[r := l.requests[r].(stage := Cancelled)],
       gauge := l.gauge - 1,
       cancelled := l.cancelled + 1)
  }

  // ----- Events -----

  datatype Event =
    | SignalArm
    | StoreShuttingDown
    | AcceptOk
    | AcceptErr
    | WindowArm
    | Send
    | Join(id: nat)
    | DrainDone
    | DrainTimeout
    | Io(id: nat, bytes: nat)
    | LoopArm(id: nat, arm: Arm)
    | AbortEnd(id: nat)
    | RequestStart(id: nat, verb: Verb, path: ByteString)
    | RequestAnswer(r: nat, site: Site)
    | RequestFinish(r: nat)
    | RequestCancel(r: nat)
    | Tick(elapsed: nat)

  predicate OfConnection(e: Event) {
    e.Io? || e.LoopArm? || e.AbortEnd?
  }

  predicate OfRequest(e: Event) {
    e.RequestStart? || e.RequestAnswer? || e.RequestFinish? || e.RequestCancel?
  }

  predicate Accepting(p: Phase) {
    p.Serving? || p.Window?
  }

  predicate Live(c: Conn) {
    !c.task.finished
  }

  ghost predicate Enabled(s: State, e: Event) {
    var m := s.main;
    match e
    case SignalArm => m.phase.Serving?
    case StoreShuttingDown => m.phase.Unready?
    case AcceptOk => Accepting(m.phase)
    case AcceptErr => Accepting(m.phase)
    case WindowArm => m.phase.Window? && m.phase.until <= m.clock
    case Send => m.phase.Broadcasting?
    case Join(id) =>
      (m.phase.Draining? || m.phase.Aborting?) && id in m.joinSet && id < |s.conns| && !Live(s.conns[id])
    case DrainDone => (m.phase.Draining? || m.phase.Aborting?) && m.joinSet == {}
    case DrainTimeout => m.phase.Draining? && m.phase.until <= m.clock
    case Io(id, _) => id < |s.conns| && Live(s.conns[id])
    case LoopArm(id, arm) => id < |s.conns| && ArmReady(s.conns[id].task, arm, m.clock, m.channel)
    case AbortEnd(id) => id < |s.conns| && Live(s.conns[id]) && s.conns[id].aborted
    case RequestStart(id, _, _) => id < |s.conns| && Live(s.conns[id])
    case RequestAnswer(r, site) =>
      r < |s.ledger.requests| && s.ledger.requests[r].stage.Waiting? && ValidTree(site.fs)
    case RequestFinish(r) => r < |s.ledger.requests| && s.ledger.requests[r].stage.Answered?
    case RequestCancel(r) => r < |s.ledger.requests| && Running(s.ledger.requests[r])
    case Tick(_) => true
  }

  /** A step of the accept loop, or of the clock. */
  function LoopStep(cfg: Config, s: State, e: Event): State
    requires !OfConnection(e) && !OfRequest(e)
  {
    var m := s.main;
    match e
    case SignalArm => s.(main := TakeSignal(m))
    case StoreShuttingDown => s.(main := OpenWindow(m))
    case AcceptOk => s.(main := Admit(m, |s.conns|), conns := s.conns + [NewConn(m, cfg.timeouts)])
    case AcceptErr => s
    case WindowArm => s.(main := StopAccepting(m))
    case Send => s.(main := Broadcast(m, cfg.drain))
    case Join(id) => s.(main := Joined(m, id))
    case DrainDone => s.(main := Return(m))
    case DrainTimeout => s.(main := m.(phase := Aborting), conns := AbortAll(s.conns, m.joinSet))
    case Tick(elapsed) => s.(main := m.(clock := m.clock + elapsed))
  }

  /** A step of one connection: bytes move, an arm of its loop is taken, or it ends because it was aborted. */
  function ConnectionStep(cfg: Config, s: State, e: Event): State
    requires OfConnection(e) && e.id < |s.conns|
  {
    var c := s.conns[e.id];
    match e
    case Io(id, bytes) => Replace(s, id, Moved(c, s.main.clock, bytes))
    case LoopArm(id, arm) => Replace(s, id, Iterated(c, arm, s.main, cfg.timeouts))
    case AbortEnd(id) => Replace(s, id, c.(task := c.task.(finished := true)))
  }

  /** A step of one request. */
  function RequestStep(s: State, e: Event): State
    requires OfRequest(e) && Enabled(s, e)
  {
    match e
    case RequestStart(id, verb, path) => s.(ledger := Begin(s.ledger, id, verb, path))
    case RequestAnswer(r, site) => s.(ledger := Answer(s.ledger, r, s.main, site))
    case RequestFinish(r) => s.(ledger := Finish(s.ledger, r))
    case RequestCancel(r) => s.(ledger := Cancel(s.ledger, r))
  }

  function Step(cfg: Config, s: State, e: Event): State
    requires Enabled(s, e)
  {
    if OfConnection(e) then ConnectionStep(cfg, s, e)
    else if OfRequest(e) then RequestStep(s, e)
    else LoopStep(cfg, s, e)
  }

  // ----- Runs -----

  /** The events are enabled one after the other, from the start of the server. */
  ghost predicate IsRun(cfg: Config, es: seq<Event>)
    decreases |es|, 0
  {
    es == [] || (IsRun(cfg, Front(es)) && Enabled(After(cfg, Front(es)), es[|es| - 1]))
  }

  /** The state a run ends in. */
  ghost function After(cfg: Config, es: seq<Event>): State
    requires IsRun(cfg, es)
    decreases |es|, 1
  {
    if es == [] then Init() else Step(cfg, After(cfg, Front(es)), es[|es| - 1])
  }

  function Front(es: seq<Event>): seq<Event>
    requires es != []
  {
    es[..|es| - 1]
  }

  lemma {:induction false} PrefixIsRun(cfg: Config, es: seq<Event>, i: nat)
    requires IsRun(cfg, es) && i <= |es|
    ensures IsRun(cfg, es[..i])
    decreases |es|
  {
    if i == |es| {
      assert es[..i] == es;
    } else {
      PrefixIsRun(cfg, Front(es), i);
      assert Front(es)[..i] == es[..i];
    }
  }

  lemma RunStep(cfg: Config, es: seq<Event>, i: nat)
    requires IsRun(cfg, es) && i < |es|
    ensures IsRun(cfg, es[..i]) && IsRun(cfg, es[..i + 1])
    ensures Enabled(After(cfg, es[..i]), es[i])
    ensures After(cfg, es[..i + 1]) == Step(cfg, After(cfg, es[..i]), es[i])
  {
    PrefixIsRun(cfg, es, i + 1);
    assert Front(es[..i + 1]) == es[..i];
  }
}
