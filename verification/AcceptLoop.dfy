/** The accept loop as an object: its select arms, the broadcast and the two drains change its fields in place. */
module AcceptLoop {
  import opened Errors
  import opened Connection
  import opened FileTree
  import opened Handler
  import opened Server

  /** The shutdown channel with its one sender: a value, its version, and the number of receivers. */
  class WatchChannel {
    var version: nat
    var value: bool
    var receivers: int
    var senderAlive: bool

    ghost function View(): Channel
      reads this
    {
      Channel(version, value, senderAlive)
    }

    constructor ()
      ensures View() == Channel(0, false, true) && receivers == 0
    {
      version := 0;
      value := false;
      receivers := 0;
      senderAlive := true;
    }

    method Subscribe()
      modifies this`receivers
      ensures receivers == old(receivers) + 1
    {
      receivers := receivers + 1;
    }

    /** A receiver is dropped with the task that holds it. */
    method Unsubscribe()
      modifies this`receivers
      ensures receivers == old(receivers) - 1
    {
      receivers := receivers - 1;
    }

    /** Sending without a receiver fails and leaves the value as it is. */
    method Send(newValue: bool) returns (ok: bool)
      modifies this`version, this`value
      ensures ok == (receivers != 0)
      ensures View() == if ok then Channel(old(version) + 1, newValue, senderAlive) else old(View())
    {
      ok := receivers != 0;
      if ok {
        version := version + 1;
        value := newValue;
      }
    }

    method Drop()
      modifies this`senderAlive
      ensures !senderAlive
    {
      senderAlive := false;
    }
  }

  ghost predicate NoDuplicates<T>(s: seq<T>) {
    forall i, j :: 0 <= i < j < |s| ==> s[i] != s[j]
  }

  lemma AppendDistinct<T>(s: seq<T>, t: seq<T>)
    requires NoDuplicates(s) && NoDuplicates(t) && forall x :: x in s ==> x !in t
    ensures NoDuplicates(s + t)
    ensures forall x :: x in s + t <==> x in s || x in t
  {
    forall i, j | 0 <= i < j < |s + t| ensures (s + t)[i] != (s + t)[j] {
      if i < |s| <= j {
        assert s[i] in s && t[j - |s|] in t;
      }
    }
  }

  class Acceptor {
    const state: AppState
    const channel: WatchChannel
    const timeouts: Timeouts
    const drain: nat
    var connections: set<nat>
    var aborted: set<nat>
    var accepted: nat
    var phase: Phase
    var sendFailed: bool
    var signalAt: nat
    var stoppedAt: nat

    /** The accept loop's part of the transition system's state, at a given time. */
    ghost function View(clock: nat): Main
      reads this, state, channel
    {
      Main(clock, phase, state.ready, state.shuttingDown, channel.View(), channel.receivers, connections,
           sendFailed, signalAt, stoppedAt)
    }

    /** The object is where the accept loop of `s` is, has spawned its tasks, and has aborted those that are aborted. */
    ghost predicate Shows(s: State)
      reads this, state, channel
    {
      && View(s.main.clock) == s.main
      && accepted == |s.conns|
      && (forall id: nat :: id in connections ==> id < accepted)
      && (forall id: nat :: id in aborted <==> id < |s.conns| && s.conns[id].aborted)
    }

    constructor (contentRoot: Option<Path>, timeouts: Timeouts, drain: nat)
      ensures Shows(Init()) && aborted == {} && fresh(state) && fresh(channel)
      ensures this.timeouts == timeouts && this.drain == drain && state.contentRoot == contentRoot
    {
      state := new AppState(contentRoot);
      channel := new WatchChannel();
      this.timeouts := timeouts;
      this.drain := drain;
      connections := {};
      aborted := {};
      accepted := 0;
      phase := Serving;
      sendFailed := false;
      signalAt := 0;
      stoppedAt := 0;
    }

    /** The signal arm up to its first store. */
    method StoreNotReady(now: nat)
      requires phase.Serving?
      modifies this`phase, this`signalAt, state`ready
      ensures View(now) == TakeSignal(old(View(now)))
    {
      signalAt := now;
      state.MarkNotReady();
      phase := Unready;
    }

    /** The rest of the signal arm: the second store, and the window timer. */
    method StoreDraining(now: nat)
      requires phase.Unready?
      modifies this`phase, state`shuttingDown
      ensures View(now) == OpenWindow(old(View(now)))
    {
      state.MarkShuttingDown();
      phase := Window(now + READINESS_DRAIN_WINDOW_MILLIS);
    }

    /** The signal arm: the two stores in order, then the window timer. */
    method OnSignal(now: nat)
      requires phase.Serving?
      modifies this`phase, this`signalAt, state`ready, state`shuttingDown
      ensures View(now) == OpenWindow(TakeSignal(old(View(now))))
    {
      StoreNotReady(now);
      StoreDraining(now);
    }

    /** The accept arm: a failure is only logged; a success spawns a subscribed task. */
    method OnAccept(now: nat, ok: bool) returns (task: ConnectionTask?)
      requires Accepting(phase)
      modifies this`connections, this`accepted, channel`receivers
      ensures !ok ==> task == null && View(now) == old(View(now)) && accepted == old(accepted)
      ensures ok ==> task != null && fresh(task)
                     && View(now) == Admit(old(View(now)), old(accepted))
                     && accepted == old(accepted) + 1
                     && task.View() == NewConn(old(View(now)), timeouts).task
    {
      if !ok {
        return null;
      }
      var seen := Channel(channel.version, channel.value, channel.senderAlive);
      channel.Subscribe();
      task := new ConnectionTask(now, timeouts, seen);
      connections := connections + {accepted};
      accepted := accepted + 1;
    }

    /** The window arm leaves the loop. */
    method OnWindow(now: nat)
      requires phase.Window? && phase.until <= now
      modifies this`phase, this`stoppedAt
      ensures View(now) == StopAccepting(old(View(now)))
    {
      stoppedAt := now;
      phase := Broadcasting;
    }

    /** The broadcast, and the arming of the drain timeout. */
    method OnBroadcast(now: nat)
      requires phase.Broadcasting?
      modifies this`phase, this`sendFailed, channel`version, channel`value
      ensures View(now) == Broadcast(old(View(now)), drain)
    {
      var ok := channel.Send(true);
      if !ok {
        sendFailed := true;
      }
      phase := Draining(now + drain);
    }

    /** The drain timeout aborts the tasks that are left, and not before its time. */
    method OnDrainTimeout(now: nat)
      requires phase.Draining? && phase.until <= now
      modifies this`phase, this`aborted
      ensures View(now) == old(View(now)).(phase := Aborting)
      ensures aborted == old(aborted) + connections
    {
      phase := Aborting;
      aborted := aborted + connections;
    }

    /** Either drain is over once nothing is left to join. */
    method OnDrained(now: nat)
      requires (phase.Draining? || phase.Aborting?) && connections == {}
      modifies this`phase, channel`senderAlive
      ensures View(now) == Return(old(View(now)))
    {
      phase := Returned;
      channel.Drop();
    }

    /** Joins tasks in whatever order they end, until those that end are all joined. */
    method DrainConnections(ending: set<nat>) returns (joined: seq<nat>)
      requires ending <= connections
      modifies this`connections
      ensures connections == old(connections) - ending
      ensures NoDuplicates(joined)
      ensures forall id :: id in joined <==> id in ending
    {
      joined := [];
      var left := ending;
      while left != {}
        invariant left <= ending
        invariant connections == old(connections) - (ending - left)
        invariant NoDuplicates(joined)
        invariant forall id :: id in joined <==> id in ending - left
        decreases left
      {
        var id :| id in left;
        connections := connections - {id};
        joined := joined + [id];
        left := left - {id};
      }
    }

    /**
     Everything after the accept loop: the broadcast, the timed drain of the tasks that end in time, and
     for the others, no earlier than the drain timeout, the abort and the second drain. Every task is
     joined exactly once.
     */
    method Close(now: nat, inTime: set<nat>, end: nat) returns (joined: seq<nat>)
      requires phase.Broadcasting? && inTime <= connections
      requires inTime != connections ==> now + drain <= end
      modifies this`phase, this`sendFailed, this`connections, this`aborted,
               channel`version, channel`value, channel`senderAlive
      ensures NoDuplicates(joined)
      ensures forall id :: id in joined <==> id in old(connections)
      ensures aborted == old(aborted) + (old(connections) - inTime)
      ensures View(end) == Return(Broadcast(old(View(now)), drain).(clock := end, joinSet := {}))
    {
      ghost var all := connections;
      OnBroadcast(now);
      joined := DrainConnections(inTime);
      assert forall id :: id in all <==> id in inTime || id in connections;
      if connections != {} {
        OnDrainTimeout(end);
        var rest := DrainConnections(connections);
        AppendDistinct(joined, rest);
        joined := joined + rest;
      }
      OnDrained(end);
    }

    /** One step of the accept loop itself, or a tick of the clock. */
    method Take(e: Event, now: nat, ghost cfg: Config, ghost s: State) returns (later: nat)
      requires cfg == Config(timeouts, drain) && Shows(s) && now == s.main.clock
      requires Enabled(s, e) && !OfConnection(e) && !OfRequest(e)
      modifies this`phase, this`connections, this`aborted, this`accepted
      modifies this`sendFailed, this`signalAt, this`stoppedAt
      modifies state`ready, state`shuttingDown
      modifies channel`version, channel`value, channel`receivers, channel`senderAlive
      ensures later == LoopStep(cfg, s, e).main.clock && Shows(LoopStep(cfg, s, e))
    {
      later := now;
      match e
      case SignalArm => StoreNotReady(now);
      case StoreShuttingDown => StoreDraining(now);
      case AcceptOk => var _ := OnAccept(now, true);
      case AcceptErr => var _ := OnAccept(now, false);
      case WindowArm => OnWindow(now);
      case Send => OnBroadcast(now);
      case Join(id) => connections := connections - {id};
      case DrainDone => OnDrained(now);
      case DrainTimeout => OnDrainTimeout(now);
      case Tick(elapsed) => later := now + elapsed;
    }

    /** One step of the server as far as the accept loop notices it. */
    method Act(notice: Notice, now: nat, ghost cfg: Config, ghost s: State, ghost e: Event) returns (later: nat)
      requires cfg == Config(timeouts, drain) && Shows(s) && now == s.main.clock
      requires Enabled(s, e) && notice == Noticed(cfg, s, e)
      modifies this`phase, this`connections, this`aborted, this`accepted
      modifies this`sendFailed, this`signalAt, this`stoppedAt
      modifies state`ready, state`shuttingDown
      modifies channel`version, channel`value, channel`receivers, channel`senderAlive
      ensures later == Step(cfg, s, e).main.clock && Shows(Step(cfg, s, e))
    {
      StepNoticed(cfg, s, e);
      later := now;
      match notice
      case Took(own) => later := Take(own, now, cfg, s);
      case Dropped => channel.Unsubscribe();
      case Nothing =>
    }

    /**
     The whole life of the accept loop, in any run of the server: given only what it notices of the run,
     the object ends where the run does, with the same tasks spawned, left to join, and aborted.
     */
    method Run(notices: seq<Notice>, ghost cfg: Config, ghost es: seq<Event>) returns (now: nat)
      requires cfg == Config(timeouts, drain) && Shows(Init())
      requires IsRun(cfg, es) && notices == NoticedIn(cfg, es)
      modifies this`phase, this`connections, this`aborted, this`accepted
      modifies this`sendFailed, this`signalAt, this`stoppedAt
      modifies state`ready, state`shuttingDown
      modifies channel`version, channel`value, channel`receivers, channel`senderAlive
      ensures now == After(cfg, es).main.clock && Shows(After(cfg, es))
    {
      now := 0;
      hide Step, Enabled, Noticed, Shows, Init;
      NoticesAreOfSteps(cfg, es);
      assert es[..0] == [];
      for i := 0 to |notices|
        invariant IsRun(cfg, es[..i]) && now == After(cfg, es[..i]).main.clock && Shows(After(cfg, es[..i]))
      {
        RunStep(cfg, es, i);
        now := Act(notices[i], now, cfg, After(cfg, es[..i]), es[i]);
      }
      assert es[..|es|] == es;
    }
  }

  /** What the accept loop notices of a step: that it is its own, or that a receiver is dropped, if anything. */
  datatype Notice = Took(e: Event) | Dropped | Nothing

  ghost function Noticed(cfg: Config, s: State, e: Event): Notice
    requires Enabled(s, e)
  {
    if OfRequest(e) then Nothing
    else if !OfConnection(e) then Took(e)
    else if Live(Step(cfg, s, e).conns[e.id]) then Nothing
    else Dropped
  }

  ghost function NoticedIn(cfg: Config, es: seq<Event>): seq<Notice>
    requires IsRun(cfg, es)
    decreases |es|
  {
    if es == [] then []
    else NoticedIn(cfg, Front(es)) + [Noticed(cfg, After(cfg, Front(es)), es[|es| - 1])]
  }

  lemma {:induction false} NoticesAreOfSteps(cfg: Config, es: seq<Event>)
    requires IsRun(cfg, es)
    ensures |NoticedIn(cfg, es)| == |es|
    ensures forall i :: 0 <= i < |es| ==>
              && IsRun(cfg, es[..i]) && Enabled(After(cfg, es[..i]), es[i])
              && NoticedIn(cfg, es)[i] == Noticed(cfg, After(cfg, es[..i]), es[i])
    decreases |es|
  {
    hide Step, Enabled, Noticed;
    if es != [] {
      var front := Front(es);
      NoticesAreOfSteps(cfg, front);
      forall i | 0 <= i < |es|
        ensures IsRun(cfg, es[..i]) && Enabled(After(cfg, es[..i]), es[i])
        ensures NoticedIn(cfg, es)[i] == Noticed(cfg, After(cfg, es[..i]), es[i])
      {
        if i < |front| {
          assert front[..i] == es[..i] && front[i] == es[i];
        }
      }
    }
  }

  /** What a step changes of all that the object shows, from what is noticed of it. */
  lemma StepNoticed(cfg: Config, s: State, e: Event)
    requires Enabled(s, e)
    ensures var t := Step(cfg, s, e);
            match Noticed(cfg, s, e) {
              case Took(own) => own == e && !OfConnection(e) && !OfRequest(e) && t == LoopStep(cfg, s, e)
              case Dropped => t.main == s.main.(receivers := s.main.receivers - 1) && SameAborts(s.conns, t.conns)
              case Nothing => t.main == s.main && SameAborts(s.conns, t.conns)
            }
  {
  }

  ghost predicate SameAborts(conns: seq<Conn>, next: seq<Conn>) {
    |next| == |conns| && forall id :: 0 <= id < |conns| ==> next[id].aborted == conns[id].aborted
  }

  /** The object's two-store arm is two enabled steps of the transition system, taken one right after the other. */
  lemma SignalArmIsTwoSteps(cfg: Config, s: State)
    requires s.main.phase.Serving?
    ensures Enabled(s, SignalArm) && Enabled(Step(cfg, s, SignalArm), StoreShuttingDown)
    ensures Step(cfg, Step(cfg, s, SignalArm), StoreShuttingDown) == s.(main := OpenWindow(TakeSignal(s.main)))
  {
  }
}
