/** Byte activity on one connection, and the task that serves it until it is done, idle or told to close. */
module Connection {
  import opened ByteStrings

  // ----- Activity -----

  /** A notification that keeps at most one permit. */
  class Notify {
    var permit: bool

    constructor ()
      ensures !permit
    {
      permit := false;
    }

    method NotifyOne()
      modifies this
      ensures permit
    {
      permit := true;
    }
  }

  datatype Poll<+T> = Pending | Ready(value: T)

  datatype IoResult<+T> = Done(result: T) | Failed

  /** A read buffer; the bytes that were read so far. */
  class ReadBuf {
    var filled: ByteString

    constructor ()
      ensures filled == []
    {
      filled := [];
    }
  }

  /** The wrapped stream: the answers it will give to reads and to writes, one for each poll. */
  class Transport {
    var readAnswers: seq<Poll<IoResult<ByteString>>>
    var writeAnswers: seq<Poll<IoResult<nat>>>

    constructor (readAnswers: seq<Poll<IoResult<ByteString>>>, writeAnswers: seq<Poll<IoResult<nat>>>)
      ensures this.readAnswers == readAnswers && this.writeAnswers == writeAnswers
    {
      this.readAnswers := readAnswers;
      this.writeAnswers := writeAnswers;
    }

    method PollRead(buf: ReadBuf) returns (answer: Poll<IoResult<()>>)
      modifies this`readAnswers, buf
      ensures readAnswers == Rest(old(readAnswers))
      ensures answer == Outcome(Next(old(readAnswers)))
      ensures buf.filled == old(buf.filled) + Received(Next(old(readAnswers)))
    {
      var next := Next(readAnswers);
      readAnswers := Rest(readAnswers);
      buf.filled := buf.filled + Received(next);
      answer := Outcome(next);
    }

    method PollWrite() returns (answer: Poll<IoResult<nat>>)
      modifies this`writeAnswers
      ensures writeAnswers == Rest(old(writeAnswers)) && answer == Next(old(writeAnswers))
    {
      answer := Next(writeAnswers);
      writeAnswers := Rest(writeAnswers);
    }
  }

  function Next<T>(answers: seq<Poll<T>>): Poll<T> {
    if answers == [] then Pending else answers[0]
  }

  function Rest<T>(answers: seq<Poll<T>>): seq<Poll<T>> {
    if answers == [] then [] else answers[1..]
  }

  function Received(answer: Poll<IoResult<ByteString>>): ByteString {
    if answer.Ready? && answer.value.Done? then answer.value.result else []
  }

  function Outcome(answer: Poll<IoResult<ByteString>>): Poll<IoResult<()>> {
    match answer
    case Pending => Pending
    case Ready(Failed) => Ready(Failed)
    case Ready(Done(_)) => Ready(Done(()))
  }

  function Written(answer: Poll<IoResult<nat>>): nat {
    if answer.Ready? && answer.value.Done? then answer.value.result else 0
  }

  /** Passes reads and writes through, and leaves a permit exactly when bytes went by. */
  class ActivityIo {
    const inner: Transport
    const activity: Notify

    constructor (inner: Transport, activity: Notify)
      ensures this.inner == inner && this.activity == activity
    {
      this.inner := inner;
      this.activity := activity;
    }

    method PollRead(buf: ReadBuf) returns (answer: Poll<IoResult<()>>)
      modifies inner`readAnswers, buf, activity
      ensures inner.readAnswers == Rest(old(inner.readAnswers))
      ensures answer == Outcome(Next(old(inner.readAnswers)))
      ensures buf.filled == old(buf.filled) + Received(Next(old(inner.readAnswers)))
      ensures activity.permit <==> old(activity.permit) || |buf.filled| > |old(buf.filled)|
    {
      var filledBefore := |buf.filled|;
      answer := inner.PollRead(buf);
      match answer
      case Ready(Done(_)) =>
        if |buf.filled| > filledBefore {
          activity.NotifyOne();
        }
      case _ =>
    }

    method PollWrite() returns (answer: Poll<IoResult<nat>>)
      modifies inner`writeAnswers, activity
      ensures inner.writeAnswers == Rest(old(inner.writeAnswers)) && answer == Next(old(inner.writeAnswers))
      ensures activity.permit <==> old(activity.permit) || Written(answer) > 0
    {
      answer := inner.PollWrite();
      match answer
      case Ready(Done(written)) =>
        if written > 0 {
          activity.NotifyOne();
        }
      case _ =>
    }

    method PollWriteVectored() returns (answer: Poll<IoResult<nat>>)
      modifies inner`writeAnswers, activity
      ensures inner.writeAnswers == Rest(old(inner.writeAnswers)) && answer == Next(old(inner.writeAnswers))
      ensures activity.permit <==> old(activity.permit) || Written(answer) > 0
    {
      answer := inner.PollWrite();
      match answer
      case Ready(Done(written)) =>
        if written > 0 {
          activity.NotifyOne();
        }
      case _ =>
    }
  }

  // ----- The shutdown channel as a receiver sees it -----

  datatype Channel = Channel(version: nat, value: bool, senderAlive: bool)

  // ----- One connection task -----

  /** The local state of a connection task, with the permit and the graceful-close requests it has made. */
  datatype Task = Task(
    deadline: nat,
    shuttingDown: bool,
    permit: bool,
    seen: nat,
    closeRequests: nat,
    finished: bool)

  /** The timeouts of a connection. */
  datatype Timeouts = Timeouts(idle: nat, graceful: nat)

  function StartTask(now: nat, timeouts: Timeouts, channel: Channel): Task {
    Task(now + timeouts.idle, false, false, channel.version, 0, false)
  }

  /** The arms of the task's select loop. */
  datatype Arm = ConnectionDone | DeadlineReached | ShutdownChanged | ActivityNotified

  predicate ArmReady(task: Task, arm: Arm, now: nat, channel: Channel) {
    && !task.finished
    && match arm
       case ConnectionDone => true
       case DeadlineReached => task.deadline <= now
       case ShutdownChanged => !task.shuttingDown && (task.seen != channel.version || !channel.senderAlive)
       case ActivityNotified => !task.shuttingDown && task.permit
  }

  /** Requests a graceful close and gives it a last deadline. */
  function BeginClose(task: Task, now: nat, timeouts: Timeouts): Task {
    task.(shuttingDown := true, closeRequests := task.closeRequests + 1, deadline := now + timeouts.graceful)
  }

  function TakeArm(task: Task, arm: Arm, now: nat, channel: Channel, timeouts: Timeouts): Task {
    match arm
    case ConnectionDone => task.(finished := true)
    case DeadlineReached => if task.shuttingDown then task.(finished := true) else BeginClose(task, now, timeouts)
    case ShutdownChanged =>
      if task.seen != channel.version then
        if channel.value then BeginClose(task.(seen := channel.version), now, timeouts)
        else task.(seen := channel.version)
      else BeginClose(task, now, timeouts)
    case ActivityNotified => task.(permit := false, deadline := now + timeouts.idle)
  }

  /** The task is as it was, but has been told to close, once more, with the graceful timeout from `now` on. */
  ghost predicate ToldToClose(was: Task, task: Task, now: nat, timeouts: Timeouts) {
    && task.shuttingDown
    && task.closeRequests == was.closeRequests + 1
    && task.deadline == now + timeouts.graceful
    && !task.finished
    && task.permit == was.permit
  }

  /**
   What each arm does to a task that is not closing: idleness, a broadcast `true` and a closed channel
   close it; a change that still reads `false` is only noted; activity uses up the permit and gives the
   whole idle timeout anew; and a connection that is done ends. A closing task is ended by either arm
   that is left to it.
   */
  lemma ArmsTakeEffect(task: Task, now: nat, channel: Channel, timeouts: Timeouts, arm: Arm)
    requires ArmReady(task, arm, now, channel)
    ensures var next := TakeArm(task, arm, now, channel, timeouts);
            && (arm.ConnectionDone? || task.shuttingDown ==> next == task.(finished := true))
            && (!task.shuttingDown ==>
                  && (arm.DeadlineReached? ==> ToldToClose(task, next, now, timeouts) && next.seen == task.seen)
                  && (arm.ActivityNotified? ==> next == task.(permit := false, deadline := now + timeouts.idle))
                  && (arm.ShutdownChanged? ==>
                        && next.seen == channel.version
                        && if task.seen != channel.version && !channel.value
                           then next == task.(seen := channel.version)
                           else ToldToClose(task, next, now, timeouts)))
  {
  }

  /** The serving task as an object; its arms change its fields in place. */
  class ConnectionTask {
    const timeouts: Timeouts
    const activity: Notify
    var deadline: nat
    var shuttingDown: bool
    var seen: nat
    var closeRequests: nat
    var finished: bool

    ghost function View(): Task
      reads this, activity
    {
      Task(deadline, shuttingDown, activity.permit, seen, closeRequests, finished)
    }

    constructor (now: nat, timeouts: Timeouts, channel: Channel)
      ensures View() == StartTask(now, timeouts, channel)
      ensures this.timeouts == timeouts && fresh(activity)
    {
      this.timeouts := timeouts;
      activity := new Notify();
      deadline := now + timeouts.idle;
      shuttingDown := false;
      seen := channel.version;
      closeRequests := 0;
      finished := false;
    }

    method GracefulShutdown(now: nat)
      modifies this
      ensures View() == BeginClose(old(View()), now, timeouts)
    {
      closeRequests := closeRequests + 1;
      shuttingDown := true;
      deadline := now + timeouts.graceful;
    }

    /** One iteration of the loop, with the arm that the scheduler picked among the ready ones. */
    method Iterate(arm: Arm, now: nat, channel: Channel)
      requires ArmReady(View(), arm, now, channel)
      modifies this, activity
      ensures View() == TakeArm(old(View()), arm, now, channel, timeouts)
    {
      match arm
      case ConnectionDone =>
        finished := true;
      case DeadlineReached =>
        if shuttingDown {
          finished := true;
        } else {
          GracefulShutdown(now);
        }
      case ShutdownChanged =>
        if seen != channel.version {
          seen := channel.version;
          if channel.value {
            GracefulShutdown(now);
          }
        } else {
          GracefulShutdown(now);
        }
      case ActivityNotified =>
        activity.permit := false;
        deadline := now + timeouts.idle;
    }

    /** The loop, over the iterations that a scheduler makes, until the connection ends or the schedule does. */
    method Serve(schedule: seq<Turn>)
      requires CanTake(View(), schedule, timeouts)
      modifies this, activity
      ensures View() == TakeAll(old(View()), schedule, timeouts)
    {
      ghost var start := View();
      for i := 0 to |schedule|
        invariant CanTake(View(), schedule[i..], timeouts)
        invariant TakeAll(View(), schedule[i..], timeouts) == TakeAll(start, schedule, timeouts)
      {
        var turn := schedule[i];
        assert schedule[i..][0] == turn && schedule[i..][1..] == schedule[i + 1..];
        if turn.active {
          activity.NotifyOne();
        }
        Iterate(turn.arm, turn.now, turn.channel);
      }
    }
  }

  /** An iteration: whether bytes moved since the last one, the arm taken, and when. */
  datatype Turn = Turn(active: bool, arm: Arm, now: nat, channel: Channel)

  function Touched(task: Task, active: bool): Task {
    if active then task.(permit := true) else task
  }

  predicate CanTake(task: Task, schedule: seq<Turn>, timeouts: Timeouts)
    decreases |schedule|
  {
    schedule == [] ||
    var turn := schedule[0];
    var touched := Touched(task, turn.active);
    && ArmReady(touched, turn.arm, turn.now, turn.channel)
    && CanTake(TakeArm(touched, turn.arm, turn.now, turn.channel, timeouts), schedule[1..], timeouts)
  }

  function TakeAll(task: Task, schedule: seq<Turn>, timeouts: Timeouts): Task
    decreases |schedule|
  {
    if schedule == [] then task
    else
      var turn := schedule[0];
      TakeAll(TakeArm(Touched(task, turn.active), turn.arm, turn.now, turn.channel, timeouts), schedule[1..], timeouts)
  }

  /**
   Once a task is closing, its deadline is final and it asks for no second close, whatever its
   schedule; and it takes at most one more iteration, which ends it.
   */
  lemma {:induction false} ClosingIsFinal(task: Task, schedule: seq<Turn>, timeouts: Timeouts)
    requires task.shuttingDown && CanTake(task, schedule, timeouts)
    ensures var end := TakeAll(task, schedule, timeouts);
            && end.shuttingDown && end.deadline == task.deadline && end.closeRequests == task.closeRequests
            && |schedule| <= 1
            && (|schedule| == 1 ==> end.finished)
  {
    if schedule != [] {
      var turn := schedule[0];
      var next := TakeArm(Touched(task, turn.active), turn.arm, turn.now, turn.channel, timeouts);
      assert next.finished;
    }
  }

  /** From its start on, a task asks for a graceful close exactly once if it is closing and never otherwise. */
  lemma {:induction false} ClosesOnce(task: Task, schedule: seq<Turn>, timeouts: Timeouts)
    requires CanTake(task, schedule, timeouts)
    requires task.closeRequests == if task.shuttingDown then 1 else 0
    ensures var end := TakeAll(task, schedule, timeouts);
            end.closeRequests == if end.shuttingDown then 1 else 0
    decreases |schedule|
  {
    if schedule != [] {
      var turn := schedule[0];
      var next := TakeArm(Touched(task, turn.active), turn.arm, turn.now, turn.channel, timeouts);
      ClosesOnce(next, schedule[1..], timeouts);
    }
  }
}
