/**
 * The network worker and its command queue: enrollment that a stop can cancel, replay of the
 * commands queued meanwhile, and the loop that drains the queue between datagrams.
 *
 * Commands arrive while the worker runs. A schedule of moments says what arrives before each poll
 * and which of the ready branches wins, so a contract that holds for every schedule holds for every
 * interleaving; a run whose schedule ends early stands for a worker that is still running.
 */
module WorkerQueue {
  import opened Protocol

  datatype Command = Send(packet: Bytes, destination: nat) | QueryRoute(peer: nat) | Stop

  datatype Datagram = Packet(packet: Bytes) | Timeout | Broken

  /** What happens before one poll: commands sent, senders dropped, enrollment finished, datagram seen. */
  datatype Moment = Moment(arrivals: seq<Command>, closes: bool, completion: Option<bool>, datagram: Datagram)

  datatype Received = Taken(command: Command) | Nothing | Disconnected

  datatype Enrolled = Connected | Failed | Cancelled | Enrolling

  datatype Exit = EnrollmentFailed | EnrollmentCancelled | StillEnrolling
                | StopHandled | SendersGone | ReceiveFailed | StillRunning

  datatype Event = ConnectedEvent | FailedEvent | StoppedEvent | PacketEvent(packet: Bytes) | RouteEvent(peer: nat)

  /** One thing a connected worker did: it carried out a command, whose send may fail, or waited once. */
  datatype Deed = Did(command: Command, failed: bool) | Saw(datagram: Datagram)

  /** What one deed reports. */
  function Told(deed: Deed): seq<Event> {
    match deed
    case Did(Send(_, _), failed) => if failed then [FailedEvent] else []
    case Did(QueryRoute(peer), _) => [RouteEvent(peer)]
    case Did(Stop, _) => []
    case Saw(Packet(packet)) => [PacketEvent(packet)]
    case Saw(Timeout) => []
    case Saw(Broken) => [FailedEvent]
  }

  function Report(log: seq<Deed>): seq<Event> {
    if log == [] then [] else Report(log[..|log| - 1]) + Told(log[|log| - 1])
  }

  /** The commands carried out, in order. */
  function Done(log: seq<Deed>): seq<Command> {
    if log == [] then []
    else Done(log[..|log| - 1]) + (if log[|log| - 1].Did? then [log[|log| - 1].command] else [])
  }

  lemma OneMoreDeed(log: seq<Deed>, deed: Deed)
    ensures Report(log + [deed]) == Report(log) + Told(deed)
    ensures [ConnectedEvent] + Report(log + [deed]) == [ConnectedEvent] + Report(log) + Told(deed)
    ensures Done(log + [deed]) == Done(log) + if deed.Did? then [deed.command] else []
  {
    assert (log + [deed])[..|log|] == log;
  }

  lemma {:induction false} ReportsNeverEnd(log: seq<Deed>)
    ensures StoppedEvent !in Report(log) && ConnectedEvent !in Report(log)
  {
    if log != [] {
      ReportsNeverEnd(log[..|log| - 1]);
    }
  }

  /** The commands before the first stop. */
  function BeforeStop(sent: seq<Command>): seq<Command> {
    if sent == [] || sent[0] == Stop then [] else [sent[0]] + BeforeStop(sent[1..])
  }

  /** `handled` is what preceded the first stop, and that stop is what came next. */
  predicate StoppedAfter(sent: seq<Command>, handled: seq<Command>) {
    Stop !in handled && handled < sent && sent[|handled|] == Stop
  }

  /** How enrollment ends when it does: whether the first completion in the schedule is a success. */
  function FirstCompletion(schedule: seq<Moment>): Option<bool> {
    if schedule == [] then None
    else if schedule[0].completion.Some? then schedule[0].completion
    else FirstCompletion(schedule[1..])
  }

  lemma {:induction false} PrefixWithoutStop(sent: seq<Command>, handled: seq<Command>)
    requires handled <= sent && Stop !in handled
    ensures handled <= BeforeStop(sent)
    ensures |handled| < |sent| && sent[|handled|] == Stop ==> handled == BeforeStop(sent)
    ensures handled == sent ==> handled == BeforeStop(sent)
  {
    if handled != [] {
      assert sent[0] == handled[0];
      PrefixWithoutStop(sent[1..], handled[1..]);
      assert sent[1..][|handled| - 1..] == sent[|handled|..];
    }
  }

  class Channel {
    var queue: seq<Command>
    var closed: bool
    var schedule: seq<Moment>
    ghost var sent: seq<Command>
    ghost var taken: seq<Command>

    ghost predicate Valid()
      reads this
    {
      sent == taken + queue
    }

    constructor (schedule: seq<Moment>)
      ensures Valid() && queue == [] && !closed && sent == [] && taken == [] && this.schedule == schedule
    {
      this.schedule := schedule;
      queue, closed, sent, taken := [], false, [], [];
    }

    /** Lets one moment pass. Nothing can be sent once every sender is gone. */
    method Advance() returns (moment: Moment)
      requires Valid() && schedule != []
      modifies this
      ensures Valid() && moment == old(schedule[0]) && schedule == old(schedule[1..])
      ensures taken == old(taken) && old(sent) <= sent && (old(closed) ==> closed && sent == old(sent))
    {
      moment := schedule[0];
      schedule := schedule[1..];
      if !closed {
        queue, sent := queue + moment.arrivals, sent + moment.arrivals;
        closed := moment.closes;
      }
    }

    /** Takes the oldest command. A closed channel reports so only once it is empty. */
    method TryRecv() returns (received: Received)
      requires Valid()
      modifies this
      ensures Valid() && schedule == old(schedule) && sent == old(sent) && closed == old(closed)
      ensures match received
              case Taken(command) => old(queue) == [command] + queue && taken == old(taken) + [command]
              case Nothing => !closed && queue == [] && taken == old(taken)
              case Disconnected => closed && queue == [] && taken == old(taken)
    {
      if queue != [] {
        received := Taken(queue[0]);
        taken := taken + [queue[0]];
        queue := queue[1..];
      } else {
        received := if closed then Disconnected else Nothing;
      }
    }
  }

  class Worker {
    const commands: Channel
    var deferred: seq<Command>
    var handled: seq<Command>
    var events: seq<Event>
    /** Whether the send fails that is carried out after so many commands. */
    const sendFails: nat -> bool
    ghost var log: seq<Deed>

    constructor (commands: Channel, sendFails: nat -> bool)
      ensures this.commands == commands && this.sendFails == sendFails
      ensures deferred == [] && handled == [] && events == [] && log == []
    {
      this.commands, this.sendFails := commands, sendFails;
      deferred, handled, events, log := [], [], [], [];
    }

    /** After the connection was reported, events are exactly the report of what was done, in order. */
    ghost predicate Logged()
      reads this
    {
      handled == Done(log) && events == [ConnectedEvent] + Report(log)
    }

    /** Everything taken from the queue is in `kept`, in order, and no stop among it. */
    ghost predicate Keeps(kept: seq<Command>)
      reads this, commands
    {
      commands.Valid() && commands.taken == kept && Stop !in kept
    }

    /** Sent commands are never unsent, nor do senders that are gone come back. */
    ghost predicate OnlyMoreSent(sent: seq<Command>, closed: bool)
      reads commands
    {
      sent <= commands.sent && (closed ==> commands.closed)
    }

    /** A stop was taken, or the senders were gone, with nothing lost before it. */
    ghost predicate SawTheEnd(kept: seq<Command>)
      reads this, commands
    {
      && commands.Valid()
      && (StoppedAfter(commands.sent, kept) || (commands.closed && commands.sent == kept && Stop !in kept))
    }

    /** Enrolls while staying open to a stop; what is queued meanwhile is deferred in order. */
    method EnrollWithCancellation() returns (outcome: Enrolled)
      requires Keeps([]) && deferred == []
      modifies this`deferred, commands
      ensures outcome.Connected? || outcome.Failed? ==>
                Keeps(deferred) && commands.sent == deferred && !commands.closed
                && FirstCompletion(old(commands.schedule)) == Some(outcome.Connected?)
      ensures outcome.Cancelled? ==> SawTheEnd(deferred) && (Stop in commands.sent || commands.closed)
      ensures outcome.Enrolling? ==> Keeps(deferred)
    {
      while commands.schedule != []
        invariant Keeps(deferred)
        invariant FirstCompletion(commands.schedule) == FirstCompletion(old(commands.schedule))
        decreases |commands.schedule|
      {
        var moment := commands.Advance();
        if moment.completion.Some? {
          var drained := DrainQueued();
          if drained != Connected {
            return drained;
          }
          return if moment.completion.value then Connected else Failed;
        }
        var received := commands.TryRecv();
        match received {
          case Disconnected => return Cancelled;
          case Taken(command) =>
            if command == Stop {
              return Cancelled;
            }
            deferred := deferred + [command];
          case Nothing =>
        }
      }
      return Enrolling;
    }

    /** The drain once enrollment has finished: `Connected` when the queue ran empty. */
    method DrainQueued() returns (outcome: Enrolled)
      requires Keeps(deferred)
      modifies this`deferred, commands
      ensures |commands.schedule| <= old(|commands.schedule|)
      ensures match outcome
              case Connected => Keeps(deferred) && commands.sent == deferred && !commands.closed
              case Cancelled => SawTheEnd(deferred)
              case Enrolling => Keeps(deferred)
              case Failed => false
    {
      while true
        invariant Keeps(deferred) && |commands.schedule| <= old(|commands.schedule|)
        decreases |commands.schedule|
      {
        var received := commands.TryRecv();
        match received {
          case Disconnected => return Cancelled;
          case Nothing => return Connected;
          case Taken(command) =>
            if command == Stop {
              return Cancelled;
            }
            deferred := deferred + [command];
        }
        if commands.schedule == [] {
          return Enrolling;
        }
        var _ := commands.Advance();
      }
    }

    /** Carries out one command; true when the worker must exit. */
    method HandleCommand(command: Command) returns (stop: bool)
      requires Logged()
      modifies this`handled, this`events, this`log
      ensures Logged() && stop == (command == Stop)
      ensures log == if stop then old(log) else old(log) + [Did(command, sendFails(|old(handled)|))]
      ensures handled == if stop then old(handled) else old(handled) + [command]
      ensures command.Send? ==> events == old(events) + if sendFails(|old(handled)|) then [FailedEvent] else []
      ensures command.QueryRoute? ==> events == old(events) + [RouteEvent(command.peer)]
      ensures command.Stop? ==> events == old(events)
    {
      ghost var deed := Did(command, sendFails(|handled|));
      OneMoreDeed(log, deed);
      match command {
        case Send(_, _) =>
          if sendFails(|handled|) {
            events := events + [FailedEvent];
          }
        case QueryRoute(peer) => events := events + [RouteEvent(peer)];
        case Stop => return true;
      }
      assert events == old(events) + Told(deed);
      log, handled := log + [deed], handled + [command];
      return false;
    }

    /** Replays the deferred commands. */
    method Replay() returns (stopping: bool)
      requires Keeps(deferred) && handled == [] && Logged() && Unbroken()
      modifies this`handled, this`events, this`log
      ensures !stopping && handled == deferred && Logged() && Unbroken()
    {
      stopping := false;
      for i := 0 to |deferred|
        invariant handled == deferred[..i] && !stopping && Logged() && Unbroken()
      {
        stopping := HandleCommand(deferred[i]);
        if stopping {
          break;
        }
      }
    }

    /** No wait has failed so far. */
    ghost predicate Unbroken()
      reads this
    {
      Saw(Broken) !in log
    }

    /** The last wait failed and none before it. */
    ghost predicate Broke()
      reads this
    {
      log != [] && log[|log| - 1] == Saw(Broken) && Saw(Broken) !in log[..|log| - 1]
    }

    /** Handles what is queued: `StillRunning` when the queue ran empty. */
    method DrainCommands() returns (exit: Exit)
      requires Keeps(handled) && Logged() && Unbroken()
      modifies this`handled, this`events, this`log, commands
      ensures |commands.schedule| <= old(|commands.schedule|) && Logged() && Unbroken()
      ensures OnlyMoreSent(old(commands.sent), old(commands.closed)) && old(handled) <= handled
      ensures match exit
              case StopHandled => StoppedAfter(commands.sent, handled)
              case SendersGone => Keeps(handled) && commands.closed && commands.sent == handled
              case StillRunning => Keeps(handled) && (commands.schedule != [] ==> commands.sent == handled)
              case _ => false
    {
      while true
        invariant Keeps(handled) && |commands.schedule| <= old(|commands.schedule|) && Logged() && Unbroken()
        invariant OnlyMoreSent(old(commands.sent), old(commands.closed)) && old(handled) <= handled
        decreases |commands.schedule|
      {
        var received := commands.TryRecv();
        match received {
          case Disconnected => return SendersGone;
          case Nothing => return StillRunning;
          case Taken(command) =>
            var stop := HandleCommand(command);
            if stop {
              return StopHandled;
            }
        }
        if commands.schedule == [] {
          return StillRunning;
        }
        var _ := commands.Advance();
      }
    }

    /** Waits for one datagram, with every command sent so far already handled. */
    method WaitForDatagram() returns (broken: bool)
      requires Keeps(handled) && commands.sent == handled && commands.schedule != [] && Logged()
      modifies this`events, this`log, commands
      ensures Keeps(handled) && commands.schedule == old(commands.schedule[1..]) && Logged()
      ensures OnlyMoreSent(old(commands.sent), old(commands.closed))
      ensures log == old(log) + [Saw(old(commands.schedule[0]).datagram)]
      ensures match old(commands.schedule[0]).datagram
              case Packet(packet) => !broken && events == old(events) + [PacketEvent(packet)]
              case Timeout => !broken && events == old(events)
              case Broken => broken && events == old(events) + [FailedEvent]
    {
      var moment := commands.Advance();
      broken := false;
      match moment.datagram {
        case Packet(packet) => events := events + [PacketEvent(packet)];
        case Timeout =>
        case Broken =>
          events := events + [FailedEvent];
          broken := true;
      }
      OneMoreDeed(log, Saw(moment.datagram));
      log := log + [Saw(moment.datagram)];
    }

    /** Alternates between draining the queue and waiting for one datagram. */
    method ServeNetwork() returns (exit: Exit)
      requires Keeps(handled) && Logged() && Unbroken()
      modifies this`handled, this`events, this`log, commands
      ensures OnlyMoreSent(old(commands.sent), old(commands.closed)) && old(handled) <= handled
      ensures Logged() && (if exit == ReceiveFailed then Broke() else Unbroken())
      ensures match exit
              case StopHandled => StoppedAfter(commands.sent, handled)
              case SendersGone => Keeps(handled) && commands.closed && commands.sent == handled
              case ReceiveFailed => Keeps(handled)
              case StillRunning => Keeps(handled)
              case _ => false
    {
      while true
        invariant Keeps(handled) && Logged() && Unbroken()
        invariant OnlyMoreSent(old(commands.sent), old(commands.closed)) && old(handled) <= handled
        decreases |commands.schedule|
      {
        var drained := DrainCommands();
        if drained != StillRunning {
          return drained;
        }
        if commands.schedule == [] {
          return StillRunning;
        }
        ghost var before := log;
        var broken := WaitForDatagram();
        assert log[..|log| - 1] == before;
        if broken {
          return ReceiveFailed;
        }
      }
    }

    /**
     * The whole life of a worker. Under every schedule the commands handled are the first ones sent,
     * in order, up to the first stop. `early` is what was sent, and `hungUp` whether the senders were
     * gone, when enrollment ended: a stop among them or gone senders cancel it, nothing else does, and
     * then nothing is handled and no connection reported.
     */
    method RunWorker(closeFails: bool) returns (exit: Exit, ghost early: seq<Command>, ghost hungUp: bool)
      requires Keeps([]) && deferred == [] && handled == [] && events == [] && log == []
      modifies this, commands
      ensures early <= commands.sent && (hungUp ==> commands.closed)
      ensures exit != StillEnrolling ==> (exit == EnrollmentCancelled <==> Stop in early || hungUp)
      ensures ConnectedEvent in events ==> Stop !in early && !hungUp && early <= handled
      ensures handled <= BeforeStop(commands.sent)
      ensures exit == StopHandled ==> Stop in commands.sent && handled == BeforeStop(commands.sent)
      ensures exit == SendersGone ==> commands.closed && Stop !in commands.sent && handled == commands.sent
      ensures exit == ReceiveFailed || exit == StillRunning ==> commands.sent == handled + commands.queue
      ensures exit.EnrollmentCancelled? || exit.EnrollmentFailed? || exit.StillEnrolling? ==>
                handled == [] && ConnectedEvent !in events
      ensures exit == EnrollmentFailed ==> FirstCompletion(old(commands.schedule)) == Some(false)
      ensures exit.StopHandled? || exit.SendersGone? || exit.ReceiveFailed? || exit.StillRunning? ==>
                FirstCompletion(old(commands.schedule)) == Some(true) && events != [] && events[0] == ConnectedEvent
      ensures exit.StillEnrolling? || exit.StillRunning? || exit.EnrollmentFailed? <==> StoppedEvent !in events
      ensures handled == Done(log) && (if exit == ReceiveFailed then Broke() else Unbroken())
      ensures match exit
              case StillEnrolling => events == []
              case EnrollmentFailed => events == [FailedEvent]
              case EnrollmentCancelled => events == [StoppedEvent]
              case StillRunning => events == [ConnectedEvent] + Report(log)
              case _ =>
                events == [ConnectedEvent] + Report(log) + (if closeFails then [FailedEvent] else []) + [StoppedEvent]
    {
      var outcome := EnrollWithCancellation();
      early, hungUp := commands.sent, commands.closed;
      match outcome {
        case Enrolling => exit := StillEnrolling;
        case Failed =>
          events := events + [FailedEvent];
          exit := EnrollmentFailed;
        case Cancelled =>
          events := events + [StoppedEvent];
          exit := EnrollmentCancelled;
        case Connected =>
          exit := RunConnected(closeFails);
      }
    }

    /** From the reported connection to the last event. */
    method RunConnected(closeFails: bool) returns (exit: Exit)
      requires Keeps(deferred) && handled == [] && events == [] && log == []
      modifies this`handled, this`events, this`log, commands
      ensures old(commands.sent) <= commands.sent && (old(commands.closed) ==> commands.closed)
      ensures deferred <= handled <= BeforeStop(commands.sent)
      ensures match exit
              case StopHandled => Stop in commands.sent && handled == BeforeStop(commands.sent)
              case SendersGone => commands.closed && Stop !in commands.sent && handled == commands.sent
              case ReceiveFailed => commands.sent == handled + commands.queue
              case StillRunning => commands.sent == handled + commands.queue
              case _ => false
      ensures handled == Done(log) && (if exit == ReceiveFailed then Broke() else Unbroken())
      ensures events == [ConnectedEvent] + Report(log)
                        + if exit == StillRunning then []
                          else (if closeFails then [FailedEvent] else []) + [StoppedEvent]
      ensures exit.StillRunning? <==> StoppedEvent !in events
    {
      events := events + [ConnectedEvent];
      var stopping := Replay();
      exit := StopHandled;
      if !stopping {
        exit := ServeNetwork();
      }
      PrefixWithoutStop(commands.sent, handled);
      ReportsNeverEnd(log);
      if exit == StillRunning {
        return;
      }
      if closeFails {
        events := events + [FailedEvent];
      }
      events := events + [StoppedEvent];
    }
  }
}
