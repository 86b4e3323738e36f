/**
 * The GPS/link worker thread as an object. The fields `alive` and
 * `lastMsgTime` are locals of the thread's run loop in the source; here they
 * are fields so that the loop can be taken one iteration at a time. Emitted
 * signals are appended to `events`.
 */
module MavlinkWorker {
  import opened Options
  import opened Liveness

  class MavlinkGpsWorker {
    const udpPort: int
    var running: bool
    /** Whether the handshake has happened and the poll loop may run. */
    var started: bool
    var alive: bool
    var lastMsgTime: int
    var events: seq<Event>

    /** The worker's state as a value of the functional model. */
    function State(): Session
      reads this
    {
      Session(running, alive, lastMsgTime, events)
    }

    /** The object invariant: liveness signals alternate and the latest one is `alive`. */
    predicate Valid()
      reads this
    {
      Consistent(State()) && (!started ==> !alive)
    }

    /** `__init__`: remember the port, set the running flag; nothing emitted yet. */
    constructor (port: int)
      ensures Valid() && !started
      ensures State() == Initial && udpPort == port
    {
      udpPort := port;
      running := true;
      started := false;
      alive := false;
      lastMsgTime := 0;
      events := [];
    }

    /** The part of `run` after the blocking handshake: alive, clock as last traffic, `heartbeat(True)`. */
    method Start(now: int)
      requires Valid() && !started
      modifies this
      ensures Valid() && started
      ensures State() == Handshake(old(State()), now)
    {
      HandshakeKeepsConsistent(State(), now);
      lastMsgTime := now;
      alive := true;
      events := events + [HeartbeatSignal(true)];
      started := true;
    }

    /** One test of `while self.running` and, when it holds, one pass of the loop body. */
    method Step(p: Poll)
      requires Valid() && started
      modifies this
      ensures Valid() && started
      ensures State() == Iterate(old(State()), p)
    {
      IterateKeepsConsistent(State(), p);
      if !running {
        return;
      }
      match p.msg {
        case Some(m) =>
          lastMsgTime := p.receivedAt;
          match m {
            case Heartbeat =>
              if !alive {
                events := events + [HeartbeatSignal(true)];
                alive := true;
              }
            case GlobalPositionInt(lat, lon, relativeAlt) =>
              var fix := GpsFix(Degrees(lat), Degrees(lon), Metres(relativeAlt), p.stamp, true);
              events := events + [GpsSignal(fix)];
            case OtherMsg =>
          }
        case None =>
      }
      if p.checkedAt - lastMsgTime > OfflineTimeoutMs {
        if alive {
          events := events + [HeartbeatSignal(false)];
          alive := false;
        }
      }
    }

    /** `stop()`: clears the running flag and touches nothing else. */
    method Stop()
      requires Valid()
      modifies this`running
      ensures Valid() && !running
      ensures State() == Liveness.Stop(old(State()))
    {
      running := false;
    }

    /** One input of a script: a loop iteration, or a `stop()` call from the GUI thread. */
    method Feed(input: Input)
      requires Valid() && started
      modifies this
      ensures Valid() && started
      ensures State() == Apply(old(State()), input)
    {
      match input {
        case Tick(p) => Step(p);
        case StopCall => Stop();
      }
    }

    /**
     * `run`: the handshake at `start`, then the poll loop, with the GUI
     * thread's `stop()` calls interleaved between iterations as `script`
     * says. The loop leaves as soon as it sees the flag cleared; the inputs
     * it never reaches would not have changed anything.
     */
    method Run(start: int, script: seq<Input>)
      requires Valid() && !started
      modifies this
      ensures Valid() && started
      ensures State() == Replay(Handshake(old(State()), start), script)
    {
      Start(start);
      ghost var s0 := State();
      var i := 0;
      while i < |script| && running
        invariant 0 <= i <= |script|
        invariant Valid() && started
        invariant State() == Replay(s0, script[..i])
      {
        ReplayStep(s0, script, i);
        Feed(script[i]);
        i := i + 1;
      }
      if i < |script| {
        assert script == script[..i] + script[i..];
        ReplayAppend(s0, script[..i], script[i..]);
        StoppedIsFinal(State(), script[i..]);
      } else {
        assert script[..i] == script;
      }
    }
  }
}
