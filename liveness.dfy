/**
 * The link monitor's state machine, as values. After the one-time handshake
 * the monitor polls the telemetry channel: every message refreshes the time
 * of last traffic, a HEARTBEAT brings an offline link back, a
 * GLOBAL_POSITION_INT is forwarded as a position fix, and more than ten
 * seconds without traffic takes an alive link offline. The outbound
 * `heartbeat(bool)` and `gps_update(...)` signals are an append-only event log.
 */
module Liveness {
  import opened Options

  /** More than this many milliseconds of silence takes the link offline. */
  const OfflineTimeoutMs: int := 10000

  /** The wall-clock text ("%H:%M:%S") attached to a position fix; never interpreted. */
  type Stamp = string

  /**
   * A received message, classified by its type name: HEARTBEAT,
   * GLOBAL_POSITION_INT with the fields the monitor reads, or any other type.
   */
  datatype Msg =
    | Heartbeat
    | GlobalPositionInt(lat: int, lon: int, relativeAlt: int)  // 1e-7 degrees, 1e-7 degrees, millimetres
    | OtherMsg

  /** A decoded position, as carried by the `gps_update` signal. */
  datatype GpsFix = GpsFix(latitude: real, longitude: real, altitude: real, stamp: Stamp, valid: bool)

  /** One emitted signal. */
  datatype Event = HeartbeatSignal(up: bool) | GpsSignal(fix: GpsFix)

  /**
   * What one loop iteration observes: the message the non-blocking receive
   * returned (if any), the clock when the message was handled, the stamp text
   * for a fix, and the clock at the timeout check.
   */
  datatype Poll = Poll(msg: Option<Msg>, receivedAt: int, stamp: Stamp, checkedAt: int)

  /** The monitor's state: the stop flag, liveness, time of last traffic and every signal so far. */
  datatype Session = Session(running: bool, alive: bool, lastMsgTime: int, events: seq<Event>)

  /** The state right after construction: running, nothing received, nothing emitted. */
  const Initial: Session := Session(true, false, 0, [])

  // ---------------------------------------------------------------- position decoding

  /** Degrees from the wire's 1e-7 degree units (exact; the source uses floating point). */
  function Degrees(raw: int): (deg: real)
    ensures deg * 10000000.0 == raw as real
  {
    raw as real / 10000000.0
  }

  /** Metres from the wire's millimetres (exact; the source uses floating point). */
  function Metres(rawMm: int): (m: real)
    ensures m * 1000.0 == rawMm as real
  {
    rawMm as real / 1000.0
  }

  lemma PositionDecodeExample()
    ensures Degrees(123456789) == 12.3456789
    ensures Degrees(-987654321) == -98.7654321
    ensures Metres(1500) == 1.5
  {
  }

  // ---------------------------------------------------------------- the liveness trace

  /** The values of the `heartbeat` signals, in emission order. */
  function LivenessTrace(events: seq<Event>): (bs: seq<bool>)
    ensures |bs| <= |events|
  {
    if events == [] then []
    else
      var prev := LivenessTrace(events[..|events| - 1]);
      match events[|events| - 1]
      case HeartbeatSignal(up) => prev + [up]
      case GpsSignal(_) => prev
  }

  lemma LivenessTraceSnoc(events: seq<Event>, e: Event)
    ensures LivenessTrace(events + [e])
         == LivenessTrace(events) + (if e.HeartbeatSignal? then [e.up] else [])
  {
    assert (events + [e])[..|events|] == events;
  }

  /** The invariant: signals alternate up, down, up, ... and the last one is the current liveness. */
  predicate Consistent(s: Session)
  {
    var bs := LivenessTrace(s.events);
    (forall i :: 0 <= i < |bs| ==> bs[i] == (i % 2 == 0))
    && s.alive == (|bs| % 2 == 1)
  }

  /** Consistent, spelled out: first signal is `true`, neighbours differ, and the latest equals `alive`. */
  lemma {:induction false} ConsistentMeans(s: Session)
    ensures Consistent(s) <==>
      var bs := LivenessTrace(s.events);
      && (bs != [] ==> bs[0])
      && (forall i :: 0 <= i < |bs| - 1 ==> bs[i + 1] == !bs[i])
      && (if bs == [] then !s.alive else bs[|bs| - 1] == s.alive)
  {
    var bs := LivenessTrace(s.events);
    if (bs != [] ==> bs[0]) && (forall i :: 0 <= i < |bs| - 1 ==> bs[i + 1] == !bs[i]) {
      AlternationFromNeighbours(bs, |bs|);
    }
  }

  lemma {:induction false} AlternationFromNeighbours(bs: seq<bool>, n: nat)
    requires n <= |bs|
    requires bs != [] ==> bs[0]
    requires forall i :: 0 <= i < |bs| - 1 ==> bs[i + 1] == !bs[i]
    ensures forall i :: 0 <= i < n ==> bs[i] == (i % 2 == 0)
  {
    if n > 0 {
      AlternationFromNeighbours(bs, n - 1);
      if n > 1 {
        assert bs[n - 1] == !bs[n - 2];
      }
    }
  }

  // ---------------------------------------------------------------- one iteration

  /** The post-handshake start of the run: alive, the clock as last traffic, one `heartbeat(True)`. */
  function Handshake(s: Session, now: int): (r: Session)
    ensures r.alive && r.lastMsgTime == now && r.running == s.running
    ensures LivenessTrace(r.events) == LivenessTrace(s.events) + [true]
    ensures |r.events| == |s.events| + 1 && r.events[..|s.events|] == s.events
  {
    LivenessTraceSnoc(s.events, HeartbeatSignal(true));
    Session(s.running, true, now, s.events + [HeartbeatSignal(true)])
  }

  /**
   * Handling the message an iteration received: any message refreshes the
   * time of last traffic; a heartbeat revives an offline link; a position
   * is decoded and forwarded.
   */
  function Receive(s: Session, msg: Option<Msg>, at: int, stamp: Stamp): (r: Session)
    ensures r.running == s.running
    ensures msg.None? ==> r == s
    ensures msg.Some? ==> r.lastMsgTime == at
    ensures |s.events| <= |r.events| <= |s.events| + 1 && r.events[..|s.events|] == s.events
    ensures !(msg == Some(Heartbeat)) ==> r.alive == s.alive
  {
    match msg
    case None => s
    case Some(m) =>
      var heard := s.(lastMsgTime := at);
      match m
      case Heartbeat =>
        if !heard.alive then heard.(alive := true, events := heard.events + [HeartbeatSignal(true)])
        else heard
      case GlobalPositionInt(lat, lon, alt) =>
        var fix := GpsFix(Degrees(lat), Degrees(lon), Metres(alt), stamp, true);
        heard.(events := heard.events + [GpsSignal(fix)])
      case OtherMsg => heard
  }

  /** The silence check that ends an iteration: too long without traffic takes an alive link offline. */
  function CheckTimeout(s: Session, now: int): (r: Session)
    ensures r.running == s.running && r.lastMsgTime == s.lastMsgTime
    ensures r.alive ==> s.alive
    ensures r.events == s.events || r.events == s.events + [HeartbeatSignal(false)]
  {
    if now - s.lastMsgTime > OfflineTimeoutMs && s.alive then
      s.(alive := false, events := s.events + [HeartbeatSignal(false)])
    else s
  }

  /** One evaluation of `while self.running` and, if it holds, one pass of the loop body. */
  function Iterate(s: Session, p: Poll): (r: Session)
    ensures r.running == s.running
    ensures !s.running ==> r == s
    ensures |s.events| <= |r.events| <= |s.events| + 2 && r.events[..|s.events|] == s.events
  {
    if !s.running then s
    else CheckTimeout(Receive(s, p.msg, p.receivedAt, p.stamp), p.checkedAt)
  }

  // ---------------------------------------------------------------- one-step properties

  /** Any message at all refreshes the time of last traffic; the timeout check leaves it alone. */
  lemma AnyMessageRefreshes(s: Session, p: Poll)
    requires s.running && p.msg.Some?
    ensures Iterate(s, p).lastMsgTime == p.receivedAt
  {
  }

  /** A HEARTBEAT on an offline link emits exactly one `heartbeat(True)`; on an alive link, nothing. */
  lemma HeartbeatRevives(s: Session, at: int, stamp: Stamp)
    ensures Receive(s, Some(Heartbeat), at, stamp).alive
    ensures Receive(s, Some(Heartbeat), at, stamp).events
         == if s.alive then s.events else s.events + [HeartbeatSignal(true)]
  {
  }

  /** A GLOBAL_POSITION_INT emits one valid fix and never touches liveness, even on an offline link. */
  lemma PositionIsForwarded(s: Session, lat: int, lon: int, alt: int, at: int, stamp: Stamp)
    ensures Receive(s, Some(GlobalPositionInt(lat, lon, alt)), at, stamp).alive == s.alive
    ensures Receive(s, Some(GlobalPositionInt(lat, lon, alt)), at, stamp).events
         == s.events + [GpsSignal(GpsFix(Degrees(lat), Degrees(lon), Metres(alt), stamp, true))]
  {
  }

  /** A message of any other type only refreshes the time of last traffic. */
  lemma OtherMessageOnlyRefreshes(s: Session, at: int, stamp: Stamp)
    ensures Receive(s, Some(OtherMsg), at, stamp) == s.(lastMsgTime := at)
  {
  }

  /**
   * Strictly more than the timeout since the last traffic takes an alive link
   * offline with one `heartbeat(False)`; an offline link emits nothing more,
   * and at exactly the timeout nothing happens.
   */
  lemma SilenceTimesOut(s: Session, now: int)
    ensures s.alive && now - s.lastMsgTime > OfflineTimeoutMs ==>
              CheckTimeout(s, now) == s.(alive := false, events := s.events + [HeartbeatSignal(false)])
    ensures !s.alive ==> CheckTimeout(s, now) == s
    ensures now - s.lastMsgTime <= OfflineTimeoutMs ==> CheckTimeout(s, now) == s
  {
  }

  /**
   * A message handled in an iteration is recorded before that iteration's
   * timeout check, so unless the check reads the clock more than the timeout
   * after the message, the iteration cannot take the link offline.
   */
  lemma MessageHoldsOffTimeout(s: Session, p: Poll)
    requires s.running && p.msg.Some?
    requires p.checkedAt - p.receivedAt <= OfflineTimeoutMs
    ensures Iterate(s, p) == Receive(s, p.msg, p.receivedAt, p.stamp)
    ensures Iterate(s, p).alive == (s.alive || p.msg.value.Heartbeat?)
  {
  }

  // ---------------------------------------------------------------- the invariant is kept

  lemma HandshakeKeepsConsistent(s: Session, now: int)
    requires Consistent(s) && !s.alive
    ensures Consistent(Handshake(s, now))
  {
  }

  lemma ReceiveKeepsConsistent(s: Session, msg: Option<Msg>, at: int, stamp: Stamp)
    requires Consistent(s)
    ensures Consistent(Receive(s, msg, at, stamp))
  {
    var r := Receive(s, msg, at, stamp);
    if r.events != s.events {
      var e := r.events[|r.events| - 1];
      assert r.events == s.events + [e];
      LivenessTraceSnoc(s.events, e);
    }
  }

  lemma CheckTimeoutKeepsConsistent(s: Session, now: int)
    requires Consistent(s)
    ensures Consistent(CheckTimeout(s, now))
  {
    LivenessTraceSnoc(s.events, HeartbeatSignal(false));
  }

  lemma IterateKeepsConsistent(s: Session, p: Poll)
    requires Consistent(s)
    ensures Consistent(Iterate(s, p))
  {
    if s.running {
      ReceiveKeepsConsistent(s, p.msg, p.receivedAt, p.stamp);
      CheckTimeoutKeepsConsistent(Receive(s, p.msg, p.receivedAt, p.stamp), p.checkedAt);
    }
  }

  // ---------------------------------------------------------------- runs

  /** What happens next: the monitor thread's next iteration, or the GUI thread's call of `stop()`. */
  datatype Input = Tick(poll: Poll) | StopCall

  /** `stop()`: clears the flag and nothing else. */
  function Stop(s: Session): (r: Session)
    ensures !r.running && r.alive == s.alive && r.lastMsgTime == s.lastMsgTime && r.events == s.events
  {
    s.(running := false)
  }

  function Apply(s: Session, input: Input): Session
  {
    match input
    case Tick(p) => Iterate(s, p)
    case StopCall => Stop(s)
  }

  /** The state after a whole script of inputs. */
  function Replay(s: Session, script: seq<Input>): Session
  {
    if script == [] then s else Apply(Replay(s, script[..|script| - 1]), script[|script| - 1])
  }

  lemma {:induction false} ReplayAppend(s: Session, xs: seq<Input>, ys: seq<Input>)
    ensures Replay(s, xs + ys) == Replay(Replay(s, xs), ys)
    decreases |ys|
  {
    if ys == [] {
      assert xs + ys == xs;
    } else {
      assert (xs + ys)[..|xs + ys| - 1] == xs + ys[..|ys| - 1];
      ReplayAppend(s, xs, ys[..|ys| - 1]);
    }
  }

  /** A script read one more input along: the state after the longer prefix applies that input. */
  lemma ReplayStep(s: Session, script: seq<Input>, i: int)
    requires 0 <= i < |script|
    ensures Replay(s, script[..i + 1]) == Apply(Replay(s, script[..i]), script[i])
  {
    assert script[..i + 1][..i] == script[..i];
  }

  /** Any run keeps the alternation invariant. */
  lemma {:induction false} ReplayKeepsConsistent(s: Session, script: seq<Input>)
    requires Consistent(s)
    ensures Consistent(Replay(s, script))
  {
    if script != [] {
      var prev := Replay(s, script[..|script| - 1]);
      ReplayKeepsConsistent(s, script[..|script| - 1]);
      match script[|script| - 1]
      case Tick(p) => IterateKeepsConsistent(prev, p);
      case StopCall =>
    }
  }

  /** Once stopped, a monitor changes nothing more and emits no further signal, whatever follows. */
  lemma {:induction false} StoppedIsFinal(s: Session, script: seq<Input>)
    requires !s.running
    ensures Replay(s, script) == s
  {
    if script != [] {
      StoppedIsFinal(s, script[..|script| - 1]);
    }
  }

  /** The whole life of a monitor: construction, handshake at `start`, then a script. */
  lemma MonitorLifeIsConsistent(start: int, script: seq<Input>)
    ensures Consistent(Replay(Handshake(Initial, start), script))
    ensures LivenessTrace(Handshake(Initial, start).events) == [true]
  {
    HandshakeKeepsConsistent(Initial, start);
    ReplayKeepsConsistent(Handshake(Initial, start), script);
  }

  // ---------------------------------------------------------------- multi-step properties

  predicate Silent(script: seq<Input>)
  {
    forall i :: 0 <= i < |script| ==> script[i].Tick? && script[i].poll.msg.None?
  }

  /** Some iteration of the script checked the clock more than the timeout after `last`. */
  predicate Overdue(script: seq<Input>, last: int)
  {
    exists i :: 0 <= i < |script| && script[i].Tick? && script[i].poll.checkedAt - last > OfflineTimeoutMs
  }

  /**
   * Silence on a running link: the link goes offline with exactly one
   * `heartbeat(False)` if it was alive and some check came after the
   * deadline, and otherwise nothing changes -- never a repeated signal.
   */
  lemma {:induction false} SilenceGoesOfflineOnce(s: Session, script: seq<Input>)
    requires s.running && Silent(script)
    ensures Replay(s, script).lastMsgTime == s.lastMsgTime
    ensures Replay(s, script).running
    ensures Replay(s, script).alive == (s.alive && !Overdue(script, s.lastMsgTime))
    ensures Replay(s, script).events
         == if s.alive && Overdue(script, s.lastMsgTime) then s.events + [HeartbeatSignal(false)] else s.events
  {
    if script != [] {
      var init := script[..|script| - 1];
      assert Silent(init) by {
        forall i | 0 <= i < |init| ensures init[i].Tick? && init[i].poll.msg.None? {
          assert init[i] == script[i];
        }
      }
      SilenceGoesOfflineOnce(s, init);
      var last := script[|script| - 1];
      assert Overdue(script, s.lastMsgTime)
         <==> Overdue(init, s.lastMsgTime) || last.poll.checkedAt - s.lastMsgTime > OfflineTimeoutMs
      by {
        if Overdue(init, s.lastMsgTime) {
          var i :| 0 <= i < |init| && init[i].Tick? && init[i].poll.checkedAt - s.lastMsgTime > OfflineTimeoutMs;
          assert script[i] == init[i];
        }
        if Overdue(script, s.lastMsgTime) {
          var i :| 0 <= i < |script| && script[i].Tick? && script[i].poll.checkedAt - s.lastMsgTime > OfflineTimeoutMs;
          if i < |init| {
            assert init[i] == script[i];
          }
        }
      }
    }
  }

  /** Position traffic: every input an iteration that handles a position fix promptly. */
  predicate PromptPositions(script: seq<Input>)
  {
    forall i :: 0 <= i < |script| ==>
      && script[i].Tick?
      && script[i].poll.msg.Some? && script[i].poll.msg.value.GlobalPositionInt?
      && script[i].poll.checkedAt - script[i].poll.receivedAt <= OfflineTimeoutMs
  }

  /**
   * A stream of position messages, each checked within the timeout of its
   * arrival, keeps a running link's liveness as it was and adds no
   * `heartbeat` signal, but one fix per message.
   */
  lemma {:induction false} PositionTrafficDoesNotFlap(s: Session, script: seq<Input>)
    requires s.running && PromptPositions(script)
    ensures Replay(s, script).alive == s.alive
    ensures LivenessTrace(Replay(s, script).events) == LivenessTrace(s.events)
    ensures |Replay(s, script).events| == |s.events| + |script|
  {
    if script != [] {
      var init := script[..|script| - 1];
      assert PromptPositions(init) by {
        forall i | 0 <= i < |init| ensures init[i] == script[i] { }
      }
      PositionTrafficDoesNotFlap(s, init);
      var prev := Replay(s, init);
      var p := script[|script| - 1].poll;
      assert prev.running by { ReplayKeepsRunning(s, init); }
      MessageHoldsOffTimeout(prev, p);
      var m := p.msg.value;
      PositionIsForwarded(prev, m.lat, m.lon, m.relativeAlt, p.receivedAt, p.stamp);
      LivenessTraceSnoc(prev.events, GpsSignal(GpsFix(Degrees(m.lat), Degrees(m.lon), Metres(m.relativeAlt), p.stamp, true)));
    }
  }

  /** Without a stop call, a running monitor keeps running. */
  lemma {:induction false} ReplayKeepsRunning(s: Session, script: seq<Input>)
    requires s.running
    requires forall i :: 0 <= i < |script| ==> script[i].Tick?
    ensures Replay(s, script).running
  {
    if script != [] {
      ReplayKeepsRunning(s, script[..|script| - 1]);
    }
  }
}
