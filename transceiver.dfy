/*
 * Transcom, the control session towards an OsmoTRX-style transceiver
 * (Transcom.cpp). The session is the two flags transceiverAvailable and
 * setupDone, the frame numbers trxFrame and currentFrame, and the time
 * sendTm of the next dummy packet. The `select` loop of run becomes a
 * sequence of polls: silence (the one-second timeout), failure, or datagrams
 * ready on the clock, control and data channels.
 *
 * The pure functions below (TimeoutStep, ClockStep, PollStep, RunSteps) say
 * what each event does to the session and which datagrams it writes; class
 * Transcom updates its fields in place and is proved to do exactly that. The
 * written datagrams are ghost logs of the control and data channels.
 */
module Transceiver {
  import opened Wrappers
  import Decimal
  import opened Control
  import Bursts
  import opened Modular

  type Byte = Bursts.Byte
  type Uint32 = Bursts.Uint32

  /** Frames of look-ahead between the transceiver clock and the frame being
      scheduled. */
  const CLOCK_ADVANCE: nat := 20
  /** The GSM hyperframe, 26 * 51 * 2048 TDMA frames. */
  const FRAME_MODULUS: nat := 26 * 51 * 2048
  const UINT32_RANGE: nat := 0x1_0000_0000
  /** Milliseconds between two dummy packets. */
  const SEND_INTERVAL: nat := 1000

  // ------------------------------------------------------------ frame clock

  /** What nextFrame computes: one frame on, modulo the hyperframe. */
  function FollowingFrame(f: Uint32): (g: Uint32)
    ensures g < FRAME_MODULUS
  {
    (f + 1) % FRAME_MODULUS
  }

  /** n calls of nextFrame. */
  function Advance(f: Uint32, n: nat): Uint32
  {
    if n == 0 then f else FollowingFrame(Advance(f, n - 1))
  }

  /** Away from the end of the hyperframe, nextFrame is the following frame. */
  lemma FollowingFrameSmall(f: Uint32)
    requires f + 1 < FRAME_MODULUS
    ensures FollowingFrame(f) == f + 1
  {
  }

  /** For a clock well inside the hyperframe, the scheduled frame is
      CLOCK_ADVANCE frames on. */
  lemma ScheduledSmall(clk: int)
    requires 0 <= clk && clk + CLOCK_ADVANCE < FRAME_MODULUS
    ensures Scheduled(clk) == clk + CLOCK_ADVANCE
  {
  }

  /** In the last CLOCK_ADVANCE frames of the hyperframe, the scheduled
      frame wraps round to the start of the next hyperframe. */
  lemma ScheduledWraps(clk: int)
    requires FRAME_MODULUS - CLOCK_ADVANCE <= clk < FRAME_MODULUS
    ensures Scheduled(clk) == clk + CLOCK_ADVANCE - FRAME_MODULUS
  {
    ModUnique(clk, UINT32_RANGE, 0, clk);
    ModUnique(clk + CLOCK_ADVANCE, UINT32_RANGE, 0, clk + CLOCK_ADVANCE);
    ModUnique(clk + CLOCK_ADVANCE, FRAME_MODULUS, 1, clk + CLOCK_ADVANCE - FRAME_MODULUS);
  }

  /** From a frame inside the hyperframe, n calls of nextFrame land n frames
      further on, modulo the hyperframe. */
  lemma {:induction false} AdvanceIsSum(f: Uint32, n: nat)
    requires f < FRAME_MODULUS
    ensures Advance(f, n) == (f + n) % FRAME_MODULUS
  {
    if n > 0 {
      AdvanceIsSum(f, n - 1);
      ModShift(f + n - 1, 1, FRAME_MODULUS);
    }
  }

  /** FRAME_MODULUS calls of nextFrame return to the frame they started at. */
  lemma FrameCycle(f: Uint32)
    requires f < FRAME_MODULUS
    ensures Advance(f, FRAME_MODULUS) == f
  {
    AdvanceIsSum(f, FRAME_MODULUS);
    ModUnique(f + FRAME_MODULUS, FRAME_MODULUS, 1, f);
  }

  // --------------------------------------------------------------- session

  datatype Session = Session(
    available: bool, setupDone: bool, trxFrame: Uint32, currentFrame: Uint32, sendTm: int)

  /** The fields before the first event. */
  const INITIAL: Session := Session(false, false, 0, 0, 0)

  /** What one event leaves behind: the new session and the datagrams written
      to the control and data channels, in order. */
  datatype Output = Output(next: Session, control: seq<string>, data: seq<seq<Byte>>)

  /** sendCommand: nothing while the transceiver is unavailable, except
      POWEROFF; otherwise the encoded command. */
  function CommandOut(available: bool, cmd: Command, param: int): (msgs: seq<string>)
    ensures msgs == [] <==> !available && cmd != PowerOff
    ensures msgs != [] ==> msgs == [Encode(cmd, param)]
  {
    if !available && cmd != PowerOff then [] else [Encode(cmd, param)]
  }

  /** The radio part of setupTrx, in order: TX on ARFCN 1001's downlink
      frequency, RX on its uplink, training sequence 7, BSIC 63, power on,
      gain 10, power 0. */
  const TRANSCOM_RADIO: seq<Call> := [
    Call(PowerOff, 0), Call(TxTune, 885400), Call(RxTune, 930400),
    Call(SetTsc, 7), Call(SetBsic, 63), Call(PowerOn, 0),
    Call(SetRxGain, 10), Call(SetPower, 0)]

  /** The configuration of timeslots 0..7. */
  const SLOT_CONFIG: seq<int> := [5, 7, 1, 1, 1, 1, 1, 1]

  /** setupTrx: the radio commands, then SETSLOT for timeslots 0..7. */
  const TRANSCOM_SETUP: seq<Call> := TRANSCOM_RADIO + SlotCalls(SLOT_CONFIG)

  /** The command and numbers the transceiver should read from each setup
      datagram. */
  const TRANSCOM_SETUP_READ: seq<Parsed> := [
    Parsed(PowerOff, []), Parsed(TxTune, [885400]), Parsed(RxTune, [930400]),
    Parsed(SetTsc, [7]), Parsed(SetBsic, [63]), Parsed(PowerOn, []),
    Parsed(SetRxGain, [10]), Parsed(SetPower, [0])]
    + SlotReads(SLOT_CONFIG)

  /** The 148 bits of the dummy burst, tail bits included. */
  const DUMMY_BURST: seq<Byte> := [
    0, 0, 0, 1, 1, 1, 1, 1, 0, 1, 1, 0, 1, 1, 1, 0, 1, 1, 0, 0, 0, 0, 0, 1, 0, 1, 0, 0, 1, 0, 0, 1,
    1, 1, 0, 0, 0, 0, 0, 1, 0, 0, 1, 0, 0, 0, 1, 0, 0, 0, 0, 0, 0, 0, 1, 1, 1, 1, 1, 0, 0, 0, 1, 1,
    1, 0, 0, 0, 1, 0, 1, 1, 1, 0, 0, 0, 1, 0, 1, 1, 1, 0, 0, 0, 1, 0, 1, 0, 1, 1, 1, 0, 1, 0, 0, 1,
    0, 1, 0, 0, 0, 1, 1, 0, 0, 1, 1, 0, 0, 1, 1, 1, 0, 0, 1, 1, 1, 1, 0, 1, 0, 0, 1, 1, 1, 1, 1, 0,
    0, 0, 1, 0, 0, 1, 0, 1, 1, 1, 1, 1, 0, 1, 0, 1, 0, 0, 0, 0]

  /** The datagram sendDummyPacket writes for one timeslot. */
  function DummyDatagram(tn: Byte, fn: Uint32): seq<Byte>
  {
    Bursts.Downlink(tn, fn, 0, DUMMY_BURST)
  }

  /** The timeout branch of run: the flags drop and POWEROFF is sent. */
  function TimeoutStep(s: Session): Output
  {
    Output(s.(available := false, setupDone := false), CommandOut(false, PowerOff, 0), [])
  }

  /** The frame a heartbeat with clock clk schedules: clk is stored in the
      32-bit unsigned trxFrame, and the look-ahead sum wraps as a uint32_t
      before it is reduced to the hyperframe. */
  function Scheduled(clk: int): (f: Uint32)
    ensures f < FRAME_MODULUS
  {
    (clk % UINT32_RANGE + CLOCK_ADVANCE) % UINT32_RANGE % FRAME_MODULUS
  }

  /** handleClock(clk) at wall-clock time now (milliseconds). */
  function ClockStep(s: Session, clk: int, now: int): Output
  {
    var cur := Scheduled(clk);
    var s1 := s.(available := true, trxFrame := clk % UINT32_RANGE, currentFrame := cur);
    if !s.setupDone then
      Output(s1.(setupDone := true), Encoded(TRANSCOM_SETUP), [])
    else if s.sendTm < now then
      var f1 := FollowingFrame(cur);
      var f2 := FollowingFrame(f1);
      Output(s1.(currentFrame := f2, sendTm := now + SEND_INTERVAL), [],
             [DummyDatagram(0, f1), DummyDatagram(1, f2)])
    else
      Output(s1, [], [])
  }

  /** The clock branch of run: "IND CLOCK " then a number parseInt accepts. */
  function ParseClock(msg: string): Option<int>
  {
    if |msg| >= 10 && msg[..10] == "IND CLOCK " then Decimal.ParseInt(msg[10..]) else None
  }

  /** A clock datagram: handleClock on a parsed tick, otherwise nothing. */
  function ClockDatagramStep(s: Session, msg: string, now: int): Output
  {
    match ParseClock(msg)
    case None => Output(s, [], [])
    case Some(clk) => ClockStep(s, clk, now)
  }

  /** One return of select. */
  datatype Poll =
    | Silence
    | Failure
    | Ready(clock: Option<string>, reply: Option<string>, data: Option<seq<Byte>>)

  /** One pass of run's loop; None when select fails and the IOException ends
      run. A reply is only logged and an uplink datagram only decoded and
      logged (Bursts.HandleData), so neither changes the session. */
  function PollStep(s: Session, p: Poll, now: int): Option<Output>
  {
    match p
    case Silence => Some(TimeoutStep(s))
    case Failure => None
    case Ready(clock, _, _) =>
      Some(if clock.Some? then ClockDatagramStep(s, clock.value, now) else Output(s, [], []))
  }

  /** The session after a sequence of polls, everything written on the way,
      and whether a failure ended the loop. */
  datatype Trace = Trace(last: Session, control: seq<string>, data: seq<seq<Byte>>, failed: bool)

  /** One more pass of run's loop, unless a failure already ended it. */
  function Extend(t: Trace, p: Poll, now: int): Trace
  {
    if t.failed then t
    else
      match PollStep(t.last, p, now)
      case None => t.(failed := true)
      case Some(o) => Trace(o.next, t.control + o.control, t.data + o.data, false)
  }

  /** run's loop over polls, the i-th at wall-clock time nows[i]. */
  function RunSteps(s: Session, polls: seq<Poll>, nows: seq<int>): Trace
    requires |nows| == |polls|
  {
    if polls == [] then Trace(s, [], [], false)
    else Extend(RunSteps(s, polls[..|polls| - 1], nows[..|nows| - 1]), polls[|polls| - 1], nows[|nows| - 1])
  }

  lemma RunStepsSnoc(s: Session, polls: seq<Poll>, nows: seq<int>, p: Poll, now: int)
    requires |nows| == |polls|
    ensures RunSteps(s, polls + [p], nows + [now]) == Extend(RunSteps(s, polls, nows), p, now)
  {
    assert (polls + [p])[..|polls|] == polls;
    assert (nows + [now])[..|nows|] == nows;
  }

  // ------------------------------------------------------------ properties

  /** Silence makes the session unavailable and unconfigured and writes
      exactly one datagram, POWEROFF, even though the transceiver is now
      unavailable; the frames and the throttle are untouched. */
  lemma TimeoutPowersOff(s: Session)
    ensures var o := TimeoutStep(s);
      && !o.next.available && !o.next.setupDone
      && o.next.trxFrame == s.trxFrame && o.next.currentFrame == s.currentFrame
      && o.next.sendTm == s.sendTm
      && o.control == ["CMD POWEROFF\0"] && o.data == []
  {
    var msg := "CMD POWEROFF\0";
    assert Encode(PowerOff, 0) == msg by {
      assert |Encode(PowerOff, 0)| == |msg|;
      forall i | 0 <= i < |msg| ensures Encode(PowerOff, 0)[i] == msg[i] { }
    }
  }

  /** Every heartbeat makes the transceiver available, stores the clock as a
      32-bit frame and schedules CLOCK_ADVANCE frames ahead within the
      hyperframe. */
  lemma ClockSchedules(s: Session, clk: int, now: int)
    requires 0 <= clk && clk + CLOCK_ADVANCE < UINT32_RANGE
    ensures var o := ClockStep(s, clk, now);
      && o.next.available && o.next.setupDone && o.next.trxFrame == clk
      && o.next.currentFrame
         == (clk + CLOCK_ADVANCE + (if s.setupDone && s.sendTm < now then 2 else 0)) % FRAME_MODULUS
  {
    var cur := Scheduled(clk);
    ModUnique(clk, UINT32_RANGE, 0, clk);
    ModUnique(clk + CLOCK_ADVANCE, UINT32_RANGE, 0, clk + CLOCK_ADVANCE);
    assert cur == (clk + CLOCK_ADVANCE) % FRAME_MODULUS;
    var o := ClockStep(s, clk, now);
    if s.setupDone && s.sendTm < now {
      assert o.next.currentFrame == FollowingFrame(FollowingFrame(cur));
      assert Advance(cur, 1) == FollowingFrame(cur);
      assert Advance(cur, 2) == FollowingFrame(Advance(cur, 1));
      AdvanceIsSum(cur, 2);
      ModShift(clk + CLOCK_ADVANCE, 2, FRAME_MODULUS);
    } else {
      assert o.next.currentFrame == cur;
    }
  }

  /** The frame a heartbeat schedules is always inside the hyperframe. */
  lemma ClockFrameInRange(s: Session, clk: int, now: int)
    ensures ClockStep(s, clk, now).next.currentFrame < FRAME_MODULUS
    ensures ClockStep(s, clk, now).next.trxFrame == clk % UINT32_RANGE
  {
  }

  /** A heartbeat sends the setup exactly when setup is not done yet, and then
      sends nothing else. */
  lemma SetupOnlyWhenNeeded(s: Session, clk: int, now: int)
    ensures ClockStep(s, clk, now).control != [] <==> !s.setupDone
    ensures !s.setupDone ==>
      && ClockStep(s, clk, now).control == Encoded(TRANSCOM_SETUP)
      && |ClockStep(s, clk, now).control| == 16 && ClockStep(s, clk, now).data == []
  {
    assert |TRANSCOM_SETUP| == 16;
  }

  /** Setup happens once: a second heartbeat never resends it. */
  lemma SetupOnce(s: Session, clk1: int, now1: int, clk2: int, now2: int)
    ensures ClockStep(ClockStep(s, clk1, now1).next, clk2, now2).control == []
  {
  }

  /** After the heartbeat was lost, the next one runs the setup again. */
  lemma SetupAfterTimeout(s: Session, clk: int, now: int)
    ensures ClockStep(TimeoutStep(s).next, clk, now).control == Encoded(TRANSCOM_SETUP)
  {
  }

  /** The transceiver reads each setup datagram as the intended command with
      the intended numbers; in particular SETSLOT k carries timeslot k. */
  lemma SetupDecodes()
    ensures |Encoded(TRANSCOM_SETUP)| == |TRANSCOM_SETUP_READ| == 16
    ensures forall i :: 0 <= i < |TRANSCOM_SETUP| ==>
      Parse(Encoded(TRANSCOM_SETUP)[i]) == Some(TRANSCOM_SETUP_READ[i])
  {
    var slots := SlotCalls(SLOT_CONFIG);
    ReadsAppend(TRANSCOM_RADIO, slots);
    SlotCallsReadBack(SLOT_CONFIG);
    assert Reads(TRANSCOM_RADIO) == TRANSCOM_SETUP_READ[..8];
    assert Reads(TRANSCOM_SETUP) == TRANSCOM_SETUP_READ;
    EncodedReadBack(TRANSCOM_SETUP);
  }

  /** Once configured, a heartbeat after the throttle time sends the dummy
      burst on timeslots 0 and 1 in the two frames after the scheduled one,
      each as a full DATA_SEND_SIZE datagram, and holds the next packet back
      for SEND_INTERVAL milliseconds. */
  lemma DummyPackets(s: Session, clk: int, now: int)
    requires s.setupDone && s.sendTm < now
    ensures var sched := Scheduled(clk);
      var o := ClockStep(s, clk, now);
      && o.control == []
      && o.data == [DummyDatagram(0, (sched + 1) % FRAME_MODULUS),
                    DummyDatagram(1, (sched + 2) % FRAME_MODULUS)]
      && |o.data[0]| == Bursts.DATA_SEND_SIZE && |o.data[1]| == Bursts.DATA_SEND_SIZE
      && o.next.currentFrame == (sched + 2) % FRAME_MODULUS
      && o.next.sendTm == now + SEND_INTERVAL
  {
    var sched := Scheduled(clk);
    AdvanceIsSum(sched, 1);
    AdvanceIsSum(sched, 2);
    Bursts.DataSendWhen(true, 0, (sched + 1) % FRAME_MODULUS, 0, DUMMY_BURST);
    Bursts.DataSendWhen(true, 1, (sched + 2) % FRAME_MODULUS, 0, DUMMY_BURST);
  }

  /** A heartbeat within SEND_INTERVAL milliseconds of a dummy packet sends
      nothing. */
  lemma DummyThrottled(s: Session, clk1: int, now1: int, clk2: int, now2: int)
    requires s.setupDone && s.sendTm < now1 && now2 <= now1 + SEND_INTERVAL
    ensures ClockStep(ClockStep(s, clk1, now1).next, clk2, now2).data == []
  {
  }

  /** A clock datagram that parseInt reads back: every 32-bit tick is
      accepted. */
  lemma ParseClockFormat(x: int)
    requires Decimal.IsInt32(x)
    ensures ParseClock("IND CLOCK " + Decimal.Format(x)) == Some(x)
  {
    var msg := "IND CLOCK " + Decimal.Format(x);
    assert msg[..10] == "IND CLOCK " && msg[10..] == Decimal.Format(x);
    Decimal.ParseFormat(x);
  }

  /** Only a clock datagram can change the session: a reply, an uplink datagram
      of any length (157 bytes, one short, included) and a clock datagram
      that does not parse leave it as it is and write nothing. */
  lemma OnlyClockChangesSession(s: Session, clock: Option<string>, reply: Option<string>,
                                data: Option<seq<Byte>>, now: int)
    requires clock.None? || ParseClock(clock.value).None?
    ensures PollStep(s, Ready(clock, reply, data), now) == Some(Output(s, [], []))
  {
  }

  /** Heartbeats 100, 101 and 102, one millisecond apart, after run has
      started: the first configures the transceiver and schedules frame 120,
      the second schedules 121 and sends the dummy packet in frames 122 and
      123, the third schedules 122 and is throttled. */
  lemma HeartbeatScenario()
    ensures var s0 := INITIAL.(available := true);
      var p1 := Ready(Some("IND CLOCK 100"), None, None);
      var p2 := Ready(Some("IND CLOCK 101"), None, None);
      var p3 := Ready(Some("IND CLOCK 102"), None, None);
      var t1 := RunSteps(s0, [p1], [5000]);
      var t2 := RunSteps(s0, [p1, p2], [5000, 5001]);
      var t3 := RunSteps(s0, [p1, p2, p3], [5000, 5001, 5002]);
      && t1.last.currentFrame == 120 && t1.control == Encoded(TRANSCOM_SETUP) && t1.data == []
      && t2.last.trxFrame == 101 && t2.last.currentFrame == 123
      && t2.control == Encoded(TRANSCOM_SETUP)
      && t2.data == [DummyDatagram(0, 122), DummyDatagram(1, 123)]
      && t3.last.currentFrame == 122 && t3.last.trxFrame == 102
      && t3.control == t2.control && t3.data == t2.data && !t3.failed
  {
    var s0 := INITIAL.(available := true);
    var p1 := Ready(Some("IND CLOCK 100"), None, None);
    var p2 := Ready(Some("IND CLOCK 101"), None, None);
    var p3 := Ready(Some("IND CLOCK 102"), None, None);
    ClockTicks();
    var o1, o2, o3 := ScenarioClocks();
    assert PollStep(s0, p1, 5000) == Some(o1);
    assert PollStep(o1.next, p2, 5001) == Some(o2);
    assert PollStep(o2.next, p3, 5002) == Some(o3);
    RunStepsSnoc(s0, [], [], p1, 5000);
    assert [] + [p1] == [p1] && [] + [5000] == [5000];
    RunStepsSnoc(s0, [p1], [5000], p2, 5001);
    assert [p1] + [p2] == [p1, p2] && [5000] + [5001] == [5000, 5001];
    RunStepsSnoc(s0, [p1, p2], [5000, 5001], p3, 5002);
    assert [p1, p2] + [p3] == [p1, p2, p3] && [5000, 5001] + [5002] == [5000, 5001, 5002];
  }

  /** The three heartbeats of the scenario, one at a time. */
  lemma ScenarioClocks() returns (o1: Output, o2: Output, o3: Output)
    ensures o1 == ClockStep(INITIAL.(available := true), 100, 5000)
    ensures o1 == Output(Session(true, true, 100, 120, 0), Encoded(TRANSCOM_SETUP), [])
    ensures o2 == ClockStep(o1.next, 101, 5001)
    ensures o2 == Output(Session(true, true, 101, 123, 6001), [],
                         [DummyDatagram(0, 122), DummyDatagram(1, 123)])
    ensures o3 == ClockStep(o2.next, 102, 5002)
    ensures o3 == Output(Session(true, true, 102, 122, 6001), [], [])
  {
    ScheduledSmall(100);
    ScheduledSmall(101);
    ScheduledSmall(102);
    FollowingFrameSmall(121);
    FollowingFrameSmall(122);
    o1 := ClockStep(INITIAL.(available := true), 100, 5000);
    o2 := ClockStep(o1.next, 101, 5001);
    o3 := ClockStep(o2.next, 102, 5002);
  }

  lemma ClockTicks()
    ensures ParseClock("IND CLOCK 100") == Some(100)
    ensures ParseClock("IND CLOCK 101") == Some(101)
    ensures ParseClock("IND CLOCK 102") == Some(102)
  {
    ClockText(100);
    ClockText(101);
    ClockText(102);
    assert "IND CLOCK 100" == "IND CLOCK " + ['1', '0', '0'];
    assert "IND CLOCK 101" == "IND CLOCK " + ['1', '0', '1'];
    assert "IND CLOCK 102" == "IND CLOCK " + ['1', '0', '2'];
  }

  /** The clock text of a three-digit tick parses to that tick. */
  lemma ClockText(n: nat)
    requires 100 <= n < 1000
    ensures ParseClock("IND CLOCK " + [Decimal.DigitChar(n / 100), Decimal.DigitChar(n / 10 % 10),
                                        Decimal.DigitChar(n % 10)]) == Some(n)
  {
    var digits := [Decimal.DigitChar(n / 100), Decimal.DigitChar(n / 10 % 10), Decimal.DigitChar(n % 10)];
    var msg := "IND CLOCK " + digits;
    assert msg[..10] == "IND CLOCK " && msg[10..] == digits;
    assert digits[..2][..1] == digits[..1];
    assert Decimal.Value(digits[..1]) == n / 100;
    assert Decimal.Value(digits[..2]) == n / 10;
  }

  lemma RadioMessages()
    ensures Encoded(TRANSCOM_RADIO) == [
      Encode(PowerOff, 0), Encode(TxTune, 885400), Encode(RxTune, 930400), Encode(SetTsc, 7),
      Encode(SetBsic, 63), Encode(PowerOn, 0), Encode(SetRxGain, 10), Encode(SetPower, 0)]
  {
  }

  lemma SlotMessages()
    ensures Encoded(SlotCalls(SLOT_CONFIG)) == [
      Encode(SetSlot, MakeParam(0, 5)), Encode(SetSlot, MakeParam(1, 7)),
      Encode(SetSlot, MakeParam(2, 1)), Encode(SetSlot, MakeParam(3, 1)),
      Encode(SetSlot, MakeParam(4, 1)), Encode(SetSlot, MakeParam(5, 1)),
      Encode(SetSlot, MakeParam(6, 1)), Encode(SetSlot, MakeParam(7, 1))]
  {
  }

  // ------------------------------------------------------------------ class

  /** The session object: its fields change in place; control and data log
      the datagrams written to the two channels. */
  class Transcom {
    var available: bool
    var setupDone: bool
    var trxFrame: Uint32
    var currentFrame: Uint32
    var sendTm: int
    ghost var control: seq<string>
    ghost var data: seq<seq<Byte>>

    function State(): Session
      reads this
    {
      Session(available, setupDone, trxFrame, currentFrame, sendTm)
    }

    /** The fields now are o.next, and o's datagrams were appended to the
        logs. */
    twostate predicate Emitted(o: Output)
      reads this
    {
      State() == o.next && control == old(control) + o.control && data == old(data) + o.data
    }

    constructor ()
      ensures State() == INITIAL && control == [] && data == []
    {
      available, setupDone := false, false;
      trxFrame, currentFrame := 0, 0;
      sendTm := 0;
      control, data := [], [];
    }

    method NextFrame() returns (f: Uint32)
      modifies this
      ensures f == FollowingFrame(old(currentFrame))
      ensures State() == old(State()).(currentFrame := f)
      ensures control == old(control) && data == old(data)
    {
      currentFrame := (currentFrame + 1) % FRAME_MODULUS;
      f := currentFrame;
    }

    method SendCommand(cmd: Command, param: int)
      modifies this
      ensures State() == old(State()) && data == old(data)
      ensures control == old(control) + CommandOut(old(available), cmd, param)
    {
      if !available && cmd != PowerOff {
        return;
      }
      control := control + [Encode(cmd, param)];
    }

    method SendData(tn: Byte, fn: Uint32, gain: Byte, payload: seq<Byte>) returns (r: Bursts.SendOutcome)
      modifies this
      ensures r == Bursts.DataSend(old(available), tn, fn, gain, payload)
      ensures Emitted(Output(old(State()), [], if r.Sent? then [r.datagram] else []))
    {
      r := Bursts.SendData(available, tn, fn, gain, payload);
      if r.Sent? {
        data := data + [r.datagram];
      }
    }

    /** sendDummyPacket: the dummy burst on timeslots 0 and 1 in the next two
        frames; while the transceiver is unavailable both sends are dropped,
        but the frame still moves on twice. */
    method SendDummyPacket()
      modifies this
      ensures var f1 := FollowingFrame(old(currentFrame));
        var f2 := FollowingFrame(f1);
        Emitted(Output(old(State()).(currentFrame := f2), [],
          if old(available) then [DummyDatagram(0, f1), DummyDatagram(1, f2)] else []))
    {
      var tn := 0;
      var fn := NextFrame();
      var r := SendData(tn, fn, 0, DUMMY_BURST);
      Bursts.DataSendWhen(available, tn, fn, 0, DUMMY_BURST);
      tn := tn + 1;
      fn := NextFrame();
      r := SendData(tn, fn, 0, DUMMY_BURST);
      Bursts.DataSendWhen(available, tn, fn, 0, DUMMY_BURST);
    }

    /** setupTrx: sixteen commands, then setupDone. It runs right after
        handleClock has made the transceiver available. */
    method SetupTrx()
      requires available
      modifies this
      ensures Emitted(Output(old(State()).(setupDone := true), Encoded(TRANSCOM_SETUP), []))
    {
      ghost var c0 := control;
      SetupRadio();
      SetupSlots();
      ReadsAppend(TRANSCOM_RADIO, SlotCalls(SLOT_CONFIG));
      AppendAssoc(c0, Encoded(TRANSCOM_RADIO), Encoded(SlotCalls(SLOT_CONFIG)));
      setupDone := true;
    }

    /** The first eight commands of setupTrx. */
    method SetupRadio()
      requires available
      modifies this
      ensures Emitted(Output(old(State()), Encoded(TRANSCOM_RADIO), []))
    {
      ghost var c0 := control;
      SendCommand(PowerOff, 0);
      SendCommand(TxTune, 885400);
      SendCommand(RxTune, 930400);
      SendCommand(SetTsc, 7);
      SendCommand(SetBsic, 63);
      SendCommand(PowerOn, 0);
      SendCommand(SetRxGain, 10);
      SendCommand(SetPower, 0);
      RadioMessages();
      AppendEight(c0, Encode(PowerOff, 0), Encode(TxTune, 885400), Encode(RxTune, 930400),
        Encode(SetTsc, 7), Encode(SetBsic, 63), Encode(PowerOn, 0), Encode(SetRxGain, 10),
        Encode(SetPower, 0));
    }

    /** The eight SETSLOT commands of setupTrx. */
    method SetupSlots()
      requires available
      modifies this
      ensures Emitted(Output(old(State()), Encoded(SlotCalls(SLOT_CONFIG)), []))
    {
      ghost var c0 := control;
      SendCommand(SetSlot, MakeParam(0, 5));
      SendCommand(SetSlot, MakeParam(1, 7));
      SendCommand(SetSlot, MakeParam(2, 1));
      SendCommand(SetSlot, MakeParam(3, 1));
      SendCommand(SetSlot, MakeParam(4, 1));
      SendCommand(SetSlot, MakeParam(5, 1));
      SendCommand(SetSlot, MakeParam(6, 1));
      SendCommand(SetSlot, MakeParam(7, 1));
      SlotMessages();
      AppendEight(c0, Encode(SetSlot, MakeParam(0, 5)), Encode(SetSlot, MakeParam(1, 7)),
        Encode(SetSlot, MakeParam(2, 1)), Encode(SetSlot, MakeParam(3, 1)),
        Encode(SetSlot, MakeParam(4, 1)), Encode(SetSlot, MakeParam(5, 1)),
        Encode(SetSlot, MakeParam(6, 1)), Encode(SetSlot, MakeParam(7, 1)));
    }

    /** handleClock(clk) at wall-clock time now. */
    method HandleClock(clk: int, now: int)
      modifies this
      ensures Emitted(ClockStep(old(State()), clk, now))
    {
      available := true;
      trxFrame := clk % UINT32_RANGE;
      currentFrame := trxFrame;
      currentFrame := (currentFrame + CLOCK_ADVANCE) % UINT32_RANGE % FRAME_MODULUS;
      if !setupDone {
        SetupTrx();
      } else if sendTm < now {
        sendTm := now + SEND_INTERVAL;
        SendDummyPacket();
      }
    }

    /** The clock branch of run. */
    method ReceiveClock(msg: string, now: int)
      modifies this
      ensures Emitted(ClockDatagramStep(old(State()), msg, now))
    {
      var clk := ParseClock(msg);
      if clk.Some? {
        HandleClock(clk.value, now);
      }
    }

    /** The timeout branch of run. */
    method OnTimeout()
      modifies this
      ensures Emitted(TimeoutStep(old(State())))
    {
      available := false;
      setupDone := false;
      SendCommand(PowerOff, 0);
    }

    /** One pass of run's loop; false when select failed. */
    method Poll(p: Poll, now: int) returns (ok: bool)
      modifies this
      ensures ok == PollStep(old(State()), p, now).Some?
      ensures ok ==> Emitted(PollStep(old(State()), p, now).value)
      ensures !ok ==> Emitted(Output(old(State()), [], []))
    {
      match p {
        case Silence =>
          OnTimeout();
        case Failure =>
          return false;
        case Ready(clock, reply, datagram) =>
          if clock.Some? {
            ReceiveClock(clock.value, now);
          }
          if datagram.Some? {
            var _ := Bursts.HandleData(datagram.value);
          }
      }
      return true;
    }

    /** run over a finite sequence of polls, the i-th at wall-clock time
        nows[i]; it returns true when a failing select ended the loop. */
    method Run(polls: seq<Poll>, nows: seq<int>) returns (failed: bool)
      requires |nows| == |polls|
      modifies this
      ensures var t := RunSteps(old(State()).(available := true), polls, nows);
        Emitted(Output(t.last, t.control, t.data)) && failed == t.failed
    {
      available := true;
      ghost var s0 := State();
      ghost var c0, d0 := control, data;
      ghost var t := Trace(s0, [], [], false);
      var i := 0;
      while i < |polls|
        invariant 0 <= i <= |polls|
        invariant t == RunSteps(s0, polls[..i], nows[..i])
        invariant !t.failed && State() == t.last
        invariant control == c0 + t.control && data == d0 + t.data
      {
        RunStepsNext(s0, polls, nows, i);
        ghost var step := PollStep(t.last, polls[i], nows[i]);
        var ok := Poll(polls[i], nows[i]);
        if !ok {
          t := t.(failed := true);
          RunStepsFailed(s0, polls, nows, i + 1);
          return true;
        }
        ghost var o := step.value;
        ExtendWith(t, polls[i], nows[i]);
        AppendAssoc(c0, t.control, o.control);
        AppendAssoc(d0, t.data, o.data);
        t := Extend(t, polls[i], nows[i]);
        i := i + 1;
      }
      assert polls[..i] == polls && nows[..i] == nows;
      failed := false;
    }
  }

  lemma AppendAssoc<T>(a: seq<T>, b: seq<T>, c: seq<T>)
    ensures a + (b + c) == a + b + c
  {
  }

  /** Eight single appends are one append of the eight. */
  lemma AppendEight<T>(c: seq<T>, x0: T, x1: T, x2: T, x3: T, x4: T, x5: T, x6: T, x7: T)
    ensures c + [x0] + [x1] + [x2] + [x3] + [x4] + [x5] + [x6] + [x7]
         == c + [x0, x1, x2, x3, x4, x5, x6, x7]
  {
  }

  lemma ExtendWith(t: Trace, p: Poll, now: int)
    requires !t.failed
    ensures var o := PollStep(t.last, p, now);
      Extend(t, p, now) == if o.None? then t.(failed := true)
        else Trace(o.value.next, t.control + o.value.control, t.data + o.value.data, false)
  {
  }

  lemma RunStepsNext(s: Session, polls: seq<Poll>, nows: seq<int>, i: nat)
    requires |nows| == |polls| && i < |polls|
    ensures RunSteps(s, polls[..i + 1], nows[..i + 1])
      == Extend(RunSteps(s, polls[..i], nows[..i]), polls[i], nows[i])
  {
    RunStepsSnoc(s, polls[..i], nows[..i], polls[i], nows[i]);
    assert polls[..i + 1] == polls[..i] + [polls[i]];
    assert nows[..i + 1] == nows[..i] + [nows[i]];
  }

  /** Once a failure ended the loop, later polls change nothing. */
  lemma {:induction false} RunStepsFailed(s: Session, polls: seq<Poll>, nows: seq<int>, i: nat)
    requires |nows| == |polls| && i <= |polls|
    requires RunSteps(s, polls[..i], nows[..i]).failed
    ensures RunSteps(s, polls, nows) == RunSteps(s, polls[..i], nows[..i])
    decreases |polls| - i
  {
    if i < |polls| {
      RunStepsSnoc(s, polls[..i], nows[..i], polls[i], nows[i]);
      assert polls[..i + 1] == polls[..i] + [polls[i]];
      assert nows[..i + 1] == nows[..i] + [nows[i]];
      RunStepsFailed(s, polls, nows, i + 1);
    } else {
      assert polls[..i] == polls && nows[..i] == nows;
    }
  }
}
