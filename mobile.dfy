/*
 * MobileStation (MobileStation.cpp), the earlier client of the same
 * transceiver protocol. It shares the command encoder of Control, but it
 * sends every command (there is no availability gate), it sends its setup once
 * at the top of run, it reads the clock with sscanf's "IND CLOCK %u", and it
 * stops with an exception on an uplink datagram of the wrong length.
 *
 * The station keeps no session: what run does is visible only in the
 * datagrams written to the control channel (control) and the ticks handed to
 * handleClock (clocks), which only logs them.
 */
module Mobile {
  import opened Wrappers
  import opened Control
  import Decimal
  import Bursts
  import Transceiver
  import Modular

  /** strtoul, which %u applies, returns an unsigned long of 64 bits. */
  const ULONG_RANGE: nat := 0x1_0000_0000_0000_0000

  /** The radio part of run's setup: RX on 885400 and TX on 930400, where
      Transcom's setupTrx tunes TX to 885400 and RX to 930400. */
  const MS_RADIO: seq<Call> := [
    Call(PowerOff, 0), Call(RxTune, 885400), Call(TxTune, 930400),
    Call(SetTsc, 7), Call(SetBsic, 63), Call(PowerOn, 0),
    Call(SetRxGain, 10), Call(SetPower, 0)]

  /** The sixteen commands at the top of run. */
  const MS_SETUP: seq<Call> := MS_RADIO + SlotCalls(Transceiver.SLOT_CONFIG)

  // ------------------------------------------------------ "IND CLOCK %u"

  /** isspace in the C locale. */
  predicate IsSpace(c: char)
  {
    c == ' ' || '\t' <= c <= '\r'
  }

  /** The number of white-space characters s starts with. */
  function SpacePrefix(s: string): (n: nat)
    ensures n <= |s| && (n < |s| ==> !IsSpace(s[n]))
    ensures forall i :: 0 <= i < n ==> IsSpace(s[i])
  {
    if s != [] && IsSpace(s[0]) then 1 + SpacePrefix(s[1..]) else 0
  }

  /** A blank in a scanf format, or the white space %u skips: any number of
      white-space characters, none included. */
  function SkipSpace(s: string): string
  {
    s[SpacePrefix(s)..]
  }

  /** The number of decimal digits s starts with. */
  function DigitPrefix(s: string): (n: nat)
    ensures n <= |s| && Decimal.AllDigits(s[..n])
    ensures n < |s| ==> !Decimal.IsDigit(s[n])
  {
    if s != [] && Decimal.IsDigit(s[0]) then
      var n := 1 + DigitPrefix(s[1..]);
      assert s[..n] == [s[0]] + s[1..][..n - 1];
      n
    else 0
  }

  /** %u after its white space: an optional sign and at least one digit;
      the rest of the text is not looked at. As strtoul does, a minus sign
      negates modulo the word, and a magnitude beyond an unsigned long
      saturates. */
  function ScanNumber(t: string): (r: Option<int>)
    ensures r.Some? ==> 0 <= r.value < Transceiver.UINT32_RANGE
  {
    var body := if t != [] && (t[0] == '-' || t[0] == '+') then t[1..] else t;
    var n := DigitPrefix(body);
    if n == 0 then None
    else
      var v := Decimal.Value(body[..n]);
      if v >= ULONG_RANGE then Some(Transceiver.UINT32_RANGE - 1)
      else if t[0] == '-' then Some((0 - v) % Transceiver.UINT32_RANGE)
      else Some(v % Transceiver.UINT32_RANGE)
  }

  /** %u into the unsigned int it fills. */
  function ScanUnsigned(s: string): (r: Option<int>)
    ensures r.Some? ==> 0 <= r.value < Transceiver.UINT32_RANGE
  {
    ScanNumber(SkipSpace(s))
  }

  /** A literal word of a scanf format: the text after it, when the text
      starts with it. */
  function Literal(s: string, w: string): (r: Option<string>)
    ensures r.Some? <==> |w| <= |s| && s[..|w|] == w
    ensures r.Some? ==> r.value == s[|w|..]
  {
    if |w| <= |s| && s[..|w|] == w then Some(s[|w|..]) else None
  }

  /** sscanf(text, "IND CLOCK %u", &clock) == 1: "IND", white space, "CLOCK",
      white space and a number %u accepts. */
  function ScanClock(msg: string): (r: Option<int>)
    ensures r.Some? ==> 0 <= r.value < Transceiver.UINT32_RANGE
  {
    match Literal(msg, "IND")
    case None => None
    case Some(a) =>
      match Literal(SkipSpace(a), "CLOCK")
      case None => None
      case Some(b) => ScanUnsigned(b)
  }

  /** The tick as handleClock receives it: `%u` stores the 32-bit word into
      the `int clock` of run, so a word of 2^31 or more arrives negative. */
  function ClockArg(u: int): (v: int)
    requires 0 <= u < Transceiver.UINT32_RANGE
    ensures Decimal.IsInt32(v) && v % Transceiver.UINT32_RANGE == u
  {
    if u <= Decimal.INT32_MAX then u
    else
      Modular.ModUnique(u - Transceiver.UINT32_RANGE, Transceiver.UINT32_RANGE, -1, u);
      u - Transceiver.UINT32_RANGE
  }

  // ---------------------------------------------------------------- run

  /** handleData: the error message when the datagram is not
      DATA_RECV_SIZE bytes long, carrying the length it had. */
  function DataError(d: seq<Bursts.Byte>): (r: Option<int>)
    ensures r.Some? <==> |d| != Bursts.DATA_RECV_SIZE
    ensures r.Some? ==> r.value == |d|
  {
    if |d| != Bursts.DATA_RECV_SIZE then Some(|d|) else None
  }

  /** How run ends: it has not (the polls ran out), select failed, or
      handleData threw on a datagram of length rem. */
  datatype Stop = Running | SelectFailed | WrongLength(rem: int)

  /** One pass of run's loop: the tick handed to handleClock, if any, and
      whether the loop goes on. */
  datatype Pass = Pass(clocks: seq<int>, stop: Stop)

  function PollPass(p: Transceiver.Poll): Pass
  {
    match p
    case Silence => Pass([], Running)
    case Failure => Pass([], SelectFailed)
    case Ready(clock, _, data) =>
      var ticks := if clock.Some? && ScanClock(clock.value).Some? then [ClockArg(ScanClock(clock.value).value)] else [];
      var stop := if data.Some? && DataError(data.value).Some? then WrongLength(DataError(data.value).value) else Running;
      Pass(ticks, stop)
  }

  /** run's loop over a sequence of polls: the ticks handled and how it
      ended. Nothing after a pass that stops the loop is looked at. */
  function RunPasses(polls: seq<Transceiver.Poll>): Pass
  {
    if polls == [] then Pass([], Running)
    else
      var before := RunPasses(polls[..|polls| - 1]);
      if before.stop != Running then before
      else
        var last := PollPass(polls[|polls| - 1]);
        Pass(before.clocks + last.clocks, last.stop)
  }

  // --------------------------------------------------------- properties

  /** After "IND CLOCK ", sscanf reads what %u reads. */
  lemma ScanHeader(s: string)
    ensures ScanClock("IND CLOCK " + s) == ScanUnsigned(s)
  {
    var rest := "CLOCK" + ([' '] + s);
    assert "IND CLOCK " + s == "IND" + ([' '] + rest);
    LiteralOf("IND", [' '] + rest);
    SkipOne(rest);
    assert SpacePrefix(rest) == 0 by {
      assert rest[0] == 'C';
    }
    LiteralOf("CLOCK", [' '] + s);
    SkipOne(s);
  }

  lemma LiteralOf(w: string, s: string)
    ensures Literal(w + s, w) == Some(s)
  {
    assert (w + s)[..|w|] == w && (w + s)[|w|..] == s;
  }

  /** One blank before a text is skipped like all of its white space. */
  lemma SkipOne(s: string)
    ensures SkipSpace([' '] + s) == SkipSpace(s)
    ensures ScanUnsigned([' '] + s) == ScanUnsigned(s)
  {
    var t := [' '] + s;
    assert t[1..] == s;
    assert SpacePrefix(t) == 1 + SpacePrefix(s);
    assert t[1 + SpacePrefix(s)..] == s[SpacePrefix(s)..];
  }

  /** %u reads every text parseInt accepts, as the same number modulo
      2^32. */
  lemma ScanParsed(s: string)
    requires Decimal.ParseInt(s).Some?
    ensures ScanUnsigned(s) == Some(Decimal.ParseInt(s).value % Transceiver.UINT32_RANGE)
  {
    assert SpacePrefix(s) == 0;
    var body := if s[0] == '-' || s[0] == '+' then s[1..] else s;
    assert Decimal.AllDigits(body);
    DigitsWhole(body);
  }

  /** Every number Integer::parseInt reads after "IND CLOCK " is read by
      "IND CLOCK %u" as well, as the same 32-bit word. */
  lemma ScanAcceptsParsed(msg: string)
    requires Transceiver.ParseClock(msg).Some?
    ensures ScanClock(msg) == Some(Transceiver.ParseClock(msg).value % Transceiver.UINT32_RANGE)
  {
    assert msg == "IND CLOCK " + msg[10..];
    ScanHeader(msg[10..]);
    ScanParsed(msg[10..]);
  }

  /** A string of digits is one digit run as a whole. */
  lemma {:induction false} DigitsWhole(s: string)
    requires Decimal.AllDigits(s)
    ensures DigitPrefix(s) == |s| && s[..|s|] == s
  {
    if s != [] {
      DigitsWhole(s[1..]);
    }
  }

  /** Every tick the transceiver can send, printed as "%u" after
      "IND CLOCK ", is handled as itself. */
  lemma ScanClockFormat(x: int)
    requires 0 <= x <= Decimal.INT32_MAX
    ensures ScanClock("IND CLOCK " + Decimal.Format(x)) == Some(x)
  {
    var f := Decimal.Format(x);
    Decimal.ParseFormat(x);
    ScanHeader(f);
    ScanParsed(f);
    Modular.ModUnique(x, Transceiver.UINT32_RANGE, 0, x);
  }

  /** Transcom's parser after "IND CLOCK ". */
  lemma ParseHeader(s: string)
    ensures Transceiver.ParseClock("IND CLOCK " + s) == Decimal.ParseInt(s)
  {
    var m := "IND CLOCK " + s;
    assert m[..10] == "IND CLOCK " && m[10..] == s;
  }

  /** sscanf is more lenient than Transcom's parser: the text after the
      number is not looked at. */
  lemma ScanIgnoresTail()
    ensures ScanClock("IND CLOCK " + "42 x") == Some(42)
    ensures Transceiver.ParseClock("IND CLOCK " + "42 x") == None
  {
    ScanHeader("42 x");
    assert SpacePrefix("42 x") == 0;
    assert DigitPrefix("42 x") == 2 by {
      assert "42 x"[1..] == "2 x";
      assert "2 x"[1..] == " x";
    }
    assert "42 x"[..2] == "42";
    assert Decimal.Value("42") == 42 by {
      assert "42"[..1] == "4";
      assert "4"[..0] == "";
    }
    Modular.ModUnique(42, Transceiver.UINT32_RANGE, 0, 42);
    ParseHeader("42 x");
    assert !Decimal.IsDigit("42 x"[2]);
  }

  /** A negative tick, which parseInt reads as itself, is read by %u modulo
      2^32. */
  lemma ScanNegativeWraps()
    ensures ScanClock("IND CLOCK " + "-1") == Some(Transceiver.UINT32_RANGE - 1)
    ensures Transceiver.ParseClock("IND CLOCK " + "-1") == Some(-1)
  {
    ScanHeader("-1");
    assert SpacePrefix("-1") == 0;
    assert "-1"[1..] == "1";
    assert DigitPrefix("1") == 1 by {
      assert "1"[1..] == "";
    }
    assert "1"[..1] == "1";
    assert Decimal.Value("1") == 1 by {
      assert "1"[..0] == "";
    }
    Modular.ModUnique(-1, Transceiver.UINT32_RANGE, -1, Transceiver.UINT32_RANGE - 1);
    ParseHeader("-1");
  }

  /** Only a text that starts with "IND" and then has "CLOCK" after white
      space reaches handleClock. */
  lemma ScanClockShape(msg: string) returns (k: nat)
    requires ScanClock(msg).Some?
    ensures msg[..3] == "IND"
    ensures 3 <= k <= |msg| - 5 && msg[k..k + 5] == "CLOCK"
    ensures forall i :: 3 <= i < k ==> IsSpace(msg[i])
  {
    var rest := SkipSpace(msg[3..]);
    k := |msg| - |rest|;
    assert msg[k..k + 5] == rest[..5];
    forall i | 3 <= i < k
      ensures IsSpace(msg[i])
    {
      assert msg[i] == msg[3..][i - 3];
    }
  }

  /** The two setups send the same sixteen commands, except that the
      frequencies trade places: the station receives on the frequency Transcom
      transmits on, and transmits on the one Transcom receives on. */
  lemma SetupsSwapTuning()
    ensures |MS_SETUP| == |Transceiver.TRANSCOM_SETUP| == 16
    ensures forall i :: 0 <= i < 16 && i != 1 && i != 2 ==> MS_SETUP[i] == Transceiver.TRANSCOM_SETUP[i]
    ensures MS_SETUP[1] == Call(RxTune, Transceiver.TRANSCOM_SETUP[1].param)
    ensures MS_SETUP[2] == Call(TxTune, Transceiver.TRANSCOM_SETUP[2].param)
    ensures Transceiver.TRANSCOM_SETUP[1].cmd == TxTune && Transceiver.TRANSCOM_SETUP[2].cmd == RxTune
  {
    assert MS_SETUP[..8] == MS_RADIO;
    assert Transceiver.TRANSCOM_SETUP[..8] == Transceiver.TRANSCOM_RADIO;
    assert MS_SETUP[8..] == Transceiver.TRANSCOM_SETUP[8..];
    assert MS_SETUP[1] == MS_RADIO[1] && MS_SETUP[2] == MS_RADIO[2];
    assert Transceiver.TRANSCOM_SETUP[1] == Transceiver.TRANSCOM_RADIO[1];
    assert Transceiver.TRANSCOM_SETUP[2] == Transceiver.TRANSCOM_RADIO[2];
    forall i | 0 <= i < 16 && i != 1 && i != 2
      ensures MS_SETUP[i] == Transceiver.TRANSCOM_SETUP[i]
    {
      if i >= 8 {
        assert MS_SETUP[i] == MS_SETUP[8..][i - 8];
        assert Transceiver.TRANSCOM_SETUP[i] == Transceiver.TRANSCOM_SETUP[8..][i - 8];
      }
    }
  }

  /** The transceiver reads each setup datagram as the command that was
      meant, with its numbers; SETSLOT k carries timeslot k. */
  lemma SetupDecodes()
    ensures forall i :: 0 <= i < |MS_SETUP| ==> Parse(Encoded(MS_SETUP)[i]) == Some(Reads(MS_SETUP)[i])
    ensures Reads(MS_SETUP)[8..] == SlotReads(Transceiver.SLOT_CONFIG)
  {
    ReadsAppend(MS_RADIO, SlotCalls(Transceiver.SLOT_CONFIG));
    SlotCallsReadBack(Transceiver.SLOT_CONFIG);
    EncodedReadBack(MS_SETUP);
  }

  /** An idle select changes nothing and the loop goes on. */
  lemma IdleDoesNothing(polls: seq<Transceiver.Poll>)
    requires RunPasses(polls).stop == Running
    ensures RunPasses(polls + [Transceiver.Silence]) == RunPasses(polls)
  {
    assert (polls + [Transceiver.Silence])[..|polls|] == polls;
  }

  /** Once the loop stopped, later polls change nothing. */
  lemma {:induction false} StoppedStaysStopped(polls: seq<Transceiver.Poll>, more: seq<Transceiver.Poll>)
    requires RunPasses(polls).stop != Running
    ensures RunPasses(polls + more) == RunPasses(polls)
    decreases |more|
  {
    if more != [] {
      var init := polls + more[..|more| - 1];
      StoppedStaysStopped(polls, more[..|more| - 1]);
      assert (polls + more)[..|polls + more| - 1] == init;
    } else {
      assert polls + more == polls;
    }
  }

  /** A datagram one byte short ends run with the wrong-length error, and a
      clock in the same pass is still handled first. */
  lemma ShortDatagramStops(polls: seq<Transceiver.Poll>, d: seq<Bursts.Byte>, x: int)
    requires RunPasses(polls).stop == Running
    requires |d| == Bursts.DATA_RECV_SIZE - 1 && 0 <= x <= Decimal.INT32_MAX
    ensures var p := Transceiver.Ready(Some("IND CLOCK " + Decimal.Format(x)), None, Some(d));
      RunPasses(polls + [p]) == Pass(RunPasses(polls).clocks + [x], WrongLength(157))
  {
    var p := Transceiver.Ready(Some("IND CLOCK " + Decimal.Format(x)), None, Some(d));
    ScanClockFormat(x);
    assert PollPass(p) == Pass([x], WrongLength(157));
    assert (polls + [p])[..|polls|] == polls;
  }

  /** handleData of the station and of Transcom drop the same datagrams for
      their length. */
  lemma SameLengthCheck(d: seq<Bursts.Byte>)
    ensures DataError(d).Some? <==> Bursts.HandleData(d).WrongLength?
    ensures DataError(d).Some? ==> Bursts.HandleData(d) == Bursts.WrongLength(DataError(d).value)
  {
  }

  // -------------------------------------------------------------- class

  /** The station: control logs the datagrams written to the control channel,
      clocks the ticks handed to handleClock. */
  class MobileStation {
    ghost var control: seq<string>
    ghost var clocks: seq<int>

    constructor ()
      ensures control == [] && clocks == []
    {
      control, clocks := [], [];
    }

    /** sendCommand: every call writes exactly one datagram. */
    method SendCommand(cmd: Command, param: int)
      modifies this
      ensures control == old(control) + [Encode(cmd, param)] && clocks == old(clocks)
    {
      control := control + [Encode(cmd, param)];
    }

    /** The sixteen commands at the top of run. */
    method Setup()
      modifies this
      ensures control == old(control) + Encoded(MS_SETUP) && clocks == old(clocks)
    {
      ghost var c0 := control;
      SetupRadio();
      SetupSlots();
      ReadsAppend(MS_RADIO, SlotCalls(Transceiver.SLOT_CONFIG));
      Transceiver.AppendAssoc(c0, Encoded(MS_RADIO), Encoded(SlotCalls(Transceiver.SLOT_CONFIG)));
    }

    /** The first eight commands of run. */
    method SetupRadio()
      modifies this
      ensures control == old(control) + Encoded(MS_RADIO) && clocks == old(clocks)
    {
      ghost var c0 := control;
      SendCommand(PowerOff, 0);
      SendCommand(RxTune, 885400);
      SendCommand(TxTune, 930400);
      SendCommand(SetTsc, 7);
      SendCommand(SetBsic, 63);
      SendCommand(PowerOn, 0);
      SendCommand(SetRxGain, 10);
      SendCommand(SetPower, 0);
      RadioMessages();
      Transceiver.AppendEight(c0, Encode(PowerOff, 0), Encode(RxTune, 885400), Encode(TxTune, 930400),
        Encode(SetTsc, 7), Encode(SetBsic, 63), Encode(PowerOn, 0), Encode(SetRxGain, 10),
        Encode(SetPower, 0));
    }

    /** The eight SETSLOT commands of run. */
    method SetupSlots()
      modifies this
      ensures control == old(control) + Encoded(SlotCalls(Transceiver.SLOT_CONFIG)) && clocks == old(clocks)
    {
      ghost var c0 := control;
      SendCommand(SetSlot, MakeParam(0, 5));
      SendCommand(SetSlot, MakeParam(1, 7));
      SendCommand(SetSlot, MakeParam(2, 1));
      SendCommand(SetSlot, MakeParam(3, 1));
      SendCommand(SetSlot, MakeParam(4, 1));
      SendCommand(SetSlot, MakeParam(5, 1));
      SendCommand(SetSlot, MakeParam(6, 1));
      SendCommand(SetSlot, MakeParam(7, 1));
      Transceiver.SlotMessages();
      Transceiver.AppendEight(c0, Encode(SetSlot, MakeParam(0, 5)), Encode(SetSlot, MakeParam(1, 7)),
        Encode(SetSlot, MakeParam(2, 1)), Encode(SetSlot, MakeParam(3, 1)),
        Encode(SetSlot, MakeParam(4, 1)), Encode(SetSlot, MakeParam(5, 1)),
        Encode(SetSlot, MakeParam(6, 1)), Encode(SetSlot, MakeParam(7, 1)));
    }

    /** handleClock: the tick is only logged. */
    method HandleClock(clk: int)
      modifies this
      ensures clocks == old(clocks) + [clk] && control == old(control)
    {
      clocks := clocks + [clk];
    }

    /** One pass of run's loop. */
    method Poll(p: Transceiver.Poll) returns (stop: Stop)
      modifies this
      ensures stop == PollPass(p).stop
      ensures clocks == old(clocks) + PollPass(p).clocks && control == old(control)
    {
      match p {
        case Silence =>
          return Running;
        case Failure =>
          return SelectFailed;
        case Ready(clock, _, data) =>
          if clock.Some? {
            var clk := ScanClock(clock.value);
            if clk.Some? {
              HandleClock(ClockArg(clk.value));
            }
          }
          stop := Running;
          if data.Some? {
            var err := HandleData(data.value);
            if err.Some? {
              stop := WrongLength(err.value);
            }
          }
      }
    }

    /** handleData: the length check. */
    method HandleData(d: seq<Bursts.Byte>) returns (err: Option<int>)
      ensures err == DataError(d)
    {
      var pos, lim := 0, |d|;
      var rem := if pos <= lim then lim - pos else 0;
      if rem != Bursts.DATA_RECV_SIZE {
        return Some(rem);
      }
      return None;
    }

    /** run over a finite sequence of polls: the setup, then the loop until
      select fails, handleData throws or the polls run out. */
    method Run(polls: seq<Transceiver.Poll>) returns (stop: Stop)
      modifies this
      ensures control == old(control) + Encoded(MS_SETUP)
      ensures clocks == old(clocks) + RunPasses(polls).clocks && stop == RunPasses(polls).stop
    {
      Setup();
      ghost var c0 := clocks;
      var i := 0;
      stop := Running;
      while i < |polls| && stop == Running
        invariant 0 <= i <= |polls|
        invariant clocks == c0 + RunPasses(polls[..i]).clocks && stop == RunPasses(polls[..i]).stop
        invariant control == old(control) + Encoded(MS_SETUP)
      {
        ghost var before := RunPasses(polls[..i]);
        PassesNext(polls, i);
        stop := Poll(polls[i]);
        Transceiver.AppendAssoc(c0, before.clocks, PollPass(polls[i]).clocks);
        i := i + 1;
      }
      if i < |polls| {
        StoppedStaysStopped(polls[..i], polls[i..]);
        assert polls[..i] + polls[i..] == polls;
      } else {
        assert polls[..i] == polls;
      }
    }
  }

  lemma RadioMessages()
    ensures Encoded(MS_RADIO) == [
      Encode(PowerOff, 0), Encode(RxTune, 885400), Encode(TxTune, 930400),
      Encode(SetTsc, 7), Encode(SetBsic, 63), Encode(PowerOn, 0),
      Encode(SetRxGain, 10), Encode(SetPower, 0)]
  {
  }

  lemma PassesNext(polls: seq<Transceiver.Poll>, i: nat)
    requires i < |polls|
    ensures var before := RunPasses(polls[..i]);
      RunPasses(polls[..i + 1]) == if before.stop != Running then before
        else Pass(before.clocks + PollPass(polls[i]).clocks, PollPass(polls[i]).stop)
  {
    assert polls[..i + 1][..i] == polls[..i];
  }
}
