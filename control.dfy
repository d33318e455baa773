/*
 * The control channel text of the transceiver protocol: the commands and the
 * "CMD <NAME> [args]" datagram that sendCommand builds (Transcom.cpp:28-66
 * and MobileStation.cpp:21-55 build it identically), the makeParam packing
 * of a SETSLOT argument, and a decoder of that text as the transceiver reads
 * it, against which the encoder is proved.
 */
module Control {
  import opened Wrappers
  import Decimal

  datatype Command =
    | PowerOff | RxTune | TxTune | SetTsc | SetBsic
    | PowerOn | SetRxGain | SetPower | SetSlot

  const NUL: char := '\0'

  function Name(cmd: Command): string
  {
    match cmd
    case PowerOff => "POWEROFF"
    case RxTune => "RXTUNE"
    case TxTune => "TXTUNE"
    case SetTsc => "SETTSC"
    case SetBsic => "SETBSIC"
    case PowerOn => "POWERON"
    case SetRxGain => "SETRXGAIN"
    case SetPower => "SETPOWER"
    case SetSlot => "SETSLOT"
  }

  /** makeParam(a, b) = ((a & 0xff) << 8) | (b & 0xff). On a two's-complement
      int, x & 0xff is x modulo 256 (Dafny's % is never negative), and the two
      bytes do not overlap, so the | is a sum. */
  function MakeParam(a: int, b: int): (p: int)
    ensures 0 <= p < 0x1_0000
  {
    (a % 256) * 256 + b % 256
  }

  /** (param >> 8) & 0xff: the arithmetic shift is floor division by 256,
      which is Dafny's / for a positive divisor. */
  function SlotHigh(param: int): int
  {
    (param / 256) % 256
  }

  /** param & 0xff. */
  function SlotLow(param: int): int
  {
    param % 256
  }

  /** The two numbers SETSLOT prints give back the low bytes of makeParam's
      arguments, so a timeslot and a configuration in 0..255 round-trip. */
  lemma MakeParamRoundTrip(a: int, b: int)
    ensures SlotHigh(MakeParam(a, b)) == a % 256
    ensures SlotLow(MakeParam(a, b)) == b % 256
    ensures 0 <= a < 256 && 0 <= b < 256 ==>
      SlotHigh(MakeParam(a, b)) == a && SlotLow(MakeParam(a, b)) == b
  {
    var hi, lo := a % 256, b % 256;
    var p := hi * 256 + lo;
    assert p / 256 == hi by {
      assert p == hi * 256 + lo && 0 <= lo < 256;
    }
    assert p % 256 == lo;
  }

  /** The text after "CMD ": the switch of sendCommand. */
  function Text(cmd: Command, param: int): string
  {
    match cmd
    case PowerOff => "POWEROFF"
    case RxTune => "RXTUNE " + Decimal.Format(param)
    case TxTune => "TXTUNE " + Decimal.Format(param)
    case SetTsc => "SETTSC " + Decimal.Format(param)
    case SetBsic => "SETBSIC " + Decimal.Format(param)
    case PowerOn => "POWERON"
    case SetRxGain => "SETRXGAIN " + Decimal.Format(param)
    case SetPower => "SETPOWER " + Decimal.Format(param)
    case SetSlot => "SETSLOT " + Decimal.Format(SlotHigh(param)) + " " + Decimal.Format(SlotLow(param))
  }

  /** The control datagram: "CMD ", the command text, one NUL. */
  function Encode(cmd: Command, param: int): string
  {
    "CMD " + Text(cmd, param) + [NUL]
  }

  /** One sendCommand call. */
  datatype Call = Call(cmd: Command, param: int)

  /** The datagrams of a sequence of sendCommand calls, in order. */
  function Encoded(calls: seq<Call>): (msgs: seq<string>)
    ensures |msgs| == |calls|
    ensures forall i :: 0 <= i < |calls| ==> msgs[i] == Encode(calls[i].cmd, calls[i].param)
  {
    seq(|calls|, i requires 0 <= i < |calls| => Encode(calls[i].cmd, calls[i].param))
  }

  /** The numbers a command carries on the wire. */
  function Args(cmd: Command, param: int): seq<int>
  {
    match cmd
    case PowerOff | PowerOn => []
    case SetSlot => [SlotHigh(param), SlotLow(param)]
    case _ => [param]
  }

  // ------------------------------------------------------------ decoding

  /** The index of the first space of s. */
  function FirstSpace(s: string): (i: nat)
    requires ' ' in s
    ensures i < |s| && s[i] == ' ' && ' ' !in s[..i]
  {
    if s[0] == ' ' then 0 else 1 + FirstSpace(s[1..])
  }

  /** The space-separated tokens of s. */
  function Split(s: string): (parts: seq<string>)
    ensures 0 < |parts|
    decreases |s|
  {
    if ' ' !in s then [s]
    else
      var i := FirstSpace(s);
      [s[..i]] + Split(s[i + 1..])
  }

  function CommandNamed(name: string): (r: Option<Command>)
    ensures r.Some? ==> Name(r.value) == name
  {
    if name == "POWEROFF" then Some(PowerOff)
    else if name == "RXTUNE" then Some(RxTune)
    else if name == "TXTUNE" then Some(TxTune)
    else if name == "SETTSC" then Some(SetTsc)
    else if name == "SETBSIC" then Some(SetBsic)
    else if name == "POWERON" then Some(PowerOn)
    else if name == "SETRXGAIN" then Some(SetRxGain)
    else if name == "SETPOWER" then Some(SetPower)
    else if name == "SETSLOT" then Some(SetSlot)
    else None
  }

  function Arity(cmd: Command): nat
  {
    match cmd
    case PowerOff | PowerOn => 0
    case SetSlot => 2
    case _ => 1
  }

  function ParseArgs(tokens: seq<string>): (r: Option<seq<int>>)
    ensures r.Some? ==> |r.value| == |tokens|
  {
    if tokens == [] then Some([])
    else
      match (Decimal.ParseInt(tokens[0]), ParseArgs(tokens[1..]))
      case (Some(x), Some(rest)) => Some([x] + rest)
      case _ => None
  }

  datatype Parsed = Parsed(cmd: Command, args: seq<int>)

  /** How the transceiver reads a control datagram: "CMD ", a command name,
      exactly as many decimal arguments as the command takes, then a NUL. */
  function Parse(msg: string): Option<Parsed>
  {
    if |msg| < 5 || msg[..4] != "CMD " || msg[|msg| - 1] != NUL then None
    else ParseTokens(Split(msg[4..|msg| - 1]))
  }

  /** A command name followed by its arguments. */
  function ParseTokens(tokens: seq<string>): Option<Parsed>
    requires 0 < |tokens|
  {
    match CommandNamed(tokens[0])
    case None => None
    case Some(cmd) =>
      match ParseArgs(tokens[1..])
      case None => None
      case Some(args) => if |args| == Arity(cmd) then Some(Parsed(cmd, args)) else None
  }

  // ---------------------------------------------------------- round trip

  /** " a1 a2 ...": the arguments as they follow the name. */
  function Join(args: seq<int>): string
  {
    if args == [] then "" else " " + Decimal.Format(args[0]) + Join(args[1..])
  }

  lemma TextIsNameAndArgs(cmd: Command, param: int)
    ensures Text(cmd, param) == Name(cmd) + Join(Args(cmd, param))
  {
    match cmd
    case PowerOff =>
      assert Join([]) == "";
    case PowerOn =>
      assert Join([]) == "";
    case RxTune => NameThenOne("RXTUNE", "RXTUNE ", param);
    case TxTune => NameThenOne("TXTUNE", "TXTUNE ", param);
    case SetTsc => NameThenOne("SETTSC", "SETTSC ", param);
    case SetBsic => NameThenOne("SETBSIC", "SETBSIC ", param);
    case SetRxGain => NameThenOne("SETRXGAIN", "SETRXGAIN ", param);
    case SetPower => NameThenOne("SETPOWER", "SETPOWER ", param);
    case SetSlot => NameThenTwo("SETSLOT", "SETSLOT ", SlotHigh(param), SlotLow(param));
  }

  lemma NameThenOne(name: string, prefix: string, x: int)
    requires prefix == name + " "
    ensures prefix + Decimal.Format(x) == name + Join([x])
  {
    JoinOne(x);
  }

  lemma NameThenTwo(name: string, prefix: string, x: int, y: int)
    requires prefix == name + " "
    ensures prefix + Decimal.Format(x) + " " + Decimal.Format(y) == name + Join([x, y])
  {
    JoinTwo(x, y);
  }

  lemma JoinOne(x: int)
    ensures Join([x]) == " " + Decimal.Format(x)
  {
    assert [x][1..] == [];
  }

  lemma JoinTwo(x: int, y: int)
    ensures Join([x, y]) == " " + Decimal.Format(x) + " " + Decimal.Format(y)
  {
    assert [x, y][1..] == [y];
    JoinOne(y);
  }

  lemma {:induction false} FirstSpaceAfter(w: string, rest: string)
    requires ' ' !in w
    ensures ' ' in w + " " + rest && FirstSpace(w + " " + rest) == |w|
  {
    var s := w + " " + rest;
    assert s[|w|] == ' ';
    if w != [] {
      assert s[1..] == w[1..] + " " + rest;
      FirstSpaceAfter(w[1..], rest);
    }
  }

  lemma {:induction false} SplitJoin(w: string, args: seq<int>)
    requires ' ' !in w
    ensures Split(w + Join(args)) == [w] + FormatAll(args)
    decreases |args|
  {
    if args == [] {
      assert w + Join(args) == w;
    } else {
      var head := Decimal.Format(args[0]);
      var rest := head + Join(args[1..]);
      assert w + Join(args) == w + " " + rest;
      SplitCons(w, rest);
      FormatHasNoSpace(args[0]);
      SplitJoin(head, args[1..]);
    }
  }

  /** Split takes a space-free word off the front. */
  lemma SplitCons(w: string, rest: string)
    requires ' ' !in w
    ensures Split(w + " " + rest) == [w] + Split(rest)
  {
    FirstSpaceAfter(w, rest);
    var s := w + " " + rest;
    assert s[..|w|] == w && s[|w| + 1..] == rest;
  }

  lemma FormatHasNoSpace(x: int)
    ensures ' ' !in Decimal.Format(x)
  {
    var f := Decimal.Format(x);
    forall i | 0 <= i < |f| ensures f[i] != ' ' { }
  }

  function FormatAll(args: seq<int>): (r: seq<string>)
    ensures |r| == |args|
  {
    if args == [] then [] else [Decimal.Format(args[0])] + FormatAll(args[1..])
  }

  lemma {:induction false} ParseFormatAll(args: seq<int>)
    requires forall i :: 0 <= i < |args| ==> Decimal.IsInt32(args[i])
    ensures ParseArgs(FormatAll(args)) == Some(args)
  {
    if args != [] {
      var tokens := FormatAll(args);
      Decimal.ParseFormat(args[0]);
      assert tokens[0] == Decimal.Format(args[0]) && tokens[1..] == FormatAll(args[1..]);
      ParseFormatAll(args[1..]);
      assert ParseArgs(tokens) == Some([args[0]] + args[1..]);
      assert [args[0]] + args[1..] == args;
    }
  }

  /** Every command sendCommand can send with a 32-bit parameter is read back
      by the transceiver as that command with the numbers it printed. */
  lemma EncodeRoundTrip(cmd: Command, param: int)
    requires Decimal.IsInt32(param)
    ensures Parse(Encode(cmd, param)) == Some(Parsed(cmd, Args(cmd, param)))
  {
    EncodeIsFramed(cmd, param);
    ArgsFit(cmd, param);
    ParseOfFramed(cmd, Args(cmd, param));
  }

  lemma ParseOfFramed(cmd: Command, args: seq<int>)
    requires |args| == Arity(cmd)
    requires forall i :: 0 <= i < |args| ==> Decimal.IsInt32(args[i])
    ensures Parse("CMD " + (Name(cmd) + Join(args)) + [NUL]) == Some(Parsed(cmd, args))
  {
    var name := Name(cmd);
    ParseFramed(name + Join(args));
    NameHasNoSpace(cmd);
    SplitJoin(name, args);
    ParseTokensOf(cmd, args);
  }

  lemma NameHasNoSpace(cmd: Command)
    ensures ' ' !in Name(cmd)
  {
  }

  lemma EncodeIsFramed(cmd: Command, param: int)
    ensures Encode(cmd, param) == "CMD " + (Name(cmd) + Join(Args(cmd, param))) + [NUL]
  {
    TextIsNameAndArgs(cmd, param);
  }

  lemma ParseFramed(body: string)
    ensures Parse("CMD " + body + [NUL]) == ParseTokens(Split(body))
  {
    var msg := "CMD " + body + [NUL];
    assert msg[..4] == "CMD " && msg[|msg| - 1] == NUL && msg[4..|msg| - 1] == body;
  }

  lemma ArgsFit(cmd: Command, param: int)
    requires Decimal.IsInt32(param)
    ensures |Args(cmd, param)| == Arity(cmd)
    ensures forall i :: 0 <= i < |Args(cmd, param)| ==> Decimal.IsInt32(Args(cmd, param)[i])
  {
  }

  lemma ParseTokensOf(cmd: Command, args: seq<int>)
    requires |args| == Arity(cmd)
    requires forall i :: 0 <= i < |args| ==> Decimal.IsInt32(args[i])
    ensures ParseTokens([Name(cmd)] + FormatAll(args)) == Some(Parsed(cmd, args))
  {
    var tokens := [Name(cmd)] + FormatAll(args);
    assert tokens[0] == Name(cmd) && tokens[1..] == FormatAll(args);
    NamedCommand(cmd);
    ParseFormatAll(args);
  }

  lemma NamedCommand(cmd: Command)
    ensures CommandNamed(Name(cmd)) == Some(cmd)
  {
  }

  /** What the transceiver should read from each of a sequence of calls. */
  function Reads(calls: seq<Call>): (r: seq<Parsed>)
    ensures |r| == |calls|
  {
    seq(|calls|, i requires 0 <= i < |calls| => Parsed(calls[i].cmd, Args(calls[i].cmd, calls[i].param)))
  }

  /** Each datagram of a sequence of calls reads back as its call. */
  lemma EncodedReadBack(calls: seq<Call>)
    requires forall i :: 0 <= i < |calls| ==> Decimal.IsInt32(calls[i].param)
    ensures forall i :: 0 <= i < |calls| ==> Parse(Encoded(calls)[i]) == Some(Reads(calls)[i])
  {
    forall i | 0 <= i < |calls|
      ensures Parse(Encoded(calls)[i]) == Some(Reads(calls)[i])
    {
      EncodeRoundTrip(calls[i].cmd, calls[i].param);
    }
  }

  /** SETSLOT k with makeParam(k, configs[k]) for every timeslot k in order. */
  function SlotCalls(configs: seq<int>): (calls: seq<Call>)
    ensures |calls| == |configs|
  {
    seq(|configs|, k requires 0 <= k < |configs| => Call(SetSlot, MakeParam(k, configs[k])))
  }

  /** SETSLOT read as timeslot k and configuration configs[k]. */
  function SlotReads(configs: seq<int>): (r: seq<Parsed>)
    ensures |r| == |configs|
  {
    seq(|configs|, k requires 0 <= k < |configs| => Parsed(SetSlot, [k, configs[k]]))
  }

  /** For up to 256 timeslots and configurations that fit a byte, the
      SETSLOT datagrams read back as their timeslot and configuration. */
  lemma SlotCallsReadBack(configs: seq<int>)
    requires |configs| <= 256 && forall k :: 0 <= k < |configs| ==> 0 <= configs[k] < 256
    ensures Reads(SlotCalls(configs)) == SlotReads(configs)
  {
    forall k | 0 <= k < |configs|
      ensures Reads(SlotCalls(configs))[k] == SlotReads(configs)[k]
    {
      MakeParamRoundTrip(k, configs[k]);
    }
  }

  lemma ReadsAppend(a: seq<Call>, b: seq<Call>)
    ensures Reads(a + b) == Reads(a) + Reads(b)
    ensures Encoded(a + b) == Encoded(a) + Encoded(b)
  {
  }

  /** A control datagram starts with "CMD " and carries exactly one NUL, as
      its last byte. */
  lemma EncodeFraming(cmd: Command, param: int)
    ensures var msg := Encode(cmd, param);
      && 5 <= |msg| && msg[..4] == "CMD " && msg[|msg| - 1] == NUL
      && forall i :: 0 <= i < |msg| - 1 ==> msg[i] != NUL
  {
    var msg := Encode(cmd, param);
    var body := Name(cmd) + Join(Args(cmd, param));
    TextIsNameAndArgs(cmd, param);
    assert msg == "CMD " + body + [NUL];
    assert NUL !in body by {
      JoinHasNoNul(Args(cmd, param));
      assert NUL !in Name(cmd);
    }
    forall i | 0 <= i < |msg| - 1
      ensures msg[i] != NUL
    {
      if i >= 4 {
        assert msg[i] == body[i - 4];
      }
    }
  }

  lemma {:induction false} JoinHasNoNul(args: seq<int>)
    ensures NUL !in Join(args)
  {
    if args != [] {
      JoinHasNoNul(args[1..]);
      var f := Decimal.Format(args[0]);
      assert NUL !in f by {
        forall i | 0 <= i < |f| ensures f[i] != NUL { }
      }
      assert Join(args) == " " + f + Join(args[1..]);
    }
  }

  /** SETSLOT for makeParam(tn, config) prints the timeslot and then the
      configuration, for any timeslot and configuration that fit a byte. */
  lemma SetSlotText(tn: int, config: int)
    requires 0 <= tn < 256 && 0 <= config < 256
    ensures Encode(SetSlot, MakeParam(tn, config))
         == "CMD SETSLOT " + Decimal.Format(tn) + " " + Decimal.Format(config) + [NUL]
  {
    MakeParamRoundTrip(tn, config);
  }
}
