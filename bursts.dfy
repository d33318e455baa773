/*
 * The data channel of the transceiver protocol: the downlink datagram that
 * Transcom::sendData builds (Transcom.cpp:124-149) and the uplink datagram
 * that Transcom::handleData reads (Transcom.cpp:185-209). Multi-byte fields
 * are taken to be big-endian, the order of Java's ByteBuffer, which the
 * nio::ByteBuffer library these files use imitates.
 */
module Bursts {
  import opened Wrappers
  type Byte = x: int | 0 <= x < 0x100
  type Uint32 = x: int | 0 <= x < 0x1_0000_0000

  /** Length of a downlink datagram with a 148-byte burst. */
  const DATA_SEND_SIZE: nat := 154
  /** Length of an uplink datagram: 8 header bytes and 150 soft bits. */
  const DATA_RECV_SIZE: nat := 158
  /** sendData's ByteBuffer::allocate(1000). */
  const BUFFER_SIZE: nat := 1000
  /** tn, four bytes of fn, gain. */
  const HEADER_SIZE: nat := 6

  // ------------------------------------------------------ multi-byte fields

  /** putInt: the four bytes of a 32-bit word, most significant first. */
  function BE32(x: Uint32): (s: seq<Byte>)
    ensures |s| == 4
  {
    var a := x / 0x100;
    var b := a / 0x100;
    var c := b / 0x100;
    [c, b % 0x100, a % 0x100, x % 0x100]
  }

  /** getInt read as the unsigned fn of handleData. */
  function Word32(s: seq<Byte>): Uint32
    requires |s| == 4
  {
    ((s[0] as int * 0x100 + s[1]) * 0x100 + s[2]) * 0x100 + s[3]
  }

  lemma Word32OfBE32(x: Uint32)
    ensures Word32(BE32(x)) == x
  {
    var a := x / 0x100;
    var b := a / 0x100;
    var c := b / 0x100;
    assert b == c * 0x100 + b % 0x100;
    assert a == b * 0x100 + a % 0x100;
    assert x == a * 0x100 + x % 0x100;
  }

  lemma BE32OfWord32(s: seq<Byte>)
    requires |s| == 4
    ensures BE32(Word32(s)) == s
  {
    var x := Word32(s);
    var b := s[0] as int * 0x100 + s[1];
    var a := b * 0x100 + s[2] as int;
    assert x / 0x100 == a && x % 0x100 == s[3];
    assert a / 0x100 == b && a % 0x100 == s[2];
    assert b / 0x100 == s[0] && b % 0x100 == s[1];
  }

  /** A byte read as a two's-complement int8_t. */
  function Int8(u: Byte): (v: int)
    ensures -0x80 <= v < 0x80 && v % 0x100 == u
  {
    if u < 0x80 then u else u - 0x100
  }

  /** getShort: two bytes, most significant first, as a signed 16-bit value. */
  function Int16(hi: Byte, lo: Byte): (v: int)
    ensures -0x8000 <= v < 0x8000 && v % 0x1_0000 == hi * 0x100 + lo
  {
    var u := hi * 0x100 + lo;
    if u < 0x8000 then u else u - 0x1_0000
  }

  // --------------------------------------------------------------- downlink

  function Header(tn: Byte, fn: Uint32, gain: Byte): (h: seq<Byte>)
    ensures |h| == HEADER_SIZE
  {
    [tn] + BE32(fn) + [gain]
  }

  /** The downlink datagram: header, payload, zeros up to DATA_SEND_SIZE. */
  function Downlink(tn: Byte, fn: Uint32, gain: Byte, data: seq<Byte>): seq<Byte>
  {
    var raw := Header(tn, fn, gain) + data;
    if |raw| < DATA_SEND_SIZE then raw + Repeat(0, DATA_SEND_SIZE - |raw|) else raw
  }

  datatype SendOutcome =
    | NotSent             // transceiver unavailable: logged, nothing written
    | InvalidTimeslot(tn: int)  // IllegalArgumentException
    | Overflow            // the 1000-byte buffer is full: BufferOverflowException
    | Sent(datagram: seq<Byte>)

  /** What sendData writes to the data channel, or why it writes nothing. */
  function DataSend(available: bool, tn: Byte, fn: Uint32, gain: Byte, data: seq<Byte>): SendOutcome
  {
    if !available then NotSent
    else if tn > 7 then InvalidTimeslot(tn)
    else if HEADER_SIZE + |data| > BUFFER_SIZE then Overflow
    else Sent(Downlink(tn, fn, gain, data))
  }

  /** sendData: the header, then one loop copying the payload and one padding
      with zeros, into a fresh 1000-byte buffer. */
  method SendData(available: bool, tn: Byte, fn: Uint32, gain: Byte, data: seq<Byte>)
    returns (r: SendOutcome)
    ensures r == DataSend(available, tn, fn, gain, data)
  {
    if !available {
      return NotSent;
    }
    if tn > 7 {
      return InvalidTimeslot(tn);
    }
    var buf := new Byte[BUFFER_SIZE](_ => 0);
    var word := BE32(fn);
    buf[0], buf[1], buf[2], buf[3], buf[4], buf[5] := tn, word[0], word[1], word[2], word[3], gain;
    assert buf[..HEADER_SIZE] == Header(tn, fn, gain);
    var ok := PutAll(buf, data);
    if !ok {
      return Overflow;
    }
    var pos := PadZeros(buf, HEADER_SIZE + |data|);
    return Sent(buf[..pos]);
  }

  /** The first loop of sendData: put each payload byte after the header;
      a put into the full buffer fails. */
  method PutAll(buf: array<Byte>, data: seq<Byte>) returns (ok: bool)
    requires buf.Length == BUFFER_SIZE
    modifies buf
    ensures ok <==> HEADER_SIZE + |data| <= BUFFER_SIZE
    ensures ok ==> buf[..HEADER_SIZE + |data|] == old(buf[..HEADER_SIZE]) + data
  {
    ghost var header := buf[..HEADER_SIZE];
    var pos := HEADER_SIZE;
    var i := 0;
    while i < |data|
      invariant 0 <= i <= |data| && pos == HEADER_SIZE + i <= BUFFER_SIZE
      invariant buf[..pos] == header + data[..i]
    {
      if pos == BUFFER_SIZE {
        return false;
      }
      buf[pos] := data[i];
      pos, i := pos + 1, i + 1;
      assert buf[..pos] == buf[..pos - 1] + [data[i - 1]];
      assert data[..i] == data[..i - 1] + [data[i - 1]];
    }
    assert data[..i] == data;
    return true;
  }

  /** The second loop of sendData: put zeros until DATA_SEND_SIZE bytes are
      in the buffer; the datagram is the buffer up to pos. */
  method PadZeros(buf: array<Byte>, start: int) returns (pos: int)
    requires buf.Length == BUFFER_SIZE && 0 <= start <= BUFFER_SIZE
    modifies buf
    ensures pos == (if start < DATA_SEND_SIZE then DATA_SEND_SIZE else start)
    ensures buf[..pos] == old(buf[..start]) + Repeat(0, pos - start)
  {
    ghost var raw := buf[..start];
    pos := start;
    while pos < DATA_SEND_SIZE
      invariant start <= pos <= BUFFER_SIZE
      invariant pos <= DATA_SEND_SIZE || pos == start
      invariant buf[..pos] == raw + Repeat(0, pos - start)
    {
      buf[pos] := 0;
      pos := pos + 1;
      assert buf[..pos] == buf[..pos - 1] + [0];
      assert Repeat(0, pos - start) == Repeat(0, pos - 1 - start) + [0];
    }
  }

  /** The layout a transceiver reads back from a sent datagram: timeslot, frame
      number, gain, the payload, and zeros up to DATA_SEND_SIZE. */
  lemma DownlinkLayout(tn: Byte, fn: Uint32, gain: Byte, data: seq<Byte>)
    ensures var d := Downlink(tn, fn, gain, data);
      && |d| == (if HEADER_SIZE + |data| < DATA_SEND_SIZE then DATA_SEND_SIZE else HEADER_SIZE + |data|)
      && d[0] == tn && Word32(d[1..5]) == fn && d[5] == gain
      && d[HEADER_SIZE..HEADER_SIZE + |data|] == data
      && forall i :: HEADER_SIZE + |data| <= i < |d| ==> d[i] == 0
  {
    var d := Downlink(tn, fn, gain, data);
    assert d[1..5] == BE32(fn);
    Word32OfBE32(fn);
  }

  /** Only an available transceiver and a timeslot in 0..7 get a datagram, and
      a burst of at most 148 bytes always makes a datagram of exactly
      DATA_SEND_SIZE bytes. */
  lemma DataSendWhen(available: bool, tn: Byte, fn: Uint32, gain: Byte, data: seq<Byte>)
    ensures DataSend(available, tn, fn, gain, data).Sent?
        <==> available && tn <= 7 && HEADER_SIZE + |data| <= BUFFER_SIZE
    ensures available && tn <= 7 && |data| <= DATA_SEND_SIZE - HEADER_SIZE ==>
      DataSend(available, tn, fn, gain, data) == Sent(Downlink(tn, fn, gain, data))
      && |Downlink(tn, fn, gain, data)| == DATA_SEND_SIZE
  {
  }

  // ----------------------------------------------------------------- uplink

  datatype UplinkBurst = UplinkBurst(tn: Byte, fn: Uint32, rssi: int, toa: int, soft: seq<int>)

  datatype DataOutcome =
    | WrongLength(rem: int)   // logged and dropped
    | InvalidTn(tn: int)      // logged and dropped
    | Received(burst: UplinkBurst)

  /** A payload byte x as a soft bit: 127 - x, from -128 (a sure 1) to 127. */
  function SoftBit(x: Byte): (v: int)
    ensures -0x80 <= v < 0x80
  {
    127 - x
  }

  function SoftBits(xs: seq<Byte>): (vs: seq<int>)
    ensures |vs| == |xs| && forall i :: 0 <= i < |xs| ==> vs[i] == SoftBit(xs[i])
  {
    seq(|xs|, i requires 0 <= i < |xs| => SoftBit(xs[i]))
  }

  /** handleData: a datagram of DATA_RECV_SIZE bytes is timeslot, frame number,
      negated RSSI (as int8_t), time of arrival (getShort; the division by 256
      into a float is not modelled) and soft bits. */
  function HandleData(d: seq<Byte>): (r: DataOutcome)
    ensures r.Received? <==> |d| == DATA_RECV_SIZE && d[0] <= 7
    ensures r.WrongLength? <==> |d| != DATA_RECV_SIZE
    ensures r.Received? ==>
      && |r.burst.soft| == DATA_RECV_SIZE - 8
      && forall i :: 0 <= i < |r.burst.soft| ==> -0x80 <= r.burst.soft[i] < 0x80
  {
    if |d| != DATA_RECV_SIZE then WrongLength(|d|)
    else
      var tn := d[0];
      var fn := Word32(d[1..5]);
      var rssi := Int8((0x100 - d[5] as int) % 0x100);
      var toa := Int16(d[6], d[7]);
      if tn > 7 then InvalidTn(tn)
      else Received(UplinkBurst(tn, fn, rssi, toa, SoftBits(d[8..])))
  }

  /** A burst a transceiver can report: the ranges the datagram can carry. */
  predicate ValidUplink(b: UplinkBurst)
  {
    && b.tn <= 7
    && -0x80 <= b.rssi < 0x80
    && -0x8000 <= b.toa < 0x8000
    && |b.soft| == DATA_RECV_SIZE - 8
    && forall i :: 0 <= i < |b.soft| ==> -0x80 <= b.soft[i] < 0x80
  }

  /** The transceiver's side: the datagram that reports burst b. */
  function EncodeUplink(b: UplinkBurst): (d: seq<Byte>)
    requires ValidUplink(b)
    ensures |d| == DATA_RECV_SIZE
  {
    var toa := b.toa % 0x1_0000;
    [b.tn] + BE32(b.fn) + [(0 - b.rssi) % 0x100, toa / 0x100, toa % 0x100]
      + seq(|b.soft|, i requires 0 <= i < |b.soft| => 127 - b.soft[i])
  }

  /** handleData reads back every burst a transceiver can report. */
  lemma HandleEncodedUplink(b: UplinkBurst)
    requires ValidUplink(b)
    ensures HandleData(EncodeUplink(b)) == Received(b)
  {
    var d := EncodeUplink(b);
    assert d[1..5] == BE32(b.fn);
    Word32OfBE32(b.fn);
    var u := b.toa % 0x1_0000;
    assert u == d[6] as int * 0x100 + d[7];
    assert Int16(d[6], d[7]) == b.toa;
    assert Int8((0x100 - d[5] as int) % 0x100) == b.rssi;
    assert SoftBits(d[8..]) == b.soft;
  }

  /** A datagram one byte short, as an uplink of 157 bytes, is dropped. */
  lemma ShortUplinkDropped(d: seq<Byte>)
    requires |d| == DATA_RECV_SIZE - 1
    ensures HandleData(d) == WrongLength(157)
  {
  }
}
