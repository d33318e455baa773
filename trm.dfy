/*
 * The test harness of trm.cpp: writeBuffer and readBuffer move 100-sample
 * segments through a SampleBuffer at the global timestamp cursors
 * writeTimestamp and readTimestamp, and runTests drives ten overlapping
 * writes and ten reads that step backwards in time.
 *
 * The segment arrays are local and never initialised in the source; their
 * contents are a parameter here. The sample rate runTests computes only
 * feeds a constructor argument the buffer model does not keep.
 */
module Harness {
  import opened SampleBuffers
  import opened Modular

  /** The segment length of writeBuffer and readBuffer. */
  const SEGMENT_LEN: int := 100
  /** runTests' buffer: SAMPLE_BUF_SZ (1 << 20) / sizeof(uint32_t)
      samples. */
  const BUF_LEN: int := 0x4_0000

  /** What one transfer leaves: its return value (WrongLength when write's
      exception escapes), the buffer and the timestamp cursor. */
  datatype Transfer = Transfer(out: Outcome, next: Ring, ts: int)

  /** writeBuffer: write a segment at ts; the cursor advances by the
      segment length only when all of it was written, otherwise the result
      is 0. */
  function WriteSegment(s: Ring, ts: int, segment: seq<Sample>): Transfer
    requires s.Valid() && |segment| == SEGMENT_LEN && s.CanWrite(segment, SEGMENT_LEN, ts)
  {
    var w := s.Write(segment, SEGMENT_LEN, ts);
    if w.out.WrongLength? then Transfer(w.out, w.next, ts)
    else if w.out != Count(SEGMENT_LEN) then Transfer(Count(0), w.next, ts)
    else Transfer(w.out, w.next, ts + SEGMENT_LEN)
  }

  /** readBuffer: read a segment at ts, likewise. */
  function ReadSegment(s: Ring, ts: int): Transfer
    requires s.Valid()
  {
    var r := s.Read(SEGMENT_LEN, ts);
    if r.out != Count(SEGMENT_LEN) then Transfer(Count(0), r.next, ts)
    else Transfer(r.out, r.next, ts + SEGMENT_LEN)
  }

  // --------------------------------------------------------- properties

  /** writeBuffer moves its cursor by exactly SEGMENT_LEN when the write is
      accepted and not at all otherwise; a refused write returns 0 and leaves
      the buffer alone, and only a buffer smaller than a segment makes write
      throw. */
  lemma WriteSegmentAdvances(s: Ring, ts: int, segment: seq<Sample>)
    requires s.Valid() && |segment| == SEGMENT_LEN && s.CanWrite(segment, SEGMENT_LEN, ts)
    ensures var x := WriteSegment(s, ts, segment);
      && (x.out.WrongLength? <==> |s.data| < SEGMENT_LEN)
      && (x.out == Count(SEGMENT_LEN) <==> Accepted(s, SEGMENT_LEN, ts))
      && (x.out == Count(SEGMENT_LEN) ==> x.ts == ts + SEGMENT_LEN)
      && (x.out != Count(SEGMENT_LEN) ==> x.ts == ts && x.next == s)
      && (x.out == Count(SEGMENT_LEN) || x.out == Count(0) || x.out.WrongLength?)
  {
    WriteOutcome(s, segment, SEGMENT_LEN, ts);
  }

  /** readBuffer moves its cursor by SEGMENT_LEN exactly when a whole
      segment was available at ts. A read of a shorter tail still consumes
      it, but the cursor stays where it was. */
  lemma ReadSegmentAdvances(s: Ring, ts: int)
    requires s.Valid()
    ensures var x := ReadSegment(s, ts);
      && (x.out == Count(SEGMENT_LEN) <==> s.Available(ts) >= SEGMENT_LEN)
      && (x.out == Count(SEGMENT_LEN) ==> x.ts == ts + SEGMENT_LEN)
      && (x.out != Count(SEGMENT_LEN) ==> x.out == Count(0) && x.ts == ts)
      && (s.Available(ts) <= 0 ==> x.next == s)
      && (0 < s.Available(ts) < SEGMENT_LEN ==> x.next.tm0 == s.tm0 + s.len && x.next.len == 0)
  {
    ReadOutcome(s, SEGMENT_LEN, ts);
    if 0 < s.Available(ts) {
      ReadConsumes(s, SEGMENT_LEN, ts);
    }
  }

  /** The step runTests repeats: a write that starts one sample before the
      end of the window is accepted, keeps the window start, lengthens the
      window by SEGMENT_LEN - 1, replaces only the last old sample and puts
      the segment at the end. */
  lemma OverlapByOne(s: Ring, segment: seq<Sample>)
    requires s.Valid() && |segment| == SEGMENT_LEN && 0 < s.len
    requires s.len + SEGMENT_LEN - 1 <= |s.data|
    ensures var t := s.tm0 + s.len - 1;
      var x := WriteSegment(s, t, segment);
      && s.GapFits(t)
      && x.out == Count(SEGMENT_LEN) && x.ts == t + SEGMENT_LEN
      && x.next.tm0 == s.tm0 && x.next.len == s.len + SEGMENT_LEN - 1
      && x.next.Window()[..s.len - 1] == s.Window()[..s.len - 1]
      && x.next.Window()[s.len - 1..] == segment
  {
    var t := s.tm0 + s.len - 1;
    var w := s.Write(segment, SEGMENT_LEN, t).next;
    WriteWindow(s, segment, SEGMENT_LEN, t);
    forall j | 0 <= j < s.len - 1
      ensures w.Window()[j] == s.Window()[j]
    {
      WriteKeepsOthers(s, segment, SEGMENT_LEN, t, j);
    }
    assert w.Window()[s.len - 1..] == segment by {
      forall k | 0 <= k < SEGMENT_LEN
        ensures w.Window()[s.len - 1..][k] == segment[k]
      {
        assert w.Window()[s.len - 1 + k] == segment[k];
      }
    }
  }

  /** A read that starts before the window is refused: readBuffer returns 0
      and nothing moves. */
  lemma PastReadRefused(s: Ring, ts: int)
    requires s.Valid() && ts < s.tm0
    ensures ReadSegment(s, ts) == Transfer(Count(0), s, ts)
  {
  }

  /** One write of runTests' first loop, on the cursors: the write lands
      one sample before the window end (or anchors an empty buffer) and is
      taken whole. */
  lemma TestWriteStep(s: Ring, ts: int, segment: seq<Sample>)
    requires s.Valid() && |s.data| == BUF_LEN && s.idx == 0 && |segment| == SEGMENT_LEN
    requires s.len == 0 || (s.tm0 + s.len == ts + 1 && s.len + SEGMENT_LEN <= BUF_LEN)
    ensures s.GapFits(ts)
    ensures var x := WriteSegment(s, ts, segment);
      && x.out == Count(SEGMENT_LEN) && x.ts == ts + SEGMENT_LEN && x.next.idx == 0
      && x.next.tm0 == (if s.len == 0 then ts else s.tm0)
      && x.next.len == (if s.len == 0 then SEGMENT_LEN else s.len + SEGMENT_LEN - 1)
  {
    WriteOutcome(s, segment, SEGMENT_LEN, ts);
  }

  /** One read of runTests' second loop, on the cursors: the first one takes
      a whole segment from the start of the window, the later ones ask for
      the past. */
  lemma TestReadStep(s: Ring, ts: int)
    requires s.Valid() && |s.data| == BUF_LEN
    requires (s.idx == 0 && s.tm0 == ts && s.len >= SEGMENT_LEN) || ts < s.tm0
    ensures var x := ReadSegment(s, ts);
      if ts < s.tm0 then x == Transfer(Count(0), s, ts)
      else
        && x.out == Count(SEGMENT_LEN) && x.ts == ts + SEGMENT_LEN
        && x.next.idx == SEGMENT_LEN && x.next.tm0 == ts + SEGMENT_LEN
        && x.next.len == s.len - SEGMENT_LEN
  {
    if s.tm0 <= ts {
      ModSmall(0, BUF_LEN);
      ModSmall(SEGMENT_LEN, BUF_LEN);
      ReadOutcome(s, SEGMENT_LEN, ts);
    }
  }

  // ------------------------------------------------------------ harness

  /** The two global cursors. */
  class Harness {
    var readTimestamp: int
    var writeTimestamp: int

    constructor ()
      ensures readTimestamp == 0 && writeTimestamp == 0
    {
      readTimestamp, writeTimestamp := 0, 0;
    }

    /** writeBuffer(b), with the contents of its uninitialised segment. */
    method WriteBuffer(b: SampleBuffer, segment: seq<Sample>) returns (r: Outcome)
      requires b.Valid() && |segment| == SEGMENT_LEN && b.State().CanWrite(segment, SEGMENT_LEN, writeTimestamp)
      modifies this, b, b.buf
      ensures b.Valid()
      ensures var x := WriteSegment(old(b.State()), old(writeTimestamp), segment);
        r == x.out && b.State() == x.next && writeTimestamp == x.ts
      ensures readTimestamp == old(readTimestamp)
    {
      r := b.Write(segment, SEGMENT_LEN, writeTimestamp);
      if r.WrongLength? {
        return;
      }
      if r != Count(SEGMENT_LEN) {
        return Count(0);
      }
      writeTimestamp := writeTimestamp + SEGMENT_LEN;
    }

    /** readBuffer(b): the segment read is a local array it discards. */
    method ReadBuffer(b: SampleBuffer) returns (r: Outcome)
      requires b.Valid()
      modifies this, b
      ensures b.Valid()
      ensures var x := ReadSegment(old(b.State()), old(readTimestamp));
        r == x.out && b.State() == x.next && readTimestamp == x.ts
      ensures writeTimestamp == old(writeTimestamp)
    {
      var segment := new Sample[SEGMENT_LEN];
      r := b.Read(segment, SEGMENT_LEN, readTimestamp);
      if r != Count(SEGMENT_LEN) {
        return Count(0);
      }
      readTimestamp := readTimestamp + SEGMENT_LEN;
    }

    /** runTests: ten writes, each one sample before the previous end, then
        ten reads, each one sample before the previous read cursor. Every
        write is accepted; the first read takes samples 120..219 and every
        later one asks for the past. */
    method RunTests(segment: seq<Sample>) returns (b: SampleBuffer, writes: seq<Outcome>, taken: seq<Outcome>)
      requires |segment| == SEGMENT_LEN
      modifies this
      ensures b.Valid() && b.capacity == BUF_LEN
      ensures writes == seq(10, _ => Count(SEGMENT_LEN))
      ensures taken == [Count(SEGMENT_LEN)] + seq(9, _ => Count(0))
      ensures writeTimestamp == 1111 && readTimestamp == 211
      ensures b.tm0 == 220 && b.len == 891 && b.idx == 100
    {
      b := new SampleBuffer(BUF_LEN);
      readTimestamp, writeTimestamp := 121, 121;
      writes, taken := [], [];
      for i := 0 to 10
        invariant b.Valid() && b.capacity == BUF_LEN && b.idx == 0
        invariant writeTimestamp == 121 + 99 * i && readTimestamp == 121
        invariant i == 0 ==> b.len == 0
        invariant i > 0 ==> b.tm0 == 120 && b.len == 1 + 99 * i
        invariant writes == seq(i, _ => Count(SEGMENT_LEN))
      {
        writeTimestamp := writeTimestamp - 1;
        TestWriteStep(b.State(), writeTimestamp, segment);
        var r := WriteBuffer(b, segment);
        writes := writes + [r];
      }
      for i := 0 to 10
        invariant b.Valid() && b.capacity == BUF_LEN && writeTimestamp == 1111
        invariant i == 0 ==> readTimestamp == 121 && b.idx == 0 && b.tm0 == 120 && b.len == 991
        invariant i > 0 ==> readTimestamp == 221 - i && b.idx == 100 && b.tm0 == 220 && b.len == 891
        invariant i == 0 ==> taken == []
        invariant i > 0 ==> taken == [Count(SEGMENT_LEN)] + seq(i - 1, _ => Count(0))
      {
        readTimestamp := readTimestamp - 1;
        TestReadStep(b.State(), readTimestamp);
        var r := ReadBuffer(b);
        taken := taken + [r];
      }
    }
  }
}
