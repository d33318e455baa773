/*
 * The sample buffer of RadioDevice.cpp: a fixed-capacity circular store of
 * 16-bit samples addressed by absolute sample time. It holds the window
 * [tm0, tm0 + len) of sample times; the sample of time tm0 + k lives in the
 * physical slot (idx + k) % capacity.
 *
 * `Ring` is the value-level view of the buffer and its member functions
 * `Write` and `Read` say what one call of the source's write/read does;
 * class `SampleBuffer` is the in-place implementation over an array, whose
 * methods are proved to do exactly that.
 */
module SampleBuffers {
  import opened Wrappers
  import opened Modular

  /** One sample (`short`). */
  newtype Sample = x: int | -0x8000 <= x < 0x8000

  /** What write/read hand back: a sample count (or the -1 "past" sentinel),
      or the "wrong length" exception they throw. */
  datatype Outcome = Count(n: int) | WrongLength(l: int)

  /** Copy `src` into the ring `data` starting at physical slot `start`,
      wrapping at the end: the two memcpy (or memset) calls of the source. */
  function Overlay(data: seq<Sample>, start: int, src: seq<Sample>): (r: seq<Sample>)
    requires 0 <= start < |data| && |src| <= |data|
    ensures |r| == |data|
  {
    var n := |data|;
    seq(n, i requires 0 <= i < n =>
      if start <= i < start + |src| then src[i - start]
      else if i < start + |src| - n then src[i + n - start]
      else data[i])
  }

  /** Slot (start + k) % |data| of an overlay holds src[k] for k < |src|
      and is untouched otherwise. */
  lemma OverlayAt(data: seq<Sample>, start: int, src: seq<Sample>, k: int)
    requires 0 <= start < |data| && |src| <= |data| && 0 <= k < |data|
    ensures Overlay(data, start, src)[(start + k) % |data|]
         == if k < |src| then src[k] else data[(start + k) % |data|]
  {
    ModSmall(start + k, |data|);
  }

  /** The `l` samples starting at physical slot `start`, wrapping at the end:
      the two memcpy calls of read. */
  function Extract(data: seq<Sample>, start: int, n: int): (r: seq<Sample>)
    requires 0 <= start < |data| && 0 <= n <= |data|
    ensures |r| == n
  {
    seq(n, k requires 0 <= k < n =>
      data[if start + k < |data| then start + k else start + k - |data|])
  }

  lemma ExtractAt(data: seq<Sample>, start: int, n: int, k: int)
    requires 0 <= start < |data| && 0 <= n <= |data| && 0 <= k < n
    ensures Extract(data, start, n)[k] == data[(start + k) % |data|]
  {
    ModSmall(start + k, |data|);
  }

  /** read's sample count: what is asked for, cut at the window end
      (RadioDevice.cpp computes n = tm1 - t; the .hpp draft has t - tm1). */
  function ReadCount(tm1: int, l: int, t: int): (n: int)
    requires 0 < l && t < tm1
    ensures 0 < n <= l && n <= tm1 - t
    ensures n == l || n == tm1 - t
  {
    var avail := tm1 - t;
    if l > avail then avail else l
  }

  /** The end of the window after an accepted write: the old end, pushed out
      to t + l when the write reaches past it. */
  function WrittenEnd(tm1: int, t: int, l: int): (e: int)
    ensures e >= tm1 && e >= t + l
    ensures e == tm1 || e == t + l
  {
    if tm1 < t + l then t + l else tm1
  }

  /** A buffer state: the array contents, the slot of the oldest sample,
      the number of samples held and the time of the oldest sample. */
  datatype Ring = Ring(data: seq<Sample>, idx: int, len: int, tm0: int)
  {
    predicate Valid()
    {
      && 0 <= len <= |data|
      && 0 <= idx
      && (idx < |data| || idx == 0 == |data|)
    }

    /** The samples of times tm0, tm0 + 1, ..., tm0 + len - 1. */
    function Window(): (w: seq<Sample>)
      requires Valid()
      ensures |w| == len
    {
      seq(len, k requires 0 <= k < len => data[(idx + k) % |data|])
    }

    function Space(): (n: int)
      requires Valid()
      ensures 0 <= n <= |data| && n + |Window()| == |data|
    {
      |data| - len
    }

    /** -1 for a time before the window, 0 for one at or after its end,
        otherwise the number of samples from t to the end. */
    function Available(t: int): (n: int)
    {
      if t < tm0 then -1
      else if t >= tm0 + len then 0
      else tm0 + len - t
    }

    /** The zero fill of a gap before the written span stays inside the
        array: it starts at slot (idx + gap) % capacity and, when it wraps,
        continues from slot 0 for the rest of the gap, which must not run past
        the end of the array again. */
    predicate GapFits(t: int)
    {
      var gap := t - (tm0 + len);
      len == 0 || gap <= 0 || |data| == 0 || (idx + gap) % |data| + gap <= 2 * |data|
    }

    /** What write demands of its caller: only a write it accepts reads l
        samples of b and zero-fills a gap; a wrong length, an empty write
        and a stale write return before either. */
    predicate CanWrite(b: seq<Sample>, l: int, t: int)
    {
      Accepted(this, l, t) ==> l <= |b| && GapFits(t)
    }

    /** The physical slot of the sample k places after the oldest one. */
    function Slot(k: int): (i: int)
      requires Valid() && |data| > 0 && 0 <= k
      ensures 0 <= i < |data|
    {
      (idx + k) % |data|
    }

    /** The window start a write at t works against: an empty buffer is
        re-anchored at t. */
    function Anchor(t: int): int
    {
      if len == 0 then t else tm0
    }

    /** The array after write's gap handling: when t lies past the window
        end, gap = t - (tm0 + len) slots are zeroed starting at slot
        Slot(gap), which is how RadioDevice.cpp:84-91 computes it (the
        window end is Slot(len)); a gap longer than the array zeroes all
        of it. */
    function GapFilled(t: int): (d: seq<Sample>)
      requires Valid() && |data| > 0 && GapFits(t) && Anchor(t) <= t
      ensures |d| == |data|
    {
      var tm1 := Anchor(t) + len;
      if tm1 < t then
        var gap := t - tm1;
        if gap <= |data| then Overlay(data, Slot(gap), Repeat(0, gap)) else Repeat(0, |data|)
      else data
    }

    /** The array after an accepted write: the samples copied in from slot
        Slot(t - tm0) on, over the gap-filled array. */
    function Stored(b: seq<Sample>, l: int, t: int): (d: seq<Sample>)
      requires Valid() && 0 < l <= |data| && l <= |b| && GapFits(t) && Anchor(t) <= t
      ensures |d| == |data|
    {
      Overlay(GapFilled(t), Slot(t - Anchor(t)), b[..l])
    }

    /** The effect of write(b, l, t), exactly as RadioDevice.cpp:70-112
        does it. */
    function Write(b: seq<Sample>, l: int, t: int): (w: Written)
      requires Valid() && CanWrite(b, l, t)
      ensures w.next.Valid() && |w.next.data| == |data|
    {
      var cap := |data|;
      if l < 0 || l > cap then Written(WrongLength(l), this)
      else if l == 0 then Written(Count(0), this)
      else if t < Anchor(t) then Written(Count(-1), this)
      else
        var start := Anchor(t);
        var newLen := WrittenEnd(start + len, t, l) - start;
        if newLen > cap then
          Written(Count(l), Ring(Stored(b, l, t), (Slot(t - start) + newLen + cap) % cap, cap, t - cap))
        else
          Written(Count(l), Ring(Stored(b, l, t), idx, newLen, start))
    }

    /** The effect of read(b, l, t), exactly as RadioDevice.cpp:116-138 does it. */
    function Read(l: int, t: int): (r: ReadOut)
      requires Valid()
      ensures r.next.Valid() && r.next.data == data
      ensures |r.samples| == if r.out.Count? && r.out.n > 0 then r.out.n else 0
      ensures |r.samples| <= if l > 0 then l else 0
    {
      if l <= 0 then ReadOut(WrongLength(l), [], this)
      else if t < tm0 then ReadOut(Count(-1), [], this)
      else
        var tm1 := tm0 + len;
        if t >= tm1 then ReadOut(Count(0), [], this)
        else
          var n := ReadCount(tm1, l, t);
          var i0 := (idx + (t - tm0)) % |data|;
          ReadOut(Count(n), Extract(data, i0, n), Ring(data, (i0 + n) % |data|, tm1 - (t + n), t + n))
    }
  }

  datatype Written = Written(out: Outcome, next: Ring)

  datatype ReadOut = ReadOut(out: Outcome, samples: seq<Sample>, next: Ring)

  /** A write is accepted when its length is in range, it is not empty and it
      does not start before the window (an empty buffer re-anchors at t). */
  predicate Accepted(s: Ring, l: int, t: int)
  {
    0 < l <= |s.data| && !(s.len > 0 && t < s.tm0)
  }

  // ---------------------------------------------------------------- write

  /** write's outcome: the length error, the empty write, the stale write and
      the accepted write; every call that is not accepted leaves the buffer
      as it was. */
  lemma WriteOutcome(s: Ring, b: seq<Sample>, l: int, t: int)
    requires s.Valid() && s.CanWrite(b, l, t)
    ensures var w := s.Write(b, l, t);
      && (l < 0 || l > |s.data| <==> w.out == WrongLength(l))
      && (l == 0 ==> w.out == Count(0))
      && (0 < l <= |s.data| && s.len > 0 && t < s.tm0 ==> w.out == Count(-1))
      && (Accepted(s, l, t) <==> w.out == Count(l) && l > 0)
      && (!Accepted(s, l, t) ==> w.next == s)
  {
  }

  /** An accepted write, by its two cases: the window grows to cover t + l,
      or it overflows and is clamped to the capacity. */
  lemma WriteAccepted(s: Ring, b: seq<Sample>, l: int, t: int)
    requires s.Valid() && l <= |b| && s.GapFits(t) && Accepted(s, l, t)
    ensures var start := s.Anchor(t);
      var newLen := WrittenEnd(start + s.len, t, l) - start;
      var n := |s.data|;
      s.Write(b, l, t) == Written(Count(l),
        if newLen > n then Ring(s.Stored(b, l, t), (s.Slot(t - start) + newLen + n) % n, n, t - n)
        else Ring(s.Stored(b, l, t), s.idx, newLen, start))
   {
    var start := s.Anchor(t);
    var newLen := WrittenEnd(start + s.len, t, l) - start;
    assert !(l < 0 || l > |s.data|) && l != 0 && !(t < start);
  }

  /** An accepted write stores b[k] at slot (idx + (t - tm0) + k) % capacity,
      tm0 being re-anchored at t when the buffer was empty. */
  lemma WriteStoresSamples(s: Ring, b: seq<Sample>, l: int, t: int, k: int)
    requires s.Valid() && l <= |b| && s.GapFits(t)
    requires Accepted(s, l, t) && 0 <= k < l
    ensures s.Write(b, l, t).next.data[(s.idx + (t - s.Anchor(t) + k)) % |s.data|] == b[k]
  {
    var n := |s.data|;
    var a := s.idx + (t - s.Anchor(t));
    var e := s.idx + (t - s.Anchor(t) + k);
    var st := s.Slot(t - s.Anchor(t));
    var stored := s.Stored(b, l, t);
    assert s.Write(b, l, t).next.data == stored;
    var g := s.GapFilled(t);
    assert |g| == n;
    OverlayAt(g, st, b[..l], k);
    assert stored[(st + k) % n] == b[k];
    assert st == a % n;
    ModShift(a, k, n);
    assert e == a + k;
  }

  /** An accepted write that stays within capacity keeps the window start
      (after re-anchoring), moves the window end out to max(end, t + l) and
      makes the samples of times t .. t + l - 1 read back as b. */
  lemma WriteWindow(s: Ring, b: seq<Sample>, l: int, t: int)
    requires s.Valid() && l <= |b| && s.GapFits(t) && Accepted(s, l, t)
    requires t + l - s.Anchor(t) <= |s.data|
    ensures var w := s.Write(b, l, t).next;
      && w.tm0 == s.Anchor(t)
      && w.tm0 + w.len == (if s.Anchor(t) + s.len < t + l then t + l else s.Anchor(t) + s.len)
      && forall k :: 0 <= k < l ==> w.Window()[t - s.Anchor(t) + k] == b[k]
  {
    var w := s.Write(b, l, t).next;
    WriteSpan(s, b, l, t);
    forall k | 0 <= k < l
      ensures w.Window()[t - s.Anchor(t) + k] == b[k]
    {
      WriteWindowAt(s, b, l, t, k);
    }
  }

  /** The window such a write leaves, by its ends. */
  lemma WriteSpan(s: Ring, b: seq<Sample>, l: int, t: int)
    requires s.Valid() && l <= |b| && s.GapFits(t) && Accepted(s, l, t)
    requires t + l - s.Anchor(t) <= |s.data|
    ensures var w := s.Write(b, l, t).next;
      && w.tm0 == s.Anchor(t) && w.idx == s.idx
      && w.tm0 + w.len == (if s.Anchor(t) + s.len < t + l then t + l else s.Anchor(t) + s.len)
  {
  }

  /** The window slot of time t + k after such a write holds b[k]. */
  lemma WriteWindowAt(s: Ring, b: seq<Sample>, l: int, t: int, k: int)
    requires s.Valid() && l <= |b| && s.GapFits(t) && Accepted(s, l, t)
    requires t + l - s.Anchor(t) <= |s.data| && 0 <= k < l
    ensures s.Write(b, l, t).next.Window()[t - s.Anchor(t) + k] == b[k]
  {
    var w := s.Write(b, l, t).next;
    WriteStoresSamples(s, b, l, t, k);
    WriteSpan(s, b, l, t);
  }

  /** An accepted write within capacity that leaves no gap keeps every other
      sample of the old window: overlapped samples are simply overwritten. */
  lemma WriteKeepsOthers(s: Ring, b: seq<Sample>, l: int, t: int, j: int)
    requires s.Valid() && l <= |b| && s.GapFits(t) && Accepted(s, l, t)
    requires t + l - s.Anchor(t) <= |s.data| && t <= s.Anchor(t) + s.len
    requires 0 <= j < s.len && !(t - s.Anchor(t) <= j < t - s.Anchor(t) + l)
    ensures s.Write(b, l, t).next.Window()[j] == s.Window()[j]
  {
    var n := |s.data|;
    var d := t - s.Anchor(t);
    var a := s.idx + d;
    var st := s.Slot(d);
    assert st == a % n;
    var w := s.Write(b, l, t).next;
    WriteNoGap(s, b, l, t);
    // the offset of slot idx + j from the first written slot
    var k := if j < d then j - d + n else j - d;
    var e := s.idx + j;
    var q := a + k;
    assert l <= k < n && (q == e || q == e + n);
    OverlayAt(s.data, st, b[..l], k);
    ModSmall(a, n);
    ModSmall(st + k, n);
    ModSmall(e, n);
    ModSmall(q, n);
    assert (st + k) % n == e % n;
    assert w.Window()[j] == w.data[e % n];
  }

  /** A write within capacity that leaves no gap overlays b on the array
      and keeps the window start. */
  lemma WriteNoGap(s: Ring, b: seq<Sample>, l: int, t: int)
    requires s.Valid() && l <= |b| && s.GapFits(t) && Accepted(s, l, t)
    requires t + l - s.Anchor(t) <= |s.data| && t <= s.Anchor(t) + s.len
    ensures s.Write(b, l, t).next.data == Overlay(s.data, s.Slot(t - s.Anchor(t)), b[..l])
    ensures s.Write(b, l, t).next.idx == s.idx
  {
    assert s.GapFilled(t) == s.data;
  }

  /** A write that overflows the capacity clamps the length to exactly
      capacity; as written, the window it leaves is [t - capacity, t), so it
      ends where the samples just written begin. */
  lemma WriteOverflow(s: Ring, b: seq<Sample>, l: int, t: int)
    requires s.Valid() && l <= |b| && s.GapFits(t) && Accepted(s, l, t)
    requires t + l - s.Anchor(t) > |s.data|
    ensures var w := s.Write(b, l, t);
      && w.out == Count(l)
      && w.next.len == |s.data|
      && w.next.tm0 == t - |s.data|
      && w.next.tm0 + w.next.len == t
  {
  }

  /** As written, the gap fill zeroes the slots that follow idx + gap instead
      of those that follow the window end: a write one past a 4-sample window
      with a 2-sample gap wipes the live samples of times 2 and 3 and leaves
      the stale contents in the gap slots of times 4 and 5. */
  lemma GapFillAsWritten()
    ensures var s := Ring(seq(10, _ => 1), 0, 4, 0);
      && s.Valid() && s.GapFits(6)
      && s.Write([1], 1, 6).next.Window() == [1, 1, 0, 0, 1, 1, 1]
  {
    var s := Ring(seq(10, _ => 1), 0, 4, 0);
    var g := [1, 1, 0, 0, 1, 1, 1, 1, 1, 1];
    assert s.GapFilled(6) == g by {
      assert s.Slot(2) == 2;
      assert Overlay(s.data, 2, Repeat(0, 2)) == g;
    }
    assert s.Stored([1], 1, 6) == g by {
      assert s.Slot(6) == 6;
      assert Overlay(g, 6, [1]) == g;
    }
    var w := s.Write([1], 1, 6).next;
    assert w == Ring(g, 0, 7, 0);
    assert w.Window() == [1, 1, 0, 0, 1, 1, 1] by {
      forall k | 0 <= k < 7 ensures w.Window()[k] == g[k] {
        assert k % 10 == k;
      }
    }
  }

  /** A gap of at least the capacity zeroes the whole array: the two memset
      calls of the wrapped fill then cover every slot. */
  lemma LongGapZeroes(s: Ring, t: int)
    requires s.Valid() && |s.data| > 0 && s.len > 0 && s.GapFits(t)
    requires t - (s.tm0 + s.len) >= |s.data|
    ensures s.GapFilled(t) == Repeat(0, |s.data|)
  {
  }

  /** Writing one sample at time 12 into a 10-sample ring that holds only
      the sample of time 0: the 11-sample gap starts at slot 1, wraps and
      ends at slot 1 again, so every old sample is zeroed; the write then
      overflows and leaves the window [2, 12) starting at slot 5. */
  lemma LongGapWrite(d: seq<Sample>, b: seq<Sample>)
    requires |d| == 10 && 1 <= |b|
    ensures var s := Ring(d, 0, 1, 0);
      && s.Valid() && s.GapFits(12)
      && s.Write(b, 1, 12) == Written(Count(1), Ring(Repeat(0, 10)[2 := b[0]], 5, 10, 2))
  {
    var s := Ring(d, 0, 1, 0);
    LongGapZeroes(s, 12);
    assert s.Slot(12) == 2;
    assert s.Stored(b, 1, 12) == Repeat(0, 10)[2 := b[0]];
  }

  /** Far ahead of a 10-sample ring that holds the sample of time 0, a gap
      fill would not fit, yet write still answers the calls that return
      before it: 0 for an empty write and the length error for 11 samples,
      leaving the buffer as it was. */
  lemma RefusedWriteFarAhead(d: seq<Sample>, b: seq<Sample>)
    requires |d| == 10
    ensures var s := Ring(d, 0, 1, 0);
      && s.Valid() && !s.GapFits(100)
      && s.Write(b, 0, 100) == Written(Count(0), s)
      && s.Write(b, 11, 100) == Written(WrongLength(11), s)
  {
    var s := Ring(d, 0, 1, 0);
    assert (0 + 99) % 10 == 9;
  }

  // ----------------------------------------------------------------- read

  /** read's outcome follows `available`: the length error for l <= 0, -1 for
      a time in the past, 0 for one in the future, and otherwise
      min(l, available(t)) samples; only that last case changes anything. */
  lemma ReadOutcome(s: Ring, l: int, t: int)
    requires s.Valid()
    ensures var r := s.Read(l, t);
      && r.out == (if l <= 0 then WrongLength(l)
                   else if s.Available(t) <= 0 then Count(s.Available(t))
                   else Count(if l < s.Available(t) then l else s.Available(t)))
      && (l <= 0 || s.Available(t) <= 0 ==> r.next == s && r.samples == [])
  {
  }

  /** An in-window read hands back the next n samples of the window from t on
      and consumes them: the window then starts at t + n, still ends where it
      did, and holds what followed them. */
  lemma ReadConsumes(s: Ring, l: int, t: int)
    requires s.Valid() && 0 < l && s.tm0 <= t < s.tm0 + s.len
    ensures var r := s.Read(l, t);
      var d := t - s.tm0;
      && r.out.Count? && 0 < r.out.n
      && d + r.out.n <= s.len
      && r.samples == s.Window()[d..d + r.out.n]
      && r.next.tm0 == t + r.out.n
      && r.next.tm0 + r.next.len == s.tm0 + s.len
      && r.next.Window() == s.Window()[d + r.out.n..]
  {
    var d := t - s.tm0;
    var r := s.Read(l, t);
    var m := r.out.n;
    forall k | 0 <= k < m
      ensures r.samples[k] == s.Window()[d + k]
    {
      ReadSampleAt(s, l, t, k);
    }
    forall j | 0 <= j < r.next.len
      ensures r.next.Window()[j] == s.Window()[d + m + j]
    {
      ReadLeavesAt(s, l, t, j);
    }
  }

  /** The k-th sample an in-window read hands back is the window's sample of
      time t + k. */
  lemma ReadSampleAt(s: Ring, l: int, t: int, k: int)
    requires s.Valid() && 0 < l && s.tm0 <= t < s.tm0 + s.len
    requires 0 <= k < ReadCount(s.tm0 + s.len, l, t)
    ensures s.Read(l, t).samples[k] == s.Window()[t - s.tm0 + k]
  {
    var n := |s.data|;
    var a := s.idx + (t - s.tm0);
    var m := ReadCount(s.tm0 + s.len, l, t);
    assert s.Read(l, t).samples == Extract(s.data, a % n, m);
    ExtractAt(s.data, a % n, m, k);
    ModShift(a, k, n);
  }

  /** The j-th sample left after an in-window read of m samples is the old
      window's sample of time t + m + j. */
  lemma ReadLeavesAt(s: Ring, l: int, t: int, j: int)
    requires s.Valid() && 0 < l && s.tm0 <= t < s.tm0 + s.len
    requires 0 <= j < s.Read(l, t).next.len
    ensures s.Read(l, t).next.Window()[j]
         == s.Window()[t - s.tm0 + ReadCount(s.tm0 + s.len, l, t) + j]
  {
    var m := ReadCount(s.tm0 + s.len, l, t);
    assert s.Read(l, t).next == Shifted(s, t, m);
    ShiftedWindow(s, t, m, j);
  }

  /** The ring whose window starts m samples after time t of the window of
      s, as read leaves it. */
  function Shifted(s: Ring, t: int, m: int): Ring
    requires s.Valid() && 0 < |s.data|
  {
    var n := |s.data|;
    Ring(s.data, ((s.idx + (t - s.tm0)) % n + m) % n, s.tm0 + s.len - (t + m), t + m)
  }

  lemma ShiftedWindow(s: Ring, t: int, m: int, j: int)
    requires s.Valid() && s.tm0 <= t && 0 <= m && 0 <= j && t + m + j < s.tm0 + s.len
    ensures Shifted(s, t, m).Valid()
    ensures Shifted(s, t, m).Window()[j] == s.Window()[t - s.tm0 + m + j]
  {
    var n := |s.data|;
    var a := s.idx + (t - s.tm0);
    var r := (a % n + m) % n;
    assert Shifted(s, t, m) == Ring(s.data, r, s.tm0 + s.len - (t + m), t + m);
    ModShiftTwice(a, m, j, n);
    assert s.idx + (t - s.tm0 + m + j) == a + (m + j);
  }

  /** Two successive wrapped advances are one. */
  lemma ModShiftTwice(a: int, m: int, j: int, n: int)
    requires 0 < n && 0 <= a < 2 * n && 0 <= m && 0 <= j && m + j <= n
    ensures ((a % n + m) % n + j) % n == (a + (m + j)) % n
  {
    ModShift(a % n + m, j, n);
    ModShift(a, m + j, n);
  }

  /** Writing l samples at t into an empty buffer and then reading l samples
      at t gives back exactly those samples and empties the buffer again. */
  lemma WriteThenRead(s: Ring, b: seq<Sample>, l: int, t: int)
    requires s.Valid() && s.len == 0 && 0 < l <= |s.data| && l <= |b|
    ensures var w := s.Write(b, l, t);
      var r := w.next.Read(l, t);
      && w.out == Count(l)
      && r.out == Count(l)
      && r.samples == b[..l]
      && r.next.len == 0
  {
    var w := s.Write(b, l, t).next;
    WriteWindow(s, b, l, t);
    ReadConsumes(w, l, t);
    assert w.Window() == b[..l];
  }

  // -------------------------------------------------------- the buffer

  /** memcpy(dst + at, src + from, count). */
  method MemCopy(dst: array<Sample>, at: int, src: seq<Sample>, from: int, count: int)
    requires 0 <= at && 0 <= count && at + count <= dst.Length
    requires 0 <= from && from + count <= |src|
    modifies dst
    ensures forall j :: 0 <= j < dst.Length ==>
      dst[j] == if at <= j < at + count then src[from + j - at] else old(dst[j])
  {
    var i := 0;
    while i < count
      invariant 0 <= i <= count
      invariant forall j :: 0 <= j < dst.Length ==>
        dst[j] == if at <= j < at + i then src[from + j - at] else old(dst[j])
    {
      dst[at + i] := src[from + i];
      i := i + 1;
    }
  }

  /** Copy src into the ring array dst from slot `start` on, as one memcpy
      when it fits before the end of the array and as two when it wraps
      (write's memset of a gap is the same split with zeros). */
  method RingCopy(dst: array<Sample>, start: int, src: seq<Sample>)
    requires 0 <= start < dst.Length && |src| <= dst.Length
    modifies dst
    ensures dst[..] == Overlay(old(dst[..]), start, src)
  {
    ghost var d := dst[..];
    if start + |src| <= dst.Length {
      MemCopy(dst, start, src, 0, |src|);
    } else {
      var rem := dst.Length - start;
      MemCopy(dst, start, src, 0, rem);
      MemCopy(dst, 0, src, rem, |src| - rem);
    }
    assert dst[..] == Overlay(d, start, src) by {
      forall i | 0 <= i < dst.Length
        ensures dst[..][i] == Overlay(d, start, src)[i]
      {
      }
    }
  }

  /** Copy n samples of the ring src, from slot `start` on, to the front of
      dst: read's one or two memcpy calls. */
  method RingExtract(dst: array<Sample>, src: seq<Sample>, start: int, n: int)
    requires 0 <= start < |src| && 0 <= n <= |src| && n <= dst.Length
    modifies dst
    ensures dst[..n] == Extract(src, start, n)
    ensures dst[n..] == old(dst[n..])
  {
    if start + n <= |src| {
      MemCopy(dst, 0, src, start, n);
    } else {
      var rem := |src| - start;
      MemCopy(dst, 0, src, start, rem);
      MemCopy(dst, rem, src, 0, n - rem);
    }
    assert dst[..n] == Extract(src, start, n) by {
      forall k | 0 <= k < n
        ensures dst[..n][k] == Extract(src, start, n)[k]
      {
      }
    }
  }

  /** SampleBuffer of RadioDevice.cpp: the array `buf` of `capacity` samples,
      the slot `idx` of the oldest sample, the count `len` and the time `tm0`
      of the oldest sample. */
  class SampleBuffer {
    const buf: array<Sample>
    const capacity: int
    var idx: int
    var len: int
    var tm0: int

    ghost predicate Valid()
      reads this
    {
      && buf.Length == capacity
      && 0 <= len <= capacity
      && 0 <= idx
      && (idx < capacity || idx == 0 == capacity)
    }

    /** The buffer as a value: array contents and the three cursors. */
    ghost function State(): Ring
      reads this, buf
    {
      Ring(buf[..], idx, len, tm0)
    }

    /** An empty buffer of the given capacity, anchored at time 0. */
    constructor (capacity: int)
      requires capacity >= 0
      ensures Valid() && fresh(buf)
      ensures this.capacity == capacity && idx == 0 && len == 0 && tm0 == 0
      ensures State().Window() == []
    {
      this.capacity := capacity;
      buf := new Sample[capacity];
      idx, len, tm0 := 0, 0, 0;
    }

    /** The number of free slots. */
    function Space(): (n: int)
      reads this, buf
      requires Valid()
      ensures 0 <= n <= capacity && n + |State().Window()| == capacity
    {
      capacity - len
    }

    /** -1 for a time already gone, 0 for a time not yet written, otherwise
        the number of samples from t to the window end. */
    function Available(t: int): (n: int)
      reads this, buf
      requires Valid()
      ensures n == State().Available(t)
      ensures n == -1 <==> t < tm0
      ensures n > 0 ==> n <= |State().Window()| && t == tm0 + (|State().Window()| - n)
    {
      if t < tm0 then -1
      else
        var tm1 := tm0 + len;
        if t >= tm1 then 0 else tm1 - t
    }

    /** write(b, l, t): RadioDevice.cpp:70-112. */
    method Write(b: seq<Sample>, l: int, t: int) returns (r: Outcome)
      requires Valid() && State().CanWrite(b, l, t)
      modifies this, buf
      ensures Valid()
      ensures Written(r, State()) == old(State()).Write(b, l, t)
    {
      ghost var s := State();
      assert |s.data| == capacity;
      if l < 0 || l > capacity {
        return WrongLength(l);
      }
      if l == 0 {
        return Count(0);
      }
      if len == 0 {
        tm0 := t;
      }
      if t < tm0 {
        return Count(-1);
      }
      assert tm0 == s.Anchor(t) && Accepted(s, l, t);
      var tm1 := tm0 + len;
      var i0 := Store(b, l, t, s);
      if tm1 < t + l {
        tm1 := t + l;
      }
      len := tm1 - tm0;
      WriteAccepted(s, b, l, t);
      if len > capacity {
        idx := (i0 + len + capacity) % capacity;
        len := capacity;
        tm0 := t - capacity;
      }
      r := Count(l);
    }

    /** The data movement of an accepted write: zero the gap, then copy the
        l samples in at the slot of time t, which is returned. */
    method Store(b: seq<Sample>, l: int, t: int, ghost s: Ring) returns (i0: int)
      requires Valid() && s.Valid() && s.data == buf[..] && s.idx == idx && s.len == len
      requires s.GapFits(t) && tm0 == s.Anchor(t) <= t && 0 < l <= capacity && l <= |b|
      modifies buf
      ensures buf[..] == s.Stored(b, l, t) && i0 == s.Slot(t - tm0)
    {
      FillGap(t, s);
      i0 := (idx + (t - tm0)) % capacity;
      RingCopy(buf, i0, b[..l]);
    }

    /** write's gap handling: when t lies past the window end, zero
        t - (tm0 + len) slots, as written from slot idx + gap on. */
    method FillGap(t: int, ghost s: Ring)
      requires Valid() && s.Valid() && s.data == buf[..] && s.idx == idx && s.len == len
      requires s.GapFits(t) && tm0 == s.Anchor(t) <= t && 0 < capacity
      modifies buf
      ensures buf[..] == s.GapFilled(t)
    {
      var tm1 := tm0 + len;
      if tm1 < t {
        var l1 := t - tm1;
        var i1 := (idx + l1) % capacity;
        if l1 <= capacity {
          RingCopy(buf, i1, Repeat(0, l1));
        } else {
          // a gap longer than the array: both memset calls, which together
          // reach every slot
          var rem := capacity - i1;
          MemCopy(buf, i1, Repeat(0, l1), 0, rem);
          MemCopy(buf, 0, Repeat(0, l1), rem, l1 - rem);
          assert buf[..] == Repeat(0, capacity) by {
            forall j | 0 <= j < capacity
              ensures buf[..][j] == Repeat(0, capacity)[j]
            {
            }
          }
        }
      }
    }

    /** read(b, l, t): RadioDevice.cpp:116-138; the samples go to the
        caller's array `out`. */
    method Read(out: array<Sample>, l: int, t: int) returns (r: Outcome)
      requires Valid() && out != buf && (l > 0 ==> l <= out.Length)
      modifies this, out
      ensures Valid()
      ensures var o := old(State()).Read(l, t);
        && r == o.out && State() == o.next
        && out[..|o.samples|] == o.samples
        && out[|o.samples|..] == old(out[|o.samples|..])
    {
      ghost var s := State();
      assert |s.data| == capacity;
      if l <= 0 {
        return WrongLength(l);
      }
      if t < tm0 {
        return Count(-1);
      }
      var tm1 := tm0 + len;
      if t >= tm1 {
        return Count(0);
      }
      var n := tm1 - t;
      var m := if l > n then n else l;
      var i0 := (idx + (t - tm0)) % capacity;
      assert i0 == (s.idx + (t - s.tm0)) % |s.data| && m == ReadCount(s.tm0 + s.len, l, t);
      ghost var o := s.Read(l, t);
      assert o == ReadOut(Count(m), Extract(s.data, i0, m),
        Ring(s.data, (i0 + m) % |s.data|, tm1 - (t + m), t + m));
      RingExtract(out, buf[..], i0, m);
      idx := (i0 + m) % capacity;
      tm0 := t + m;
      len := tm1 - tm0;
      r := Count(m);
    }
  }
}
