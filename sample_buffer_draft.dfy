/*
 * The template draft of SampleBuffer in RadioDevice.hpp:30-122. Where it
 * differs from RadioDevice.cpp it is wrong; the two differences that change
 * what the buffer holds are modelled here as written, next to the
 * RadioDevice.cpp computations (SampleBuffers.ReadCount and
 * SampleBuffers.WrittenEnd) that the rest of the model uses.
 */
module SampleBufferDraft {
  import SampleBuffers

  /** The draft read's sample count: n = t - tm1, then l is cut down to n. */
  function DraftReadCount(tm0: int, len: int, l: int, t: int): int
  {
    var n := t - (tm0 + len);
    if l > n then n else l
  }

  /** For every in-window read the draft's count is negative (it is t - tm1),
      so its memcpy calls get a negative length, while RadioDevice.cpp's
      count is positive and never past the window end. */
  lemma DraftReadCountNegative(tm0: int, len: int, l: int, t: int)
    requires 0 < l && tm0 <= t < tm0 + len
    ensures DraftReadCount(tm0, len, l, t) == t - (tm0 + len) < 0
    ensures 0 < SampleBuffers.ReadCount(tm0 + len, l, t) <= tm0 + len - t
  {
  }

  /** The draft write's length before the overflow clamp: the gap is added
      (len += l1), then the whole write is added (len += l). The window
      start is already anchored, so tm0 <= t. */
  function DraftWriteLen(tm0: int, len: int, l: int, t: int): int
  {
    var tm1 := tm0 + len;
    var withGap := if tm1 < t then len + (t - tm1) else len;
    withGap + l
  }

  /** A write that lands inside the window grows the draft's length by l
      although the window end does not move; RadioDevice.cpp keeps the length
      at end - tm0. Both agree when the write starts at or after the end. */
  lemma DraftWriteOverCounts(tm0: int, len: int, l: int, t: int)
    requires 0 < l && tm0 <= t
    ensures t + l <= tm0 + len ==>
      DraftWriteLen(tm0, len, l, t) == len + l > SampleBuffers.WrittenEnd(tm0 + len, t, l) - tm0 == len
    ensures t >= tm0 + len ==>
      DraftWriteLen(tm0, len, l, t) == SampleBuffers.WrittenEnd(tm0 + len, t, l) - tm0 == t + l - tm0
  {
  }
}
