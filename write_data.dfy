/** The audio callback's buffer fill: an output buffer of interleaved
    channels is cut into chunks of `channels` slots, one stereo frame is
    pulled per chunk, and every slot of the chunk receives the left value
    when its channel index is even and the right value when it is odd. */
module Interleave {

  function Min(a: nat, b: nat): nat
  {
    if a <= b then a else b
  }

  /** Number of chunks a buffer of `len` slots is cut into when every chunk
      but possibly the last has `channels` slots: the ceiling of
      `len / channels`. */
  function ChunkCount(len: nat, channels: nat): nat
    requires channels > 0
    decreases len
  {
    if len == 0 then 0 else 1 + ChunkCount(len - Min(channels, len), channels)
  }

  /** The chunks cover the buffer, and the last one is not empty. */
  lemma {:induction false} ChunkCountCovers(len: nat, channels: nat)
    requires channels > 0
    ensures ChunkCount(len, channels) * channels >= len
    ensures ChunkCount(len, channels) == 0 || (ChunkCount(len, channels) - 1) * channels < len
    decreases len
  {
    if len > 0 {
      var size := Min(channels, len);
      var m := ChunkCount(len - size, channels);
      ChunkCountCovers(len - size, channels);
      MulSucc(m, channels);
      if m > 0 {
        MulSucc(m - 1, channels);
        MulMonotone(m, 1, channels);
      }
    }
  }

  /** The value a frame contributes to channel `ch`: left on even channels,
      right on odd ones. */
  function Channel<T>(frame: (T, T), ch: nat): T
  {
    if ch % 2 == 0 then frame.0 else frame.1
  }

  /** One chunk of `size` slots filled from `frame` by channel parity. */
  function ChunkOf<T>(frame: (T, T), size: nat): (chunk: seq<T>)
    ensures |chunk| == size
  {
    seq(size, ch requires 0 <= ch < size => Channel(frame, ch))
  }

  /** The content of a buffer of `len` slots filled chunk by chunk, chunk
      `k` from `frames[k]`. */
  function Interleaved<T>(frames: seq<(T, T)>, len: nat, channels: nat): (out: seq<T>)
    requires channels > 0
    requires ChunkCount(len, channels) <= |frames|
    ensures |out| == len
    decreases len
  {
    if len == 0 then []
    else
      var size := Min(channels, len);
      ChunkOf(frames[0], size) + Interleaved(frames[1..], len - size, channels)
  }

  /** Plain stereo interleaving L0, R0, L1, R1, ... of a frame sequence. */
  function Flatten<T>(frames: seq<(T, T)>): (out: seq<T>)
    ensures |out| == 2 * |frames|
  {
    if frames == [] then [] else [frames[0].0, frames[0].1] + Flatten(frames[1..])
  }

  /** Euclidean division is determined by quotient and remainder. */
  lemma DivModUnique(i: int, c: int, q: int, r: int)
    requires c > 0 && 0 <= r < c && i == q * c + r
    ensures i / c == q && i % c == r
  {
    var q', r' := i / c, i % c;
    assert i == q' * c + r';
    if q' < q {
      assert (q - q') * c >= c by { MulMonotone(q - q', 1, c); }
      assert false;
    } else if q' > q {
      assert (q' - q) * c >= c by { MulMonotone(q' - q, 1, c); }
      assert false;
    }
  }

  lemma MulMonotone(a: int, b: int, c: int)
    requires a >= b && c > 0
    ensures a * c >= b * c
  {
  }

  /** `ChunkCount` is the only count whose chunks cover exactly `len` slots
      with a non-empty last chunk. */
  lemma {:induction false} ChunkCountUnique(len: nat, channels: nat, n: nat)
    requires channels > 0
    requires n * channels >= len
    requires n == 0 || (n - 1) * channels < len
    ensures n == ChunkCount(len, channels)
  {
    if len == 0 {
      if n > 0 {
        MulMonotone(n - 1, 0, channels);
        assert false;
      }
    } else {
      var size := Min(channels, len);
      assert n > 0;
      var m := n - 1;
      MulSucc(m, channels);
      assert m * channels >= len - size;
      if m > 0 {
        MulSucc(m - 1, channels);
        MulMonotone(m, 1, channels);
        assert (m - 1) * channels < len - size;
      }
      ChunkCountUnique(len - size, channels, m);
    }
  }

  lemma MulSucc(a: int, c: int)
    ensures (a + 1) * c == a * c + c
  {
  }

  /** A buffer whose length is not a multiple of `channels` ends in a
      partial chunk that still takes a frame of its own. */
  lemma ChunkCountClosedForm(len: nat, channels: nat)
    requires channels > 0
    ensures ChunkCount(len, channels) == len / channels + (if len % channels == 0 then 0 else 1)
  {
    var q := len / channels;
    var n := q + (if len % channels == 0 then 0 else 1);
    assert len == q * channels + len % channels;
    ChunkCountUnique(len, channels, n);
  }

  /** Slot `i` of the filled buffer carries channel `i % channels` of the
      frame of chunk `i / channels`. */
  lemma {:induction false} InterleaveAt<T>(frames: seq<(T, T)>, len: nat, channels: nat, i: nat)
    requires channels > 0
    requires ChunkCount(len, channels) <= |frames|
    requires i < len
    ensures i / channels < ChunkCount(len, channels)
    ensures Interleaved(frames, len, channels)[i] == Channel(frames[i / channels], i % channels)
    decreases len
  {
    var size := Min(channels, len);
    if i < size {
      DivModUnique(i, channels, 0, i);
    } else {
      assert size == channels;
      InterleaveAt(frames[1..], len - size, channels, i - channels);
      DivModUnique(i, channels, (i - channels) / channels + 1, (i - channels) % channels);
    }
  }

  /** With two channels the buffer is the plain stereo interleaving of the
      pulled frames, cut to the buffer's length (a buffer of `2 * n` slots
      pulls `n` frames and is exactly L0, R0, ..., Ln-1, Rn-1). */
  lemma {:induction false} StereoIsFlatten<T>(frames: seq<(T, T)>, len: nat)
    requires ChunkCount(len, 2) <= |frames|
    ensures ChunkCount(len, 2) == (len + 1) / 2
    ensures Interleaved(frames, len, 2) == Flatten(frames[..ChunkCount(len, 2)])[..len]
    decreases len
  {
    if len == 1 {
      assert frames[..1] == [frames[0]];
    } else if len >= 2 {
      var m := ChunkCount(len - 2, 2);
      StereoIsFlatten(frames[1..], len - 2);
      assert frames[..m + 1][1..] == frames[1..][..m];
      assert Flatten(frames[..m + 1]) == [frames[0].0, frames[0].1] + Flatten(frames[1..][..m]);
    }
  }

  /** With one channel every slot receives the left value of its own frame. */
  lemma MonoTakesLeft<T>(frames: seq<(T, T)>, len: nat, i: nat)
    requires len <= |frames|
    requires i < len
    ensures ChunkCount(len, 1) == len
    ensures Interleaved(frames, len, 1)[i] == frames[i].0
  {
    ChunkCountUnique(len, 1, len);
    InterleaveAt(frames, len, 1, i);
  }

  /** `len` ends on a chunk boundary: it is a whole number of chunks. */
  predicate Aligned(len: nat, channels: nat)
    requires channels > 0
    decreases len
  {
    len == 0 || (len >= channels && Aligned(len - channels, channels))
  }

  /** More slots never take fewer chunks. */
  lemma {:induction false} ChunkCountMonotone(a: nat, b: nat, channels: nat)
    requires channels > 0 && a <= b
    ensures ChunkCount(a, channels) <= ChunkCount(b, channels)
    decreases a
  {
    if a > 0 && a >= channels {
      ChunkCountMonotone(a - channels, b - channels, channels);
    }
  }

  /** Filling one more chunk of `size` slots after a chunk boundary appends
      that chunk, taken from the next frame, to the buffer. */
  lemma {:induction false} InterleaveAppend<T>(frames: seq<(T, T)>, start: nat, channels: nat, size: nat)
    requires channels > 0 && Aligned(start, channels) && 0 < size <= channels
    requires ChunkCount(start + size, channels) <= |frames|
    ensures ChunkCount(start + size, channels) == ChunkCount(start, channels) + 1
    ensures Interleaved(frames, start + size, channels)
      == Interleaved(frames, start, channels) + ChunkOf(frames[ChunkCount(start, channels)], size)
    decreases start
  {
    if start > 0 {
      InterleaveAppend(frames[1..], start - channels, channels, size);
    }
  }

  /** The filled buffer depends on the first `ChunkCount` frames only. */
  lemma {:induction false} InterleavePrefix<T>(frames: seq<(T, T)>, len: nat, channels: nat)
    requires channels > 0 && ChunkCount(len, channels) <= |frames|
    ensures Interleaved(frames[..ChunkCount(len, channels)], len, channels) == Interleaved(frames, len, channels)
    decreases len
  {
    if len > 0 {
      var n := ChunkCount(len, channels);
      var size := Min(channels, len);
      assert frames[..n][1..] == frames[1..][..n - 1];
      InterleavePrefix(frames[1..], len - size, channels);
    }
  }

  /** Fills `output` in place from the frames pulled in order, one per chunk
      of `channels` slots, and returns how many frames it pulled. */
  method WriteData<T>(output: array<T>, channels: nat, frames: seq<(T, T)>) returns (pulls: nat)
    requires channels > 0
    requires ChunkCount(output.Length, channels) <= |frames|
    modifies output
    ensures pulls == ChunkCount(output.Length, channels)
    ensures output[..] == Interleaved(frames[..pulls], output.Length, channels)
  {
    var start := 0;
    pulls := 0;
    while start < output.Length
      invariant start <= output.Length
      invariant start == output.Length || Aligned(start, channels)
      invariant pulls == ChunkCount(start, channels) <= ChunkCount(output.Length, channels)
      invariant output[..start] == Interleaved(frames, start, channels)
    {
      var size := Min(channels, output.Length - start);
      ChunkCountMonotone(start + size, output.Length, channels);
      InterleaveAppend(frames, start, channels, size);
      var frame := frames[pulls];
      ghost var done := output[..start];
      var ch := 0;
      while ch < size
        invariant ch <= size
        invariant forall j :: 0 <= j < start ==> output[j] == done[j]
        invariant forall j :: 0 <= j < ch ==> output[start + j] == Channel(frame, j)
      {
        output[start + ch] := if ch % 2 == 0 then frame.0 else frame.1;
        ch := ch + 1;
      }
      assert output[..start + size] == done + ChunkOf(frame, size);
      start := start + size;
      pulls := pulls + 1;
    }
    assert output[..] == output[..start];
    InterleavePrefix(frames, output.Length, channels);
  }
}
