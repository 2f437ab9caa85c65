/** Where the content-defined chunker ends a chunk, said of the bytes before that place. */
module ChunkBoundaries {
  import opened Repo
  import opened Chunker

  /** The hash state after the bytes up to n: filled with the window before the minimum, and moved on byte by byte. */
  function StateAt<H(!new)>(p: Params<H>, data: seq<Byte>, n: nat): H
    requires WINDOW <= p.minSize <= n <= |data|
    decreases n
  {
    if n == p.minSize then p.prefill(data[n - WINDOW..n]) else p.slide(StateAt(p, data, n - 1), data[n - 1])
  }

  /** A chunk that starts with the bytes ends at n at the latest. */
  ghost predicate MustEnd<H(!new)>(p: Params<H>, data: seq<Byte>, n: nat)
    requires WINDOW <= p.minSize <= n <= |data|
  {
    n == p.maxSize || n == |data| || p.splits(StateAt(p, data, n))
  }

  lemma {:induction false} CutFromIsLeast<H(!new)>(p: Params<H>, data: seq<Byte>, n: nat)
    requires p.Valid() && p.minSize <= n <= |data| && n <= p.maxSize
    ensures var c := CutFrom(p, data, n, StateAt(p, data, n));
      MustEnd(p, data, c) && forall m :: n <= m < c ==> !MustEnd(p, data, m)
    decreases |data| - n
  {
    if !MustEnd(p, data, n) { CutFromIsLeast(p, data, n + 1); }
  }

  /** For any hash: the first chunk of enough bytes ends at the first place, from the minimum on, that is the maximum,
      the end of the bytes, or a split of the hash there; fewer bytes are one chunk. */
  lemma {:induction false} CutIsLeast<H(!new)>(p: Params<H>, data: seq<Byte>)
    requires p.Valid()
    ensures |data| < p.minSize ==> Cut(p, data) == |data|
    ensures |data| >= p.minSize ==>
      && p.minSize <= Cut(p, data) && MustEnd(p, data, Cut(p, data))
      && forall n :: p.minSize <= n < Cut(p, data) ==> !MustEnd(p, data, n)
  {
    if |data| >= p.minSize { CutFromIsLeast(p, data, p.minSize); }
  }

  // ---------------------------------------------------------------- rolling hashes

  /** Moving the window on by a byte is as good as filling it anew. */
  ghost predicate Rolling<H(!new)>(p: Params<H>)
  {
    forall w: seq<Byte>, b: Byte :: |w| == WINDOW ==> p.slide(p.prefill(w), b) == p.prefill(w[1..] + [b])
  }

  lemma {:induction false} StateIsWindow<H(!new)>(p: Params<H>, data: seq<Byte>, n: nat)
    requires Rolling(p) && WINDOW <= p.minSize <= n <= |data|
    ensures StateAt(p, data, n) == p.prefill(data[n - WINDOW..n])
    decreases n
  {
    if n > p.minSize {
      StateIsWindow(p, data, n - 1);
      var w := data[n - 1 - WINDOW..n - 1];
      assert w[1..] + [data[n - 1]] == data[n - WINDOW..n];
    }
  }

  /** The 64 bytes before n are a place to split at. */
  predicate SplitsAt<H(!new)>(p: Params<H>, data: seq<Byte>, n: nat)
    requires WINDOW <= n <= |data|
  {
    p.splits(p.prefill(data[n - WINDOW..n]))
  }

  /** For a rolling hash: a chunk ends at the first place, from the minimum on, whose 64 bytes before it are a place
      to split at, at the maximum, or at the end of the bytes. */
  lemma {:induction false} RollingCut<H(!new)>(p: Params<H>, data: seq<Byte>)
    requires p.Valid() && Rolling(p) && |data| >= p.minSize
    ensures var c := Cut(p, data);
      && p.minSize <= c <= |data| && (c == p.maxSize || c == |data| || SplitsAt(p, data, c))
      && forall n :: p.minSize <= n < c ==> n != p.maxSize && n != |data| && !SplitsAt(p, data, n)
  {
    CutIsLeast(p, data);
    StateIsWindow(p, data, Cut(p, data));
    forall n | p.minSize <= n < Cut(p, data) ensures n != p.maxSize && n != |data| && !SplitsAt(p, data, n) {
      StateIsWindow(p, data, n);
      assert !MustEnd(p, data, n);
    }
  }

  /** A place to split at depends on the 64 bytes before it only. */
  lemma {:induction false} SplitIsLocal<H(!new)>(p: Params<H>, x: seq<Byte>, y: seq<Byte>, m: nat, n: nat)
    requires WINDOW <= m <= |x| && WINDOW <= n <= |y| && x[m - WINDOW..m] == y[n - WINDOW..n]
    ensures SplitsAt(p, x, m) <==> SplitsAt(p, y, n)
  {
  }

  lemma {:induction false} WindowInside(x: seq<Byte>, w: seq<Byte>, k: nat)
    requires WINDOW <= k <= |w|
    ensures (x + w)[|x| + k - WINDOW..|x| + k] == w[k - WINDOW..k]
  {
  }

  /** The first place to split at ends the chunk. */
  lemma {:induction false} FirstSplit<H(!new)>(p: Params<H>, data: seq<Byte>, n: nat)
    requires p.Valid() && Rolling(p) && p.minSize <= n < |data| && n <= p.maxSize && SplitsAt(p, data, n)
    requires forall m :: p.minSize <= m < n ==> !SplitsAt(p, data, m)
    ensures Cut(p, data) == n
  {
    RollingCut(p, data);
  }

  /** Content-defined chunking: bytes w follow x in one input and y in another. If the chunk of the first input ends
      inside w, at a split with the window in w, then the chunk of the second ends at the same byte of w, provided it
      is long enough there, not too long, and has no place to split at before. */
  lemma {:induction false} Resynchronises<H(!new)>(p: Params<H>, x: seq<Byte>, y: seq<Byte>, w: seq<Byte>, k: nat)
    requires p.Valid() && Rolling(p) && WINDOW <= k < |w|
    requires Cut(p, x + w) == |x| + k < p.maxSize
    requires p.minSize <= |y| + k <= p.maxSize
    requires forall n :: p.minSize <= n < |y| + k ==> !SplitsAt(p, y + w, n)
    ensures Cut(p, y + w) == |y| + k
  {
    assert SplitsAt(p, x + w, |x| + k) by { RollingCut(p, x + w); }
    WindowInside(x, w, k);
    WindowInside(y, w, k);
    assert SplitsAt(p, y + w, |y| + k);
    FirstSplit(p, y + w, |y| + k);
  }
}
