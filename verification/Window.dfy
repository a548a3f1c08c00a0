/** A circular window over an unbounded history. */
module Window {
  import opened Deflate

  /** The window size of inflate. */
  const WSIZE: nat := 32768

  /** The last `WSIZE` bytes of `hist` lie in `slide`, the most recent one before `w`. */
  ghost predicate Holds(slide: seq<byte>, w: nat, hist: seq<byte>) {
    && |slide| == WSIZE && w <= WSIZE <= |hist| && w <= |hist|
    && (forall t :: 0 <= t < w ==> slide[t] == hist[|hist| - w + t])
    && (forall t :: w <= t < WSIZE ==> slide[t] == hist[|hist| - w - WSIZE + t])
  }

  /** Writing bytes after the most recent one. */
  lemma Push(slide: seq<byte>, slide': seq<byte>, w: nat, hist: seq<byte>, bs: seq<byte>)
    requires Holds(slide, w, hist) && w + |bs| <= WSIZE
    requires slide' == slide[..w] + bs + slide[w + |bs|..]
    ensures Holds(slide', w + |bs|, hist + bs)
  {
  }

  lemma Wrap(slide: seq<byte>, hist: seq<byte>)
    requires Holds(slide, WSIZE, hist)
    ensures Holds(slide, 0, hist)
  {
  }

  /** Where the byte `dist` back lies. */
  function Index(w: nat, dist: nat): nat { (w - dist) % WSIZE }

  lemma IndexCases(w: nat, dist: nat)
    requires w <= WSIZE && 1 <= dist <= WSIZE
    ensures dist <= w && w - dist < WSIZE ==> Index(w, dist) == w - dist
    ensures dist > w ==> Index(w, dist) == w - dist + WSIZE
  {
  }

  /** Both positions move on together. */
  lemma IndexStep(w: nat, dist: nat, e: nat)
    requires w + e <= WSIZE && 1 <= dist <= WSIZE
    ensures (Index(w, dist) + e) % WSIZE == Index((w + e) % WSIZE, dist)
  {
  }

  lemma IndexAhead(w: nat, dist: nat, e: nat)
    requires w + e < WSIZE && 1 <= dist <= WSIZE && Index(w, dist) <= w
    ensures Index(w + e, dist) == Index(w, dist) + e
  {
    IndexCases(w, dist);
    IndexCases(w + e, dist);
  }

  lemma {:induction false} CopySplit(h: seq<byte>, dist: nat, m: nat, n: nat)
    requires 1 <= dist <= |h|
    ensures Copy(h, dist, m + n) == Copy(Copy(h, dist, m), dist, n)
    decreases m
  {
    if m > 0 { CopySplit(h + [h[|h| - dist]], dist, m - 1, n); }
  }

  /** A match that does not overlap what it writes is a block of the history. */
  lemma {:induction false} CopyBlock(h: seq<byte>, dist: nat, n: nat)
    requires 1 <= n <= dist <= |h|
    ensures Copy(h, dist, n) == h + h[|h| - dist..|h| - dist + n]
  {
    if n == 1 {
      assert Copy(h, dist, 1) == Copy(h + [h[|h| - dist]], dist, 0);
    } else {
      CopyBlock(h, dist, n - 1);
      CopySplit(h, dist, n - 1, 1);
      var g := Copy(h, dist, n - 1);
      assert Copy(g, dist, 1) == Copy(g + [g[|g| - dist]], dist, 0);
      assert g[|g| - dist] == h[|h| - dist + n - 1];
    }
  }

  /** The block of the window at the masked index of `dist`, up to the end of the
      window or the most recent byte, is that block of the history. */
  lemma BlockAt(slide: seq<byte>, w: nat, hist: seq<byte>, dist: nat, d: nat, n: nat)
    requires Holds(slide, w, hist) && w < WSIZE && 1 <= dist <= WSIZE && d == Index(w, dist)
    requires n <= WSIZE - d && (d > w || n <= w - d)
    ensures n <= dist && slide[d..d + n] == hist[|hist| - dist..|hist| - dist + n]
  {
    IndexCases(w, dist);
  }

  lemma ByteAt(slide: seq<byte>, w: nat, hist: seq<byte>, dist: nat, d: nat)
    requires Holds(slide, w, hist) && w < WSIZE && 1 <= dist <= WSIZE && d == Index(w, dist)
    ensures d < WSIZE && slide[d] == hist[|hist| - dist]
  {
    IndexCases(w, dist);
  }
}
