/** The decoder of Inflate.c: its global state, bit buffer and circular window, and the
    functions that decode blocks. The program's local copies of the globals are the
    fields themselves here. */
module Inflate {
  import opened Bits
  import opened Huffman
  import opened HuftTables
  import opened HuftWalk
  import opened HuftBuilder
  import opened Deflate
  import opened DeflateLimits
  import opened Window

  /** The alphabets of literals and lengths, of distances and of code lengths. */
  function Literals(ll: seq<nat>): Alphabet { Alphabet(ll, 257, CPLENS, CPLEXT) }
  function Distances(dl: seq<nat>): Alphabet { Alphabet(dl, 0, CPDIST, CPDEXT) }
  function CodeLengths(bl: seq<nat>): Alphabet { Alphabet(bl, 19, [], []) }

  /** The tables with which a block of literals and matches can be decoded. There may
      be none for distances if there is no room for length codes. */
  ghost predicate TablesFor(ll: seq<nat>, dl: seq<nat>, tl: seq<seq<Huft>>, bl: nat, td: seq<seq<Huft>>, bd: nat) {
    && Decodable(ll) && Decodable(dl) && 257 <= |ll| <= 288 && 1 <= |dl| <= 30
    && Literals(ll).Valid() && Distances(dl).Valid()
    && bl <= BMAX && Realizes(Literals(ll), 8, tl, bl)
    && ((bd <= BMAX && Realizes(Distances(dl), 8, td, bd)) || (AllZero(dl) && |ll| == 257))
  }

  /** The stream without the byte past the end that `NEXTBYTE` yields. */
  function Trim(s: seq<bool>): seq<bool> { if |s| < 8 then [] else s[..|s| - 8] }

  lemma Trimmed(s: seq<bool>)
    ensures |s| < 8 ==> Trim(s) == []
    ensures |s| >= 8 ==> s == Trim(s) + s[|s| - 8..]
  {
  }

  lemma SymbolTrim(b: seq<nat>, s: seq<bool>)
    requires Decodable(b) && Symbol(b, Trim(s)).Got?
    ensures Symbol(b, s).Got? && Symbol(b, s).val == Symbol(b, Trim(s)).val
    ensures Trim(Symbol(b, s).rest) == Symbol(b, Trim(s)).rest
    ensures Decodes(b, s, Symbol(b, s).val) && |s| >= b[Symbol(b, s).val] + 8
  {
    SymbolMore(b, Trim(s), s[|s| - 8..]);
    Trimmed(s);
  }

  lemma NumberTrim(n: nat, s: seq<bool>)
    requires Number(n, Trim(s)).Got? && |s| >= 8
    ensures Number(n, s).Got? && Number(n, s).val == Number(n, Trim(s)).val
    ensures Trim(Number(n, s).rest) == Number(n, Trim(s)).rest && |Number(n, s).rest| >= 8
  {
    NumberMore(n, Trim(s), s[|s| - 8..]);
    Trimmed(s);
  }

  lemma CodesTrim(ll: seq<nat>, dl: seq<nat>, s: seq<bool>, s': seq<bool>, t: Token, acc: seq<Token>)
    requires Decodable(ll) && Decodable(dl) && NextItem(ll, dl, s) == Got(Tok(t), s')
    requires Codes(ll, dl, Trim(s), acc).Got?
    ensures Codes(ll, dl, Trim(s), acc) == Codes(ll, dl, Trim(s'), acc + [t])
  {
    var i := NextItem(ll, dl, Trim(s));
    Trimmed(s);
    ItemMore(ll, dl, Trim(s), s[|s| - 8..]);
    assert Trim(s') == i.rest;
  }

  class Inflater {
    // G: the input, the bit buffer, the window position and the output so far
    var mem: seq<byte>
    var inptr: nat
    var incnt: int
    var bb: nat
    var bk: nat
    var wp: nat
    var out: seq<byte>
    const slide: array<byte>
    var fixed_tl: seq<seq<Huft>>
    var fixed_td: seq<seq<Huft>>
    var fixed_bl: nat
    var fixed_bd: nat

    // The bits in the buffer; the window before the first block; everything that has
    // been in the window since; the literals and matches decoded
    ghost var buf: seq<bool>
    ghost var init: seq<byte>
    ghost var hist: seq<byte>
    ghost var toks: seq<Token>

    constructor (window: array<byte>)
      requires window.Length == WSIZE
      ensures slide == window && FixedOK()
    {
      slide := window;
      fixed_tl, fixed_td, fixed_bl, fixed_bd := [], [], 0, 0;
      mem, inptr, incnt, bb, bk, wp, out := [], 0, -1, 0, 0, 0, [];
      buf, init, hist, toks := [], [], [], [];
    }

    // ----- input -----

    /** `NEXTBYTE` yields a byte while `incnt`, before it is decremented, is not
        negative, hence one byte more than `incnt` says. */
    ghost predicate ReaderOK()
      reads `mem, `inptr, `incnt, `bb, `bk, `buf
    {
      && inptr <= |mem|
      && (if incnt >= 0 then inptr + incnt + 1 == |mem| else inptr == |mem|)
      && bb == Val(buf) && bk == |buf| <= 23
    }

    /** The bits still to be decoded. */
    ghost function Stream(): seq<bool>
      requires inptr <= |mem|
      reads `mem, `inptr, `buf
    {
      buf + BitsOf(mem[inptr..])
    }

    /** NEEDBITS: fill the bit buffer; false at the end of the input. */
    method NeedBits(n: nat) returns (ok: bool)
      requires ReaderOK() && n <= 16
      modifies `bb, `bk, `buf, `inptr, `incnt
      ensures ReaderOK() && Stream() == old(Stream())
      ensures ok <==> n <= |Stream()|
      ensures ok ==> n <= bk
    {
      hide Val, BitsOf, Pow2;
      while bk < n
        invariant ReaderOK() && Stream() == old(Stream())
        decreases |mem| - inptr
      {
        incnt := incnt - 1;
        if incnt + 1 < 0 { return false; }
        var c := mem[inptr];
        ByteRead(buf, mem, inptr);
        inptr := inptr + 1;
        bb := bb + Pow2(bk) * c as nat;
        bk := bk + 8;
        buf := buf + ByteBits(c);
      }
      ok := true;
    }

    /** DUMPBITS: drop bits from the buffer. */
    method DumpBits(n: nat)
      requires ReaderOK() && n <= bk
      modifies `bb, `bk, `buf
      ensures ReaderOK() && n <= |old(Stream())| && Stream() == old(Stream())[n..]
    {
      hide Val, Pow2, BitsOf;
      ValSplit(buf, n);
      bb := bb / Pow2(n);
      bk := bk - n;
      buf := buf[n..];
    }

    /** The low bits of the buffer. */
    function Peek(n: nat): (v: nat)
      requires ReaderOK() && n <= bk
      reads `mem, `inptr, `incnt, `bb, `bk, `buf
      ensures n <= |Stream()| && v == Val(Stream()[..n])
    {
      ValSplit(buf, n);
      assert Stream()[..n] == buf[..n];
      bb % Pow2(n)
    }

    // ----- output -----

    /** The state of the window when `w` bytes of it are not yet flushed. */
    ghost predicate WindowAt(w: nat)
      reads `init, `hist, `out, slide
    {
      && slide.Length == WSIZE == |init|
      && Holds(slide[..], w, hist)
      && |hist| == WSIZE + |out| + w
      && hist[..WSIZE + |out|] == init + out
    }

    ghost predicate OutputOK()
      reads `init, `hist, `out, `wp, slide
    {
      wp < WSIZE && WindowAt(wp)
    }

    /** FLUSH: hand over the first `cnt` bytes of the window. */
    method Flush(cnt: nat)
      requires WindowAt(cnt)
      modifies `out
      ensures out == old(out) + slide[..cnt] && init + out == hist
    {
      out := out + slide[..cnt];
    }

    /** Flush and wrap around at the end of the window. */
    method WrapAround(w: nat) returns (w': nat)
      requires WindowAt(w)
      modifies `out
      ensures w' < WSIZE && WindowAt(w') && w' == w % WSIZE
    {
      w' := w;
      if w == WSIZE {
        Flush(w);
        Wrap(slide[..], hist);
        w' := 0;
      }
    }

    /** Output one byte (lines 569-574, 685-690). */
    method PutByte(b: byte)
      requires OutputOK()
      modifies `wp, `out, `hist, slide
      ensures OutputOK() && hist == old(hist) + [b]
    {
      ghost var s := slide[..];
      slide[wp] := b;
      hist := hist + [b];
      Push(s, slide[..], wp, old(hist), [b]);
      wp := WrapAround(wp + 1);
    }

    /** memcpy within the window; overlapping blocks are copied as by memmove. */
    method MemCopy(w: nat, d: nat, e: nat)
      requires w + e <= slide.Length && d + e <= slide.Length
      modifies slide
      ensures slide[..] == old(slide[..])[..w] + old(slide[..])[d..d + e] + old(slide[..])[w + e..]
    {
      forall t | 0 <= t < e { slide[w + t] := slide[d + t]; }
    }

    /** Copy `n` bytes from the window position `d` (lines 602-630). */
    method CopyMatch(n0: nat, d0: int, ghost dist: nat)
      requires OutputOK() && 1 <= dist <= WSIZE && d0 == wp - dist
      modifies `wp, `out, `hist, slide
      ensures OutputOK() && hist == Copy(old(hist), dist, n0)
    {
      var n: nat, d: int, w: nat := n0, d0, wp;
      ghost var h := hist;
      while n != 0
        invariant w < WSIZE && WindowAt(w) && n <= n0
        invariant d % WSIZE == Index(w, dist)
        invariant Copied(h, dist, n0 - n)
        decreases n
      {
        var e: nat;
        w, d, e := CopyChunk(w, d % WSIZE, n, dist, h, n0 - n);
        n := n - e;
      }
      wp := w;
    }

    /** `m` bytes of a match have been added to `h`. */
    ghost predicate Copied(h: seq<byte>, dist: nat, m: nat)
      reads `hist
    {
      1 <= dist <= |h| && hist == Copy(h, dist, m)
    }

    /** Copy up to `n` bytes, as far as neither position reaches the end of the window
        (lines 612-629). */
    method CopyChunk(w0: nat, d0: nat, n: nat, ghost dist: nat, ghost h: seq<byte>, ghost m: nat) returns (w: nat, d: int, e: nat)
      requires w0 < WSIZE && WindowAt(w0) && 1 <= dist <= WSIZE && d0 == Index(w0, dist) && n >= 1 && Copied(h, dist, m)
      modifies `out, `hist, slide
      ensures w < WSIZE && WindowAt(w) && 1 <= e <= n
      ensures d % WSIZE == Index(w, dist) && Copied(h, dist, m + e)
    {
      hide Copied, Copy;
      e := WSIZE - (if d0 > w0 then d0 else w0);
      e := if e > n then n else e;
      w, d := CopyStretch(w0, d0, e, dist, h, m);
      IndexStep(w0, dist, e);
      w := WrapAround(w);
    }

    /** Copy as a block if the positions are far enough apart (lines 613-624). */
    method CopyStretch(w: nat, d: nat, e: nat, ghost dist: nat, ghost h: seq<byte>, ghost m: nat) returns (w': nat, d': nat)
      requires w < WSIZE && WindowAt(w) && 1 <= dist <= WSIZE && d == Index(w, dist) && Copied(h, dist, m)
      requires 1 <= e && w + e <= WSIZE && d + e <= WSIZE
      modifies `hist, slide
      ensures w' == w + e && d' == d + e && WindowAt(w') && Copied(h, dist, m + e)
    {
      CopySplit(h, dist, m, e);
      if d > w || w - d >= e {
        w', d' := CopyBlockwise(w, d, e, dist);
      } else {
        w', d' := CopyBytewise(w, d, e, dist);
      }
    }

    method CopyBlockwise(w: nat, d: nat, e: nat, ghost dist: nat) returns (w': nat, d': nat)
      requires w < WSIZE && WindowAt(w) && 1 <= dist <= WSIZE && d == Index(w, dist)
      requires 1 <= e && w + e <= WSIZE && d + e <= WSIZE && (d > w || w - d >= e)
      modifies `hist, slide
      ensures w' == w + e && d' == d + e && WindowAt(w') && hist == Copy(old(hist), dist, e)
    {
      ghost var s, h := slide[..], hist;
      BlockAt(s, w, h, dist, d, e);
      CopyBlock(h, dist, e);
      MemCopy(w, d, e);
      Push(s, slide[..], w, h, s[d..d + e]);
      hist := h + s[d..d + e];
      w', d' := w + e, d + e;
    }

    method CopyBytewise(w: nat, d: nat, e: nat, ghost dist: nat) returns (w': nat, d': nat)
      requires w < WSIZE && WindowAt(w) && 1 <= dist <= WSIZE && d == Index(w, dist)
      requires 1 <= e && w + e <= WSIZE && d <= w
      modifies `hist, slide
      ensures w' == w + e && d' == d + e && WindowAt(w') && hist == Copy(old(hist), dist, e)
    {
      w', d' := w, d;
      var left: nat := e;
      ghost var h := hist;
      while left != 0
        invariant left <= e && w' == w + (e - left) && d' == d + (e - left)
        invariant WindowAt(w') && Copied(h, dist, e - left)
        decreases left
      {
        IndexAhead(w, dist, e - left);
        CopyByte(w', d', dist, h, e - left);
        w', d', left := w' + 1, d' + 1, left - 1;
      }
    }

    method CopyByte(w: nat, d: nat, ghost dist: nat, ghost h: seq<byte>, ghost m: nat)
      requires w < WSIZE && WindowAt(w) && 1 <= dist <= WSIZE && d == Index(w, dist) && Copied(h, dist, m)
      modifies `hist, slide
      ensures WindowAt(w + 1) && Copied(h, dist, m + 1)
    {
      ghost var s, g := slide[..], hist;
      ByteAt(s, w, g, dist, d);
      CopyBlock(g, dist, 1);
      CopySplit(h, dist, m, 1);
      slide[w] := slide[d];
      hist := g + [s[d]];
      Push(s, slide[..], w, g, [s[d]]);
    }

    // ----- decoding -----

    ghost predicate Valid()
      reads this, slide
    {
      && ReaderOK() && OutputOK()
      && InReach(WSIZE, toks) && hist == Expand(init, toks)
    }

    /** The entry of table `id` that the next `n` bits select. */
    method Fetch(tables: seq<seq<Huft>>, id: nat, n: nat, ghost S: seq<bool>, ghost skip: nat) returns (ok: bool, t: Huft)
      requires ReaderOK() && n <= BMAX && skip <= |S| && Stream() == From(S, skip)
      requires Walk(tables, id, n, skip, S) != Broken
      modifies `bb, `bk, `buf, `inptr, `incnt
      ensures ReaderOK() && Stream() == old(Stream())
      ensures !ok ==> Walk(tables, id, n, skip, S) == Starved
      ensures ok ==> n <= bk && At(tables, id, n, skip, S, t)
    {
      t := Huft(0, 0, N(0));
      ok := NeedBits(n);
      if ok {
        TakeFrom(S, skip, n);
        t := tables[id][Peek(n)];
      }
    }

    /** Go on to the table that `t` leads to (lines 561-563). */
    method Follow(tables: seq<seq<Huft>>, ghost id: nat, ghost n: nat, t: Huft, ghost S: seq<bool>, ghost skip: nat)
      returns (ok: bool, t': Huft, n': nat)
      requires ReaderOK() && n <= bk && skip <= |S| && Stream() == From(S, skip)
      requires Walk(tables, id, n, skip, S) != Broken && At(tables, id, n, skip, S, t) && Leads(t)
      modifies `bb, `bk, `buf, `inptr, `incnt
      ensures ReaderOK() && t.v.T? && id < t.v.t && skip + t.b <= |S| && Stream() == From(S, skip + t.b)
      ensures Walk(tables, id, n, skip, S) == Walk(tables, t.v.t, n', skip + t.b, S)
      ensures !ok ==> Walk(tables, id, n, skip, S) == Starved
      ensures ok ==> n' <= bk && At(tables, t.v.t, n', skip + t.b, S, t')
    {
      hide Walk, At, Val, Pow2, BitsOf, From;
      WalkStep(tables, id, n, skip, S, t);
      DumpBits(t.b);
      DropTwice(S, skip, t.b);
      n' := t.e - 16;
      ok, t' := Fetch(tables, t.v.t, n', S, skip + t.b);
    }

    /** Walk to the entry of the next symbol (lines 557-566). */
    method WalkTables(tables: seq<seq<Huft>>, bl: nat) returns (ok: bool, t: Huft, ghost skip: nat)
      requires ReaderOK() && bl <= BMAX && Walk(tables, 0, bl, 0, Stream()) != Broken
      modifies `bb, `bk, `buf, `inptr, `incnt
      ensures ReaderOK() && skip <= |old(Stream())| && Stream() == From(old(Stream()), skip)
      ensures !ok ==> var r := Walk(tables, 0, bl, 0, old(Stream()));
                      r == Starved || (r.Hit? && r.entry.e == 99)
      ensures ok ==> t.e <= 16 && t.b <= bk && Walk(tables, 0, bl, 0, old(Stream())) == Hit(t, skip)
    {
      hide Walk, At, Val, Pow2, BitsOf, From;
      ghost var S, r := Stream(), Walk(tables, 0, bl, 0, Stream());
      var id: nat, n: nat := 0, bl;
      skip := 0;
      FromStart(S);
      ok, t := Fetch(tables, id, n, S, skip);
      if !ok { return; }
      while t.e > 16
        invariant ReaderOK() && n <= bk && skip <= |S| && Stream() == From(S, skip)
        invariant At(tables, id, n, skip, S, t) && r == Walk(tables, id, n, skip, S)
        decreases |tables| - id
      {
        WalkStep(tables, id, n, skip, S, t);
        AtTable(tables, id, n, skip, S, t);
        if t.e == 99 { return false, t, skip; }
        var t', n';
        ok, t', n' := Follow(tables, id, n, t, S, skip);
        skip := skip + t.b;
        if !ok { return; }
        id, n, t := t.v.t, n', t';
      }
      WalkStep(tables, id, n, skip, S, t);
    }

    /** Look up the next symbol of a code: read it and return its table entry
        (lines 557-566, 588-597). */
    method Lookup(tables: seq<seq<Huft>>, bl: nat, ghost A: Alphabet, ghost slack: nat)
      returns (ok: bool, t: Huft, ghost sym: nat)
      requires ReaderOK() && bl <= BMAX && A.Valid() && Realizes(A, slack, tables, bl)
      modifies `bb, `bk, `buf, `inptr, `incnt
      ensures ReaderOK()
      ensures ok ==> Decodes(A.b, old(Stream()), sym) && Stream() == old(Stream())[A.b[sym]..]
      ensures ok ==> t.e == A.Kind(sym) != 99 && t.v == N(A.Base(sym))
      ensures !ok ==> MayFail(A, slack, old(Stream()))
    {
      hide Val, Pow2, BitsOf;
      ghost var S, r := Stream(), Walk(tables, 0, bl, 0, Stream());
      assert Right(A, slack, S, r);
      ghost var skip;
      ok, t, skip := WalkTables(tables, bl);
      sym := 0;
      if ok {
        sym := HitSymbol(A, slack, S, t, skip);
        DumpBits(t.b);
        assert S[skip..][t.b..] == S[skip + t.b..];
      } else {
        MissFails(A, slack, S, r);
      }
    }

    /** Read `n` bits as a number. */
    method GetBits(n: nat) returns (ok: bool, v: nat)
      requires ReaderOK() && n <= 16
      modifies `bb, `bk, `buf, `inptr, `incnt
      ensures ReaderOK() && (ok <==> Number(n, old(Stream())).Got?)
      ensures ok ==> Number(n, old(Stream())) == Got(v, Stream())
    {
      v := 0;
      ok := NeedBits(n);
      if ok {
        v := Peek(n);
        DumpBits(n);
      }
    }

    /** The distance of a match (lines 588-600). It may fail because its code is `cut`
        short. */
    method GetDistance(td: seq<seq<Huft>>, bd: nat, ghost dl: seq<nat>)
      returns (ok: bool, dist: nat, ghost cut: bool, ghost d: nat, ghost y: nat, ghost S2: seq<bool>)
      requires ReaderOK() && Decodable(dl) && 1 <= |dl| <= 30 && Distances(dl).Valid()
      requires bd <= BMAX && Realizes(Distances(dl), 8, td, bd)
      modifies `bb, `bk, `buf, `inptr, `incnt
      ensures ReaderOK() && d < 30
      ensures ok || !cut ==> Symbol(dl, old(Stream())) == Got(d, S2)
      ensures ok ==> Number(CPDEXT[d], S2) == Got(y, Stream()) && dist == CPDIST[d] + y
      ensures !ok ==> if cut then MayFail(Distances(dl), 8, old(Stream())) else Number(CPDEXT[d], S2).Bad?
    {
      hide Val, Pow2, BitsOf;
      ghost var S1 := Stream();
      dist, cut, d, y, S2 := 0, false, 0, 0, [];
      var u;
      ghost var sym;
      ok, u, sym := Lookup(td, bd, Distances(dl), 8);
      if !ok { cut := true; return; }
      d := sym;
      DistanceEntry(dl, d);
      SymbolIs(dl, S1, d);
      S2 := Stream();
      var v;
      ok, v := GetBits(u.e);
      y := v;
      dist := u.v.n + v;
    }

    /** The length and distance of the match whose length code is `sym`
        (lines 582-600). */
    method GetMatch(t: Huft, td: seq<seq<Huft>>, bd: nat, ghost dl: seq<nat>, ghost sym: nat)
      returns (ok: bool, n: nat, dist: nat)
      requires ReaderOK() && Decodable(dl) && 1 <= |dl| <= 30 && Distances(dl).Valid()
      requires bd <= BMAX && Realizes(Distances(dl), 8, td, bd)
      requires 257 <= sym < 286 && t.e == CPLEXT[sym - 257] && t.v == N(CPLENS[sym - 257])
      modifies `bb, `bk, `buf, `inptr, `incnt
      ensures ReaderOK()
      ensures ok ==> MatchAfter(dl, sym, old(Stream())) == Got(Match(n, dist), Stream())
      ensures !ok ==> MatchAfter(dl, sym, Trim(old(Stream()))).Bad?
    {
      hide Val, Pow2, BitsOf;
      n, dist := 0, 0;
      ghost var S := Stream();
      LengthExtra(sym);
      var x;
      ok, x := GetBits(t.e);
      if !ok { MatchNoLength(dl, sym, S); return; }
      ghost var S1 := Stream();
      ghost var cut, d, y, S2;
      ok, dist, cut, d, y, S2 := GetDistance(td, bd, dl);
      if !ok {
        if cut { MatchStarved(dl, sym, S, S1); } else { MatchCut(dl, sym, S, x, S1, d, S2); }
        return;
      }
      n := t.v.n + x;
      MatchParts(dl, sym, S, t, x, S1, d, S2, y, Stream(), n, dist);
    }

    /** Record and output one literal or match. */
    method Emit(ghost t: Token, b: byte, n: nat, dist: nat)
      requires OutputOK() && InReach(WSIZE, toks) && hist == Expand(init, toks)
      requires if dist == 0 then t == Literal(b) else t == Match(n, dist) && dist <= WSIZE
      modifies `wp, `out, `hist, `toks, slide
      ensures OutputOK() && InReach(WSIZE, toks) && hist == Expand(init, toks) && toks == old(toks) + [t]
    {
      ExpandAppend(init, toks, t);
      if dist == 0 { PutByte(b); } else { CopyMatch(n, wp - dist, dist); }
      toks := toks + [t];
    }

    /** Decode up to the end of a block (lines 530-643). */
    method InflateCodes(tl: seq<seq<Huft>>, td: seq<seq<Huft>>, bl: nat, bd: nat, ghost ll: seq<nat>, ghost dl: seq<nat>)
      returns (ret: nat)
      requires Valid() && TablesFor(ll, dl, tl, bl, td, bd)
      modifies `bb, `bk, `buf, `inptr, `incnt, `wp, `out, `hist, `toks, slide
      ensures ret == 0 ==> Valid() && Codes(ll, dl, old(Stream()), old(toks)) == Got(toks, Stream())
      ensures ret != 0 ==> Codes(ll, dl, Trim(old(Stream())), old(toks)).Bad?
    {
      hide NextItem;
      while true
        invariant Valid()
        invariant Codes(ll, dl, Stream(), toks) == Codes(ll, dl, old(Stream()), old(toks))
        invariant Codes(ll, dl, Trim(old(Stream())), old(toks)).Got? ==>
                    Codes(ll, dl, Trim(Stream()), toks) == Codes(ll, dl, Trim(old(Stream())), old(toks))
        decreases |Stream()|
      {
        ghost var S, acc := Stream(), toks;
        var status, b, n, dist;
        ghost var t;
        status, b, n, dist, t := GetItem(tl, td, bl, bd, ll, dl);
        if status == 2 { return 1; }
        if status == 1 { return 0; }
        Emit(t, b, n, dist);
        if Codes(ll, dl, Trim(S), acc).Got? { CodesTrim(ll, dl, S, Stream(), t, acc); }
      }
    }

    /** Read a literal (status 0, `dist` 0), a match (status 0), or the end of the block
        (status 1); status 2 is an error. */
    method GetItem(tl: seq<seq<Huft>>, td: seq<seq<Huft>>, bl: nat, bd: nat, ghost ll: seq<nat>, ghost dl: seq<nat>)
      returns (status: nat, b: byte, n: nat, dist: nat, ghost t: Token)
      requires ReaderOK() && TablesFor(ll, dl, tl, bl, td, bd)
      modifies `bb, `bk, `buf, `inptr, `incnt
      ensures ReaderOK() && status <= 2
      ensures status == 0 ==> NextItem(ll, dl, old(Stream())) == Got(Tok(t), Stream())
      ensures status == 0 ==> if dist == 0 then t == Literal(b) else t == Match(n, dist) && dist <= WSIZE
      ensures status == 1 ==> NextItem(ll, dl, old(Stream())) == Got(End, Stream())
      ensures status == 2 ==> NextItem(ll, dl, Trim(old(Stream()))).Bad?
    {
      hide Val, Pow2, BitsOf;
      ghost var S := Stream();
      var ok, e;
      ghost var sym;
      status, b, n, dist, t := 2, 0, 0, 0, Literal(0);
      ok, e, sym := Lookup(tl, bl, Literals(ll), 8);
      if !ok {
        ItemStarved(ll, dl, S);
        return;
      }
      SymbolIs(ll, S, sym);
      LiteralEntry(ll, sym);
      if e.e == 16 {
        b := e.v.n as byte;
        status, t := 0, Literal(b);
      } else if e.e == 15 {
        status := 1;
      } else {
        ghost var S1 := Stream();
        ok, n, dist := GetMatch(e, td, bd, dl, sym);
        if ok {
          MatchReach(dl, sym, S1);
          status, t := 0, Match(n, dist);
        } else {
          ItemCut(ll, dl, S, sym, S1);
        }
      }
    }

    /** The length of a stored block and its complement (lines 671-678). */
    method GetStoredNumbers() returns (ok: bool, n: nat)
      requires ReaderOK()
      modifies `bb, `bk, `buf, `inptr, `incnt
      ensures ReaderOK()
      ensures ok ==> Number(16, old(Stream())).Got? && n == Number(16, old(Stream())).val
      ensures ok <==> (var a := Number(16, old(Stream()));
                       a.Got? && var c := Number(16, a.rest); c.Got? && a.val + c.val == 0xffff)
      ensures ok ==> Stream() == Number(16, Number(16, old(Stream())).rest).rest
    {
      hide Val, Pow2, BitsOf;
      var c;
      ok, n := GetBits(16);
      if !ok { return; }
      ok, c := GetBits(16);
      ok := ok && n + c == 0xffff;
    }

    /** The length of a stored block, after the rest of a byte (lines 666-678). */
    method GetStoredLength() returns (ok: bool, n: nat)
      requires ReaderOK()
      modifies `bb, `bk, `buf, `inptr, `incnt
      ensures ReaderOK() && (ok <==> StoredLength(old(Stream())).Got?)
      ensures ok ==> StoredLength(old(Stream())) == Got(n, Stream())
    {
      hide Val, Pow2, BitsOf, Number, StoredLength;
      ghost var S := Stream();
      ByteAligned(buf, mem[inptr..]);
      StoredParts(S, bk % 8);
      DumpBits(bk % 8);
      ok, n := GetStoredNumbers();
    }

    /** A stored block (lines 649-700). */
    method InflateStored() returns (ret: nat)
      requires Valid()
      modifies `bb, `bk, `buf, `inptr, `incnt, `wp, `out, `hist, `toks, slide
      ensures ret == 0 ==> Valid() && Stored(old(Stream()), old(toks)) == Got(toks, Stream())
      ensures ret != 0 ==> Stored(Trim(old(Stream())), old(toks)).Bad?
    {
      hide Val, Pow2, BitsOf;
      ghost var S, acc := Stream(), toks;
      var ok, n := GetStoredLength();
      if ok { ok := CopyStored(n); }
      if !ok { StoredTrim(S, acc); }
      ret := if ok then 0 else 1;
    }

    /** The bytes of a stored block (lines 682-692). */
    method CopyStored(n: nat) returns (ok: bool)
      requires Valid()
      modifies `bb, `bk, `buf, `inptr, `incnt, `wp, `out, `hist, `toks, slide
      ensures ok ==> Valid() && Bytes(n, old(Stream()), old(toks)) == Got(toks, Stream())
      ensures !ok ==> Bytes(n, old(Stream()), old(toks)).Bad?
    {
      hide Bytes, Val, Pow2, BitsOf, Expand;
      var left: nat := n;
      while left != 0
        invariant Valid() && left <= n
        invariant Bytes(left, Stream(), toks) == Bytes(n, old(Stream()), old(toks))
        decreases left
      {
        ghost var s, acc := Stream(), toks;
        var b;
        ok, b := GetBits(8);
        if !ok {
          BytesCut(left, s, acc);
          return;
        }
        BytesNext(left, s, acc, b, Stream());
        Emit(Literal(b as byte), b as byte, 1, 0);
        left := left - 1;
      }
      ok := true;
      BytesEnd(Stream(), toks);
    }

    /** The sizes of a dynamic block's codes (lines 792-807). */
    method GetSizes() returns (ok: bool, nl: nat, nd: nat, nb: nat)
      requires ReaderOK()
      modifies `bb, `bk, `buf, `inptr, `incnt
      ensures ReaderOK() && (ok <==> Sizes(old(Stream())).Got?)
      ensures ok ==> Sizes(old(Stream())) == Got((nl, nd, nb), Stream())
    {
      hide Val, Pow2, BitsOf;
      nl, nd, nb := 0, 0, 0;
      ok, nl := GetBits(5);
      if !ok { return; }
      nl := 257 + nl;
      ok, nd := GetBits(5);
      if !ok { return; }
      nd := 1 + nd;
      ok, nb := GetBits(4);
      nb := 4 + nb;
    }

    /** The lengths of the code for code lengths (lines 810-818). */
    method GetCodeLengthLengths(nb: nat) returns (ok: bool, ll: seq<nat>)
      requires ReaderOK() && nb <= 19
      modifies `bb, `bk, `buf, `inptr, `incnt
      ensures ReaderOK() && |ll| == 316
      ensures ok <==> CodeLengthLengths(nb, 0, old(Stream()), Repeat(0, 19)).Got?
      ensures ok ==> CodeLengthLengths(nb, 0, old(Stream()), Repeat(0, 19)) == Got(ll[..19], Stream())
    {
      hide CodeLengthLengths, Val, Pow2, BitsOf, EnteredTo;
      ll := seq(316, _ => 0);
      ghost var acc: seq<nat> := Repeat(0, 19);
      NoneEntered(ll, acc);
      var j := 0;
      while j < nb
        invariant j <= nb && ReaderOK() && |ll| == 316 && |acc| == 19
        invariant EnteredTo(ll, acc, j)
        invariant CodeLengthLengths(nb, j, Stream(), acc) == CodeLengthLengths(nb, 0, old(Stream()), Repeat(0, 19))
      {
        ghost var s := Stream();
        var v;
        ok, v := GetBits(3);
        if !ok {
          CodeLengthCut(nb, j, s, acc);
          return;
        }
        CodeLengthStep(nb, j, s, acc, v, Stream());
        OneEntered(ll, acc, j, v);
        ll := ll[BORDER[j] := v];
        acc := acc[BORDER[j] := v];
        j := j + 1;
      }
      CodeLengthEnd(nb, Stream(), acc);
      ll := ClearRest(ll, j, acc);
      ok := true;
      BorderComplete(ll, acc);
    }

    static method ClearRest(ll0: seq<nat>, nb: nat, ghost acc: seq<nat>) returns (ll: seq<nat>)
      requires nb <= 19 && |ll0| == 316 && |acc| == 19
      requires EnteredTo(ll0, acc, nb)
      ensures |ll| == 316 && forall i :: 0 <= i < 19 ==> ll[BORDER[i]] == acc[BORDER[i]]
    {
      ll := ll0;
      var j := nb;
      while j < 19
        invariant nb <= j <= 19 && |ll| == 316
        invariant forall i :: 0 <= i < j ==> ll[BORDER[i]] == acc[BORDER[i]]
      {
        BorderOrder();
        ll := ll[BORDER[j] := 0];
        j := j + 1;
      }
    }

    /** `j` copies of `v` from index `i` on. */
    static method FillLengths(ll0: seq<nat>, i: nat, j: nat, v: nat) returns (ll: seq<nat>)
      requires i + j <= |ll0|
      ensures |ll| == |ll0| && ll[..i + j] == ll0[..i] + Repeat(v, j)
    {
      ll := ll0;
      var t := 0;
      while t < j
        invariant 0 <= t <= j && |ll| == |ll0| && ll[..i + t] == ll0[..i] + Repeat(v, t)
      {
        ll := ll[i + t := v];
        t := t + 1;
      }
    }

    /** A symbol of the code for code lengths, by a single lookup (lines 840-843). */
    method GetLengthSymbol(tl: seq<seq<Huft>>, bl: nat, ghost b: seq<nat>) returns (ok: bool, j: nat)
      requires ReaderOK() && 1 <= bl <= 7 && |b| == 19 && Bounded(b) && Usable(b) && OneLevel(CodeLengths(b), tl, bl)
      modifies `bb, `bk, `buf, `inptr, `incnt
      ensures ReaderOK()
      ensures ok ==> LengthSymbol(b, old(Stream())) == Got(j, Stream()) && j < 19
      ensures !ok ==> |old(Stream())| < 8
    {
      hide Val, Pow2, BitsOf;
      j := 0;
      ghost var S := Stream();
      ok := NeedBits(bl);
      if ok {
        var td := tl[0][Peek(bl)];
        OneLevelSymbol(b, tl, bl, S);
        DumpBits(td.b);
        j := td.v.n;
      }
    }

    /** The lengths that the symbol `j`, read from `s`, repeats (lines 844-886). */
    method RepeatLength(j: nat, ll0: seq<nat>, i0: nat, n: nat, l0: nat, ghost b: seq<nat>, ghost s: seq<bool>)
      returns (ok: bool, ll: seq<nat>, i: nat, l: nat)
      requires ReaderOK() && 16 <= j < 19 && i0 < n <= 316 == |ll0| && |b| == 19 && LengthSymbol(b, s) == Got(j, Stream())
      modifies `bb, `bk, `buf, `inptr, `incnt
      ensures ReaderOK() && |ll| == 316 && i <= n
      ensures ok ==> |Stream()| <= |old(Stream())|
      ensures ok ==> Lengths(b, n, l, Stream(), ll[..i]) == Lengths(b, n, l0, s, ll0[..i0])
      ensures !ok ==> Lengths(b, n, l0, s, ll0[..i0]).Bad?
    {
      hide LengthSymbol, Val, Pow2, BitsOf;
      ll, i, l := ll0, i0, l0;
      ghost var r := Lengths(b, n, l0, s, ll0[..i0]);
      LengthsRepeat(b, n, l, s, ll[..i], j, Stream());
      var x;
      ok, x := GetBits(if j == 16 then 2 else if j == 17 then 3 else 7);
      if !ok { return; }
      var count := (if j == 18 then 11 else 3) + x;
      if i + count > n { return false, ll, i, l; }
      if j != 16 { l := 0; }
      ll := FillLengths(ll, i, count, l);
      i := i + count;
      assert r == Lengths(b, n, l, Stream(), ll[..i]);
    }

    /** The literal/length and distance code lengths (lines 834-887). */
    method GetLengths(tl: seq<seq<Huft>>, bl: nat, n: nat, ll0: seq<nat>, ghost b: seq<nat>) returns (ok: bool, ll: seq<nat>)
      requires ReaderOK() && 1 <= bl <= 7 && |b| == 19 && Bounded(b) && Usable(b) && OneLevel(CodeLengths(b), tl, bl)
      requires |ll0| == 316 && n <= 316
      modifies `bb, `bk, `buf, `inptr, `incnt
      ensures ReaderOK() && |ll| == 316
      ensures ok ==> Lengths(b, n, 0, old(Stream()), []) == Got(ll[..n], Stream())
      ensures !ok ==> Lengths(b, n, 0, old(Stream()), []).Bad? || |Lengths(b, n, 0, old(Stream()), []).rest| < 8
    {
      hide LengthSymbol, Val, Pow2, BitsOf;
      ll := ll0;
      var i: nat, l: nat := 0, 0;
      assert ll[..0] == [];
      while i < n
        invariant ReaderOK() && i <= n && |ll| == 316
        invariant Lengths(b, n, l, Stream(), ll[..i]) == Lengths(b, n, 0, old(Stream()), [])
        decreases |Stream()|
      {
        ghost var s := Stream();
        var j;
        ok, j := GetLengthSymbol(tl, bl, b);
        if !ok { LengthsShort(b, n, l, s, ll[..i]); return; }
        if j < 16 {
          LengthsLiteral(b, n, l, s, ll[..i], j, Stream());
          ll := ll[i := j];
          assert ll[..i + 1] == ll[..i] + [j];
          i, l := i + 1, j;
        } else {
          ok, ll, i, l := RepeatLength(j, ll, i, n, l, b, s);
          if !ok { return; }
        }
      }
      ok := true;
    }

    /** The sizes and the lengths of the code for code lengths (lines 792-818). */
    method GetCodeLengthCode() returns (ok: bool, ll: seq<nat>, nl: nat, nd: nat)
      requires ReaderOK()
      modifies `bb, `bk, `buf, `inptr, `incnt
      ensures ReaderOK() && (ok <==> CodeLengthCode(InflateC, old(Stream())).Got?)
      ensures ok ==> |ll| == 316 && CodeLengthCode(InflateC, old(Stream())) == Got((nl, nd, ll[..19]), Stream())
    {
      hide Val, Pow2, BitsOf;
      ll := [];
      var nb;
      ok, nl, nd, nb := GetSizes();
      if !ok { return; }
      if nl > 286 || nd > 30 { return false, ll, nl, nd; }
      ok, ll := GetCodeLengthLengths(nb);
    }

    /** The table of the code for code lengths (lines 792-831). */
    method GetCodeLengthTable() returns (ret: nat, ll: seq<nat>, nl: nat, nd: nat, tl: seq<seq<Huft>>, bl: nat)
      requires ReaderOK()
      modifies `bb, `bk, `buf, `inptr, `incnt
      ensures ReaderOK()
      ensures ret == 0 ==> |ll| == 316 && CodeLengthCode(InflateC, old(Stream())) == Got((nl, nd, ll[..19]), Stream())
      ensures ret == 0 ==> 1 <= bl <= 7 && Bounded(ll[..19]) && Usable(ll[..19]) && OneLevel(CodeLengths(ll[..19]), tl, bl)
      ensures ret != 0 ==> Header(InflateC, Trim(old(Stream()))).Bad?
    {
      hide Val, Pow2, BitsOf;
      ghost var S := Stream();
      ret, tl, bl := 1, [], 0;
      var ok;
      ok, ll, nl, nd := GetCodeLengthCode();
      if !ok { HeaderTrim(S); return; }
      ret, tl, bl := HuftBuild(CodeLengths(ll[..19]), 7);
      if bl == 0 { ret := 1; }
      CodeLengthUsable(S, ll[..19], bl == 0, ret);
    }

    /** Read the code lengths of a dynamic block (lines 792-896). */
    method GetHeader() returns (ret: nat, ll: seq<nat>, nl: nat, nd: nat)
      requires ReaderOK()
      modifies `bb, `bk, `buf, `inptr, `incnt
      ensures ReaderOK()
      ensures ret == 0 ==> |ll| == 316 && nl + nd <= 316
      ensures ret == 0 ==> Header(InflateC, old(Stream())) == Got((ll[..nl], ll[nl..nl + nd]), Stream())
      ensures ret != 0 ==> Header(InflateC, Trim(old(Stream()))).Bad?
    {
      hide Header, CodeLengthCode, Lengths, Usable, Val, Pow2, BitsOf;
      ghost var S := Stream();
      var ok, tl, bl;
      ret, ll, nl, nd, tl, bl := GetCodeLengthTable();
      if ret != 0 { return; }
      ghost var L, b := Stream(), ll[..19];
      CodeLengthSizes(S);
      ok, ll := GetLengths(tl, bl, nl + nd, ll, b);
      HeaderParts(S, nl, nd, b, L, ok, ll, Stream());
      ret := if ok then 0 else 1;
    }

    /** The tables of the fixed codes, once they are made, decode those codes. */
    ghost predicate FixedOK()
      reads `fixed_tl, `fixed_td, `fixed_bl, `fixed_bd
    {
      fixed_tl == [] || TablesFor(FixedLiterals(), FixedDistances(), fixed_tl, fixed_bl, fixed_td, fixed_bd)
    }

    /** The decoding tables for the code lengths read (lines 899-937). */
    static method MakeTables(ll: seq<nat>, nl: nat, nd: nat)
      returns (ret: nat, tl: seq<seq<Huft>>, td: seq<seq<Huft>>, bl: nat, bd: nat)
      requires 257 <= nl <= 286 && 1 <= nd <= 30 && nl + nd <= |ll| && Bounded(ll[..nl]) && Bounded(ll[nl..nl + nd])
      ensures ret == 0 ==> Usable(ll[..nl]) && TakenDistances(nl, ll[nl..nl + nd])
      ensures ret == 0 ==> TablesFor(ll[..nl], ll[nl..nl + nd], tl, bl, td, bd)
      ensures ret != 0 ==> !Usable(ll[..nl]) || !TakenDistances(nl, ll[nl..nl + nd])
    {
      td, bd := [], 0;
      AlphabetsValid(ll[..nl], ll[nl..nl + nd]);
      ret, tl, bl := HuftBuild(Literals(ll[..nl]), 9);
      if bl == 0 { ret := 1; }
      if ret != 0 { return; }
      ret, td, bd := HuftBuild(Distances(ll[nl..nl + nd]), 6);
      if bd == 0 && nl > 257 { ret := 1; }
      if AllZero(ll[nl..nl + nd]) { AllZeroFits(ll[nl..nl + nd]); }
    }

    /** The codes of a dynamic block and their tables (lines 792-937). */
    method GetDynamicTables() returns (ret: nat, tl: seq<seq<Huft>>, td: seq<seq<Huft>>, bl: nat, bd: nat,
                                       ghost ll: seq<nat>, ghost dl: seq<nat>)
      requires ReaderOK()
      modifies `bb, `bk, `buf, `inptr, `incnt
      ensures ReaderOK()
      ensures ret == 0 ==> Header(InflateC, old(Stream())) == Got((ll, dl), Stream())
      ensures ret == 0 ==> Usable(ll) && TakenDistances(|ll|, dl) && TablesFor(ll, dl, tl, bl, td, bd)
      ensures ret != 0 ==> forall acc :: Dynamic(InflateC, Trim(old(Stream())), acc).Bad?
    {
      hide Val, Pow2, BitsOf;
      ghost var S := Stream();
      var l, nl, nd;
      ret, l, nl, nd := GetHeader();
      tl, td, bl, bd, ll, dl := [], [], 0, 0, [], [];
      if ret != 0 { return; }
      HeaderShape(S);
      ll, dl := l[..nl], l[nl..nl + nd];
      ret, tl, td, bl, bd := MakeTables(l, nl, nd);
      if ret != 0 {
        forall acc ensures Dynamic(InflateC, Trim(S), acc).Bad? { DynamicTrim(S, acc); }
      }
    }

    /** A block with dynamic codes (lines 763-951). */
    method InflateDynamic() returns (ret: nat)
      requires Valid()
      modifies `bb, `bk, `buf, `inptr, `incnt, `wp, `out, `hist, `toks, slide
      ensures ret == 0 ==> Valid() && Dynamic(InflateC, old(Stream()), old(toks)) == Got(toks, Stream())
      ensures ret != 0 ==> Dynamic(InflateC, Trim(old(Stream())), old(toks)).Bad?
      // in terms of the RFC and of the limits of this program
      ensures ret == 0 ==> Dynamic(Rfc1951, old(Stream()), old(toks)) == Got(toks, Stream()) && HeaderWithin(old(Stream()))
      ensures ret != 0 ==> Dynamic(Rfc1951, Trim(old(Stream())), old(toks)).Bad? || !HeaderWithin(Trim(old(Stream())))
    {
      hide Dynamic, HeaderWithin, Header, Codes, Usable, UsableDistances, Within, Val, Pow2, BitsOf;
      ghost var S, acc := Stream(), toks;
      DynamicRead(S, acc);
      DynamicRead(Trim(S), acc);
      var tl, td, bl, bd;
      ghost var ll, dl;
      ret, tl, td, bl, bd, ll, dl := GetDynamicTables();
      if ret != 0 { return; }
      ghost var H := Stream();
      ret := InflateCodes(tl, td, bl, bd, ll, dl);
      if ret != 0 {
        DynamicCut(S, acc, H);
        ret := 1;
      } else {
        DynamicParts(S, acc, H, toks, Stream());
      }
    }

    /** A block with the fixed codes (lines 711-758). Their tables are made once. */
    method InflateFixed() returns (ret: nat)
      requires Valid() && FixedOK()
      modifies `bb, `bk, `buf, `inptr, `incnt, `wp, `out, `hist, `toks, slide
      modifies `fixed_tl, `fixed_td, `fixed_bl, `fixed_bd
      ensures FixedOK()
      ensures ret == 0 ==> Valid() && Codes(FixedLiterals(), FixedDistances(), old(Stream()), old(toks)) == Got(toks, Stream())
      ensures ret != 0 ==> Codes(FixedLiterals(), FixedDistances(), Trim(old(Stream())), old(toks)).Bad?
    {
      hide Val, Pow2, BitsOf;
      if fixed_tl == [] { MakeFixed(); }
      ret := InflateCodes(fixed_tl, fixed_td, fixed_bl, fixed_bd, FixedLiterals(), FixedDistances());
    }

    method MakeFixed()
      modifies `fixed_tl, `fixed_td, `fixed_bl, `fixed_bd
      ensures TablesFor(FixedLiterals(), FixedDistances(), fixed_tl, fixed_bl, fixed_td, fixed_bd)
    {
      FixedCodes();
      AlphabetsValid(FixedLiterals(), FixedDistances());
      var i;
      i, fixed_tl, fixed_bl := HuftBuild(Literals(FixedLiterals()), 7);
      i, fixed_td, fixed_bd := HuftBuild(Distances(FixedDistances()), 5);
    }

    /** What follows the header of a block of type `t` (lines 987-997). */
    method InflateBody(t: nat) returns (ret: nat)
      requires Valid() && FixedOK()
      modifies `bb, `bk, `buf, `inptr, `incnt, `wp, `out, `hist, `toks, slide
      modifies `fixed_tl, `fixed_td, `fixed_bl, `fixed_bd
      ensures FixedOK()
      ensures ret == 0 ==> Valid() && Block(InflateC, t, old(Stream()), old(toks)) == Got(toks, Stream())
      ensures ret != 0 ==> Block(InflateC, t, Trim(old(Stream())), old(toks)).Bad?
    {
      hide Valid, FixedOK, Trim, Val, Pow2, BitsOf;
      if t == 2 {
        ret := InflateDynamic();
      } else if t == 0 {
        ret := InflateStored();
      } else if t == 1 {
        ret := InflateFixed();
      } else {
        ret := 2;
      }
    }

    /** One block (lines 955-998). `e` is the mark of the last block. */
    method InflateBlock() returns (ret: nat, e: nat)
      requires Valid() && FixedOK()
      modifies `bb, `bk, `buf, `inptr, `incnt, `wp, `out, `hist, `toks, slide
      modifies `fixed_tl, `fixed_td, `fixed_bl, `fixed_bd
      ensures FixedOK()
      ensures ret == 0 ==> Valid() && OneBlock(InflateC, old(Stream()), old(toks)) == Got((e, toks), Stream())
      ensures ret != 0 ==> OneBlock(InflateC, Trim(old(Stream())), old(toks)).Bad?
    {
      hide OneBlock, Block, Val, Pow2, BitsOf;
      ghost var S, acc := Stream(), toks;
      var ok, t;
      ok, e, t := GetBlockHead();
      if !ok {
        BlockShort(S, acc);
        return 1, e;
      }
      ghost var B := Stream();
      ret := InflateBody(t);
      if ret != 0 { BlockCut(S, acc, e, t, B); } else { BlockParts(S, acc, e, t, B, toks, Stream()); }
    }

    /** The mark of the last block and the block type (lines 966-981). */
    method GetBlockHead() returns (ok: bool, e: nat, t: nat)
      requires ReaderOK()
      modifies `bb, `bk, `buf, `inptr, `incnt
      ensures ReaderOK()
      ensures ok ==> BlockHead(old(Stream()), e, t, Stream())
      ensures !ok ==> Number(1, old(Stream())).Bad? || Number(2, Number(1, old(Stream())).rest).Bad?
    {
      hide Val, Pow2, BitsOf;
      t := 0;
      ok, e := GetBits(1);
      if ok { ok, t := GetBits(2); }
    }

    /** What has been decoded of the stream `S`, after the block marked `e`. */
    ghost predicate Progress(S: seq<bool>, e: nat)
      requires inptr <= |mem|
      reads `mem, `inptr, `buf, `toks
    {
      && (e != 0 ==> Blocks(InflateC, S, []) == Got(toks, Stream()))
      && (e == 0 ==> Blocks(InflateC, Stream(), toks) == Blocks(InflateC, S, []))
      && (e == 0 && Blocks(InflateC, Trim(S), []).Got? ==> Blocks(InflateC, Trim(Stream()), toks) == Blocks(InflateC, Trim(S), []))
    }

    /** The next block of the stream `S`. */
    method NextBlock(ghost S: seq<bool>) returns (ret: nat, e: nat)
      requires Valid() && FixedOK() && Progress(S, 0)
      modifies `bb, `bk, `buf, `inptr, `incnt, `wp, `out, `hist, `toks, slide
      modifies `fixed_tl, `fixed_td, `fixed_bl, `fixed_bd
      ensures FixedOK()
      ensures ret == 0 ==> Valid() && Progress(S, e) && |Stream()| < |old(Stream())|
      ensures ret != 0 ==> Blocks(InflateC, Trim(S), []).Bad?
    {
      hide Val, Pow2, BitsOf;
      ghost var s, acc := Stream(), toks;
      ret, e := InflateBlock();
      if ret == 0 {
        FixedCodes();
        BlocksStep(s, acc, Stream(), toks, e);
        if Blocks(InflateC, Trim(s), acc).Got? { BlocksTrim(s, acc, Stream(), toks, e); }
      }
    }

    /** Start with an empty bit buffer and the window as it is (lines 1019-1022). */
    method Reset()
      requires slide.Length == WSIZE && out == []
      requires inptr <= |mem| && (if incnt >= 0 then inptr + incnt + 1 == |mem| else inptr == |mem|)
      modifies `bb, `bk, `wp, `buf, `init, `hist, `toks
      ensures Valid() && toks == [] && init == slide[..] && Stream() == BitsOf(mem[inptr..])
    {
      wp, bk, bb := 0, 0, 0;
      buf, init, hist, toks := [], slide[..], slide[..], [];
      assert init + [] == init;
    }

    /** All blocks, and the last of the output (lines 1026-1042). */
    method InflateBlocks() returns (ret: nat)
      requires Valid() && FixedOK() && toks == []
      modifies `bb, `bk, `buf, `inptr, `incnt, `wp, `out, `hist, `toks, slide
      modifies `fixed_tl, `fixed_td, `fixed_bl, `fixed_bd
      ensures FixedOK()
      ensures ret == 0 ==> inptr <= |mem| && Blocks(InflateC, old(Stream()), []) == Got(toks, Stream())
      ensures ret == 0 ==> InReach(WSIZE, toks) && |init| == WSIZE && init + out == Expand(init, toks)
      ensures ret != 0 ==> Blocks(InflateC, Trim(old(Stream())), []).Bad?
    {
      hide Blocks;
      ghost var S := Stream();
      var e := 0;
      while e == 0
        invariant FixedOK() && Valid() && Progress(S, e)
        decreases e == 0, |Stream()|
      {
        ret, e := NextBlock(S);
        if ret != 0 { return; }
      }
      Flush(wp);
      ret := 0;
    }

    /** The public function: decompress `n` bytes and return the size of the result, or
        0 on failure (lines 1307-1320). `n` bytes and the one after them are read from
        memory. */
    method DecompressDeflatedData(input: seq<byte>, n: nat) returns (size: nat)
      requires FixedOK() && slide.Length == WSIZE && |input| > n
      modifies this, slide
      ensures FixedOK()
      // Data that RFC 1951 allows are decompressed if all their code lengths are within the
      // limits of this program, whatever byte follows them and whatever the window holds,
      // to what their literals and matches stand for.
      ensures var p := Blocks(Rfc1951, BitsOf(input[..n]), []);
              p.Got? && BlocksWithin(BitsOf(input[..n]), []) ==>
                (InReach(WSIZE, p.val) && size == |out| == Size(p.val)
                 && old(slide[..]) + out == Expand(old(slide[..]), p.val)
                 && (InReach(0, p.val) ==> out == Expand([], p.val)))
      ensures Blocks(Rfc1951, BitsOf(input[..n]), []).Got? && !BlocksWithin(BitsOf(input[..n]), []) ==> size == 0
      // Nothing else is, except that the following byte may complete the data.
      ensures size != 0 ==>
                (var p := Blocks(Rfc1951, BitsOf(input[..n + 1]), []);
                 p.Got? && BlocksWithin(BitsOf(input[..n + 1]), []) && InReach(WSIZE, p.val) && size == Size(p.val)
                 && old(slide[..]) + out == Expand(old(slide[..]), p.val))
    {
      hide Blocks, InReach, Size, Expand, BlocksWithin, Trim, BitsOf;
      out := [];
      mem, inptr, incnt := input[..n + 1], 0, n;
      ghost var w := slide[..];
      assert mem[inptr..] == input[..n + 1];
      LastByte(input, n);
      StandardRead(input, n);
      Reset();
      var r := InflateBlocks();
      if r != 0 { return 0; }
      size := |out|;
      FreshOutput(w, toks, out);
    }
  }

  /** The byte past the end does not change what is decoded. */
  lemma LastByte(input: seq<byte>, n: nat)
    requires |input| > n
    ensures Trim(BitsOf(input[..n + 1])) == BitsOf(input[..n])
    ensures Blocks(InflateC, BitsOf(input[..n]), []).Got? ==>
              Blocks(InflateC, BitsOf(input[..n + 1]), []).Got? && Blocks(InflateC, BitsOf(input[..n + 1]), []).val == Blocks(InflateC, BitsOf(input[..n]), []).val
  {
    TrimLastByte(input, n);
    FixedCodes();
    if Blocks(InflateC, BitsOf(input[..n]), []).Got? {
      BlocksMore(InflateC, BitsOf(input[..n]), [], ByteBits(input[n]));
    }
  }

  /** Data with the byte past the end, by the rules of the RFC and of the program. */
  lemma StandardRead(input: seq<byte>, n: nat)
    requires |input| > n
    ensures var p, within := Blocks(Rfc1951, BitsOf(input[..n]), []), BlocksWithin(BitsOf(input[..n]), []);
            && (p.Got? && within ==> Blocks(InflateC, BitsOf(input[..n]), []) == p)
            && (p.Got? && !within ==> Blocks(InflateC, BitsOf(input[..n + 1]), []).Bad?)
    ensures var q := Blocks(InflateC, BitsOf(input[..n + 1]), []);
            q.Got? ==> Blocks(Rfc1951, BitsOf(input[..n + 1]), []) == q && BlocksWithin(BitsOf(input[..n + 1]), [])
  {
    TrimLastByte(input, n);
    FixedCodes();
    BlocksRead(BitsOf(input[..n]), []);
    BlocksRead(BitsOf(input[..n + 1]), []);
    if Blocks(Rfc1951, BitsOf(input[..n]), []).Got? {
      BlocksMore(Rfc1951, BitsOf(input[..n]), [], ByteBits(input[n]));
      WithinMore(BitsOf(input[..n]), [], ByteBits(input[n]));
    }
  }

  /** Output that refers to nothing before it does not depend on the window. */
  lemma FreshOutput(w: seq<byte>, ts: seq<Token>, out: seq<byte>)
    requires InReach(|w|, ts) && w + out == Expand(w, ts)
    ensures InReach(0, ts) ==> out == Expand([], ts)
  {
    if InReach(0, ts) {
      ExpandAfter(w, [], ts);
      assert w + [] == w;
      assert out == (w + out)[|w|..] == (w + Expand([], ts))[|w|..] == Expand([], ts);
    }
  }

  lemma TrimLastByte(input: seq<byte>, n: nat)
    requires |input| > n
    ensures BitsOf(input[..n + 1]) == BitsOf(input[..n]) + ByteBits(input[n])
    ensures Trim(BitsOf(input[..n + 1])) == BitsOf(input[..n])
  {
    assert input[..n + 1] == input[..n] + [input[n]];
    BitsOfConcat(input[..n], [input[n]]);
    assert [input[n]][1..] == [];
    assert BitsOf([input[n]]) == ByteBits(input[n]) + [];
  }

  lemma CodeLengthSizes(S: seq<bool>)
    requires CodeLengthCode(InflateC, S).Got?
    ensures CodeLengthCode(InflateC, S).val.0 + CodeLengthCode(InflateC, S).val.1 <= 316 && |CodeLengthCode(InflateC, S).val.2| == 19
  {
  }

  lemma HeaderShape(S: seq<bool>)
    requires Header(InflateC, S).Got?
    ensures var h := Header(InflateC, S).val; Bounded(h.0) && Bounded(h.1) && 257 <= |h.0| <= 286 && 1 <= |h.1| <= 30
  {
  }

  lemma AlphabetsValid(b: seq<nat>, d: seq<nat>)
    requires Bounded(b) && Bounded(d) && 257 <= |b| <= 288 && 1 <= |d| <= 30
    ensures Literals(b).Valid() && Distances(d).Valid()
  {
    LiteralsValid(b);
    DistancesValid(d);
  }

  lemma LiteralsValid(b: seq<nat>)
    requires Bounded(b) && 257 <= |b| <= 288
    ensures Literals(b).Valid()
  {
  }

  lemma DistancesValid(d: seq<nat>)
    requires Bounded(d) && 1 <= |d| <= 30
    ensures Distances(d).Valid()
  {
  }

  lemma DynamicParts(S: seq<bool>, acc: seq<Token>, H: seq<bool>, acc': seq<Token>, S': seq<bool>)
    requires Header(InflateC, S).Got? && Header(InflateC, S).rest == H
    requires Usable(Header(InflateC, S).val.0) && TakenDistances(|Header(InflateC, S).val.0|, Header(InflateC, S).val.1)
    requires Codes(Header(InflateC, S).val.0, Header(InflateC, S).val.1, H, acc) == Got(acc', S')
    ensures Dynamic(InflateC, S, acc) == Got(acc', S')
  {
  }

  lemma DynamicTrim(S: seq<bool>, acc: seq<Token>)
    requires Dynamic(InflateC, S, acc).Bad?
    ensures Dynamic(InflateC, Trim(S), acc).Bad?
  {
    Trimmed(S);
    if |S| >= 8 && Dynamic(InflateC, Trim(S), acc).Got? { DynamicMore(InflateC, Trim(S), acc, S[|S| - 8..]); }
  }

  lemma DynamicCut(S: seq<bool>, acc: seq<Token>, H: seq<bool>)
    requires Header(InflateC, S).Got? && Header(InflateC, S).rest == H
    requires Codes(Header(InflateC, S).val.0, Header(InflateC, S).val.1, Trim(H), acc).Bad?
    ensures Dynamic(InflateC, Trim(S), acc).Bad?
  {
    Trimmed(S);
    if |S| >= 8 && Header(InflateC, Trim(S)).Got? {
      HeaderMore(InflateC, Trim(S), S[|S| - 8..]);
      assert Trim(H) == Header(InflateC, Trim(S)).rest;
    }
  }

  lemma BlockShort(S: seq<bool>, acc: seq<Token>)
    requires Number(1, S).Bad? || Number(2, Number(1, S).rest).Bad?
    ensures OneBlock(InflateC, Trim(S), acc).Bad?
  {
  }

  /** A block starts with the mark `e` and the type `t`. */
  predicate BlockHead(S: seq<bool>, e: nat, t: nat, B: seq<bool>) {
    Number(1, S).Got? && Number(1, S).val == e && Number(2, Number(1, S).rest) == Got(t, B)
  }

  lemma BlockParts(S: seq<bool>, acc: seq<Token>, e: nat, t: nat, B: seq<bool>, acc': seq<Token>, S': seq<bool>)
    requires BlockHead(S, e, t, B) && Block(InflateC, t, B, acc) == Got(acc', S')
    ensures OneBlock(InflateC, S, acc) == Got((e, acc'), S')
  {
  }

  lemma BlockCut(S: seq<bool>, acc: seq<Token>, e: nat, t: nat, B: seq<bool>)
    requires BlockHead(S, e, t, B) && Block(InflateC, t, Trim(B), acc).Bad?
    ensures OneBlock(InflateC, Trim(S), acc).Bad?
  {
    if |S| >= 8 && Number(1, Trim(S)).Got? {
      NumberTrim(1, S);
      if Number(2, Number(1, Trim(S)).rest).Got? { NumberTrim(2, Number(1, S).rest); }
    }
  }

  lemma BlocksStep(s: seq<bool>, acc: seq<Token>, s': seq<bool>, acc': seq<Token>, e: nat)
    requires OneBlock(InflateC, s, acc) == Got((e, acc'), s')
    ensures Blocks(InflateC, s, acc) == if e != 0 then Got(acc', s') else Blocks(InflateC, s', acc')
  {
  }

  lemma BlocksTrim(s: seq<bool>, acc: seq<Token>, s': seq<bool>, acc': seq<Token>, e: nat)
    requires Decodable(FixedLiterals()) && Decodable(FixedDistances())
    requires OneBlock(InflateC, s, acc) == Got((e, acc'), s') && Blocks(InflateC, Trim(s), acc).Got?
    ensures Blocks(InflateC, Trim(s), acc) == if e != 0 then Got(acc', Trim(s')) else Blocks(InflateC, Trim(s'), acc')
  {
    FirstBlock(Trim(s), acc);
    OneBlockTrim(s, acc, s', acc', e);
    BlocksStep(Trim(s), acc, Trim(s'), acc', e);
  }

  lemma FirstBlock(s: seq<bool>, acc: seq<Token>)
    requires Blocks(InflateC, s, acc).Got?
    ensures OneBlock(InflateC, s, acc).Got?
  {
  }

  lemma OneBlockTrim(s: seq<bool>, acc: seq<Token>, s': seq<bool>, acc': seq<Token>, e: nat)
    requires Decodable(FixedLiterals()) && Decodable(FixedDistances())
    requires OneBlock(InflateC, s, acc) == Got((e, acc'), s') && OneBlock(InflateC, Trim(s), acc).Got?
    ensures OneBlock(InflateC, Trim(s), acc) == Got((e, acc'), Trim(s'))
  {
    Trimmed(s);
    OneBlockMore(InflateC, Trim(s), acc, s[|s| - 8..]);
    assert Trim(s') == OneBlock(InflateC, Trim(s), acc).rest;
  }

  /** A header that cannot be read, or not without the last eight bits. */
  lemma HeaderTrim(S: seq<bool>)
    requires Header(InflateC, S).Bad? || |Header(InflateC, S).rest| < 8
    ensures Header(InflateC, Trim(S)).Bad?
  {
    Trimmed(S);
    if |S| >= 8 && Header(InflateC, Trim(S)).Got? { HeaderMore(InflateC, Trim(S), S[|S| - 8..]); }
  }

  /** What is left of a stream after `n` bits. */
  function From(s: seq<bool>, n: nat): (r: seq<bool>)
    requires n <= |s|
    ensures |r| == |s| - n
  {
    s[n..]
  }

  lemma StoredParts(s: seq<bool>, r: nat)
    requires r == |s| % 8
    ensures var a := Number(16, s[r..]);
            StoredLength(s) == if a.Bad? then Bad else
              var c := Number(16, a.rest);
              if c.Bad? || a.val + c.val != 0xffff then Bad else Got(a.val, c.rest)
  {
  }

  lemma FromStart(s: seq<bool>)
    ensures From(s, 0) == s
  {
  }

  /** A byte goes from the input to the buffer. */
  lemma ByteRead(buf: seq<bool>, mem: seq<byte>, i: nat)
    requires i < |mem|
    ensures (buf + ByteBits(mem[i])) + BitsOf(mem[i + 1..]) == buf + BitsOf(mem[i..])
    ensures Val(buf + ByteBits(mem[i])) == Val(buf) + Pow2(|buf|) * mem[i] as nat
  {
    hide Val, Pow2, ByteBits;
    BitsOfMore(mem, i);
    assert (buf + ByteBits(mem[i])) + BitsOf(mem[i + 1..]) == buf + (ByteBits(mem[i]) + BitsOf(mem[i + 1..]));
    ValConcat(buf, ByteBits(mem[i]));
    ValByte(mem[i]);
  }

  lemma BitsOfMore(mem: seq<byte>, i: nat)
    requires i < |mem|
    ensures BitsOf(mem[i..]) == ByteBits(mem[i]) + BitsOf(mem[i + 1..])
  {
    hide ByteBits;
    assert mem[i..][1..] == mem[i + 1..];
  }

  lemma DropTwice(s: seq<bool>, m: nat, n: nat)
    requires m + n <= |s|
    ensures From(s, m)[n..] == From(s, m + n)
  {
    assert s[m..][n..] == s[m + n..];
  }

  lemma TakeFrom(s: seq<bool>, m: nat, n: nat)
    requires m + n <= |s|
    ensures From(s, m)[..n] == s[m..m + n]
  {
  }

  lemma BytesNext(n: nat, s: seq<bool>, acc: seq<Token>, v: nat, rest: seq<bool>)
    requires n > 0 && Number(8, s) == Got(v, rest)
    ensures v < 256 && Bytes(n, s, acc) == Bytes(n - 1, rest, acc + [Literal(v as byte)])
  {
    ValBelow(s[..8]);
  }

  lemma BytesCut(n: nat, s: seq<bool>, acc: seq<Token>)
    requires n > 0 && Number(8, s).Bad?
    ensures Bytes(n, s, acc).Bad?
  {
  }

  lemma BytesEnd(s: seq<bool>, acc: seq<Token>)
    ensures Bytes(0, s, acc) == Got(acc, s)
  {
  }

  lemma CodeLengthStep(nb: nat, j: nat, s: seq<bool>, acc: seq<nat>, v: nat, rest: seq<bool>)
    requires j < nb <= 19 && |acc| == 19 && Number(3, s) == Got(v, rest)
    ensures BORDER[j] < 19 && CodeLengthLengths(nb, j, s, acc) == CodeLengthLengths(nb, j + 1, rest, acc[BORDER[j] := v])
  {
    BorderOrder();
  }

  lemma CodeLengthCut(nb: nat, j: nat, s: seq<bool>, acc: seq<nat>)
    requires j < nb <= 19 && |acc| == 19 && Number(3, s).Bad?
    ensures CodeLengthLengths(nb, j, s, acc).Bad?
  {
  }

  lemma CodeLengthEnd(nb: nat, s: seq<bool>, acc: seq<nat>)
    requires nb <= 19 && |acc| == 19
    ensures CodeLengthLengths(nb, nb, s, acc) == Got(acc, s)
  {
  }

  lemma LengthsLiteral(b: seq<nat>, n: nat, last: nat, s: seq<bool>, acc: seq<nat>, j: nat, rest: seq<bool>)
    requires |b| == 19 && |acc| < n && LengthSymbol(b, s) == Got(j, rest) && j < 16
    ensures Lengths(b, n, last, s, acc) == Lengths(b, n, j, rest, acc + [j])
  {
  }

  lemma LengthsRepeat(b: seq<nat>, n: nat, last: nat, s: seq<bool>, acc: seq<nat>, j: nat, rest: seq<bool>)
    requires |b| == 19 && |acc| < n && LengthSymbol(b, s) == Got(j, rest) && j >= 16
    ensures var x, fill := Number(RepeatBits(j), rest), if j == 16 then last else 0;
            Lengths(b, n, last, s, acc) ==
            if x.Bad? || |acc| + RepeatBase(j) + x.val > n then Bad
            else Lengths(b, n, fill, x.rest, acc + Repeat(fill, RepeatBase(j) + x.val))
  {
  }

  lemma LengthsShort(b: seq<nat>, n: nat, last: nat, s: seq<bool>, acc: seq<nat>)
    requires |b| == 19 && |acc| < n && |s| < 8
    ensures Lengths(b, n, last, s, acc).Bad? || |Lengths(b, n, last, s, acc).rest| < 8
  {
  }

  /** huft_build's verdict on the code for code lengths. */
  lemma CodeLengthUsable(S: seq<bool>, b: seq<nat>, empty: bool, i: nat)
    requires CodeLengthCode(InflateC, S).Got? && CodeLengthCode(InflateC, S).val.2 == b
    requires !empty ==> (i == 2 <==> Oversubscribed(b))
    requires !empty ==> (i == 1 <==> !Oversubscribed(b) && !AllZero(b) && !Complete(b) && !IsMaxLen(b, 1)) && i <= 2
    requires (empty <==> AllZero(b)) && (empty ==> i == 1)
    ensures i == 0 ==> Usable(b)
    ensures i != 0 ==> Header(InflateC, Trim(S)).Bad?
    ensures forall j :: 0 <= j < |b| ==> b[j] <= 7
  {
    var h := Sizes(S);
    assert CodeLengthLengths(h.val.2, 0, h.rest, Repeat(0, 19)).val == b;
    if i != 0 { HeaderTrim(S); }
  }

  lemma HeaderParts(S: seq<bool>, nl: nat, nd: nat, b: seq<nat>, L: seq<bool>, ok: bool, ll: seq<nat>, H: seq<bool>)
    requires CodeLengthCode(InflateC, S) == Got((nl, nd, b), L) && Usable(b) && |ll| == 316 && nl + nd <= 316 && |b| == 19
    requires ok ==> Lengths(b, nl + nd, 0, L, []) == Got(ll[..nl + nd], H)
    requires !ok ==> Lengths(b, nl + nd, 0, L, []).Bad? || |Lengths(b, nl + nd, 0, L, []).rest| < 8
    ensures ok ==> Header(InflateC, S) == Got((ll[..nl], ll[nl..nl + nd]), H)
    ensures !ok ==> Header(InflateC, Trim(S)).Bad?
  {
    if ok {
      HeaderGot(InflateC, S, nl, nd, b, L, ll[..nl + nd], H);
      assert ll[..nl + nd][..nl] == ll[..nl] && ll[..nl + nd][nl..] == ll[nl..nl + nd];
    } else {
      HeaderEnd(InflateC, S, nl, nd, b, L);
      HeaderTrim(S);
    }
  }

  /** A usable code without a single symbol is complete. */
  lemma CompleteUnlessSole(b: seq<nat>)
    requires Usable(b) && Bounded(b)
    ensures Complete(b) || exists sym: nat :: Sole(b, sym)
  {
    if !Complete(b) {
      var s :| 0 <= s < |b| && b[s] == 1;
      if t :| 0 <= t < |b| && b[t] > 0 && t != s {
        TwoComplete(b, s, t);
      } else {
        assert Sole(b, s);
      }
    }
  }

  /** Two codes of one bit are complete. */
  lemma TwoComplete(b: seq<nat>, s: nat, t: nat)
    requires Usable(b) && Bounded(b) && IsMaxLen(b, 1) && s < |b| && t < |b| && s != t && b[s] > 0 && b[t] > 0
    ensures Complete(b)
  {
    if s < t { RankInjective(b, s, t); RankBound(b, t); } else { RankInjective(b, t, s); RankBound(b, s); }
    assert Fits(b, 1);
    assert Pow2(1) == 2 * Pow2(0) == 2;
  }

  lemma OneLevelSymbol(b: seq<nat>, tl: seq<seq<Huft>>, bl: nat, S: seq<bool>)
    requires 1 <= bl <= |S| && |b| == 19 && Bounded(b) && Usable(b) && OneLevel(CodeLengths(b), tl, bl)
    ensures Val(S[..bl]) < |tl[0]|
    ensures var ent := tl[0][Val(S[..bl])];
            ent.b <= bl && ent.v.N? && ent.v.n < 19 && LengthSymbol(b, S) == Got(ent.v.n, S[ent.b..])
  {
    var A, p := CodeLengths(b), S[..bl];
    var ent := tl[0][Val(p)];
    assert Flat(A, ent, p);
    if exists sym: nat :: Sole(b, sym) {
      assert LengthSymbol(b, S).val < 19;
    } else {
      CompleteUnlessSole(b);
      var sym: nat :| Decodes(b, p, sym) && IsLeaf(A, ent, sym, 0);
      assert Codeword(b, sym) <= S;
      assert Decodes(b, S, sym);
      SymbolIs(b, S, sym);
    }
  }

  lemma ByteAligned(s: seq<bool>, bytes: seq<byte>)
    ensures |s + BitsOf(bytes)| % 8 == |s| % 8
  {
  }

  lemma StoredTrim(s: seq<bool>, acc: seq<Token>)
    requires Stored(s, acc).Bad?
    ensures Stored(Trim(s), acc).Bad?
  {
    Trimmed(s);
    if |s| >= 8 && Stored(Trim(s), acc).Got? { StoredMore(Trim(s), acc, s[|s| - 8..]); }
  }

  /** The first `n` lengths, in their order, have been entered in both. */
  ghost predicate EnteredTo(ll: seq<nat>, acc: seq<nat>, n: nat)
    requires |ll| == 316 && |acc| == 19 && n <= 19
  {
    && (forall i :: 0 <= i < n ==> ll[BORDER[i]] == acc[BORDER[i]])
    && (forall i :: n <= i < 19 ==> acc[BORDER[i]] == 0)
  }

  lemma NoneEntered(ll: seq<nat>, acc: seq<nat>)
    requires |ll| == 316 && acc == Repeat(0, 19)
    ensures EnteredTo(ll, acc, 0)
  {
    BorderOrder();
  }

  lemma OneEntered(ll: seq<nat>, acc: seq<nat>, j: nat, v: nat)
    requires |ll| == 316 && |acc| == 19 && j < 19 && BORDER[j] < 19 && EnteredTo(ll, acc, j)
    ensures EnteredTo(ll[BORDER[j] := v], acc[BORDER[j] := v], j + 1)
  {
    BorderOrder();
  }

  lemma BorderOrder()
    ensures |BORDER| == 19
    ensures forall i :: 0 <= i < 19 ==> BORDER[i] < 19
    ensures forall i, j :: 0 <= i < j < 19 ==> BORDER[i] != BORDER[j]
  {
  }

  lemma BorderComplete(ll: seq<nat>, acc: seq<nat>)
    requires |ll| == 316 && |acc| == 19
    requires forall i :: 0 <= i < 19 ==> ll[BORDER[i]] == acc[BORDER[i]]
    ensures ll[..19] == acc
  {
    assert ll[0] == acc[0] by { assert BORDER[3] == 0; }
    assert ll[1] == acc[1] by { assert BORDER[17] == 1; }
    assert ll[2] == acc[2] by { assert BORDER[15] == 2; }
    assert ll[3] == acc[3] by { assert BORDER[13] == 3; }
    assert ll[4] == acc[4] by { assert BORDER[11] == 4; }
    assert ll[5] == acc[5] by { assert BORDER[9] == 5; }
    assert ll[6] == acc[6] by { assert BORDER[7] == 6; }
    assert ll[7] == acc[7] by { assert BORDER[5] == 7; }
    assert ll[8] == acc[8] by { assert BORDER[4] == 8; }
    assert ll[9] == acc[9] by { assert BORDER[6] == 9; }
    assert ll[10] == acc[10] by { assert BORDER[8] == 10; }
    assert ll[11] == acc[11] by { assert BORDER[10] == 11; }
    assert ll[12] == acc[12] by { assert BORDER[12] == 12; }
    assert ll[13] == acc[13] by { assert BORDER[14] == 13; }
    assert ll[14] == acc[14] by { assert BORDER[16] == 14; }
    assert ll[15] == acc[15] by { assert BORDER[18] == 15; }
    assert ll[16] == acc[16] by { assert BORDER[0] == 16; }
    assert ll[17] == acc[17] by { assert BORDER[1] == 17; }
    assert ll[18] == acc[18] by { assert BORDER[2] == 18; }
  }

  /** What the entries of literal/length symbols look like. */
  lemma LiteralEntry(ll: seq<nat>, sym: nat)
    requires sym < |ll| <= 288 && Literals(ll).Valid() && Literals(ll).Kind(sym) != 99
    ensures Literals(ll).Kind(sym) == 16 <==> sym < 256
    ensures Literals(ll).Kind(sym) == 15 <==> sym == 256
    ensures sym < 256 ==> Literals(ll).Base(sym) == sym
    ensures sym > 256 ==> sym < 286 && Literals(ll).Kind(sym) == CPLEXT[sym - 257] && Literals(ll).Base(sym) == CPLENS[sym - 257]
  {
    if sym > 256 { LengthKinds(sym); }
  }

  lemma LengthKinds(sym: nat)
    requires 257 <= sym < 288
    ensures CPLEXT[sym - 257] <= 5 || (CPLEXT[sym - 257] == 99 && sym >= 286)
  {
  }

  lemma UnusedSymbol(ll: seq<nat>, sym: nat)
    requires sym < |ll| <= 288 && Literals(ll).Valid() && Literals(ll).Kind(sym) == 99
    ensures sym >= 286
  {
    if sym > 256 { LengthKinds(sym); }
  }

  lemma ItemStarved(ll: seq<nat>, dl: seq<nat>, S: seq<bool>)
    requires Decodable(ll) && |ll| <= 288 && Literals(ll).Valid() && MayFail(Literals(ll), 8, S)
    ensures NextItem(ll, dl, Trim(S)).Bad?
  {
    if Symbol(ll, Trim(S)).Got? {
      SymbolTrim(ll, S);
      UnusedSymbol(ll, Symbol(ll, S).val);
    }
  }

  lemma ItemCut(ll: seq<nat>, dl: seq<nat>, S: seq<bool>, sym: nat, S1: seq<bool>)
    requires Decodable(ll) && sym > 256 && Symbol(ll, S) == Got(sym, S1)
    requires MatchAfter(dl, sym, Trim(S1)).Bad?
    ensures NextItem(ll, dl, Trim(S)).Bad?
  {
    if Symbol(ll, Trim(S)).Got? { SymbolTrim(ll, S); }
  }

  lemma MatchReach(dl: seq<nat>, sym: nat, bits: seq<bool>)
    requires sym >= 257 && MatchAfter(dl, sym, bits).Got?
    ensures 1 <= MatchAfter(dl, sym, bits).val.dist <= WSIZE
  {
  }

  lemma LengthExtra(sym: nat)
    requires 257 <= sym < 286
    ensures CPLEXT[sym - 257] <= 5
  {
  }

  lemma DistanceEntry(dl: seq<nat>, d: nat)
    requires d < |dl| <= 30 && Distances(dl).Valid()
    ensures Distances(dl).Kind(d) == CPDEXT[d] && Distances(dl).Base(d) == CPDIST[d]
    ensures CPDEXT[d] <= 13
  {
    DistanceExtra(d);
  }

  lemma DistanceExtra(d: nat)
    requires d < 30
    ensures CPDEXT[d] <= 13
  {
  }

  /** A match, put together from its parts. */
  lemma MatchParts(dl: seq<nat>, sym: nat, S: seq<bool>, t: Huft, x: nat, S1: seq<bool>, d: nat, S2: seq<bool>, y: nat, S3: seq<bool>,
                   n: nat, dist: nat)
    requires 257 <= sym < 286 && d < 30 && Number(CPLEXT[sym - 257], S) == Got(x, S1)
    requires Symbol(dl, S1) == Got(d, S2) && Number(CPDEXT[d], S2) == Got(y, S3)
    requires t.v == N(CPLENS[sym - 257]) && n == t.v.n + x && dist == CPDIST[d] + y
    ensures MatchAfter(dl, sym, S) == Got(Match(n, dist), S3)
  {
  }

  lemma MatchNoLength(dl: seq<nat>, sym: nat, S: seq<bool>)
    requires 257 <= sym < 286 && Number(CPLEXT[sym - 257], S).Bad?
    ensures MatchAfter(dl, sym, Trim(S)).Bad?
  {
  }

  lemma MatchCut(dl: seq<nat>, sym: nat, S: seq<bool>, x: nat, S1: seq<bool>, d: nat, S2: seq<bool>)
    requires Decodable(dl) && 257 <= sym < 286 && d < 30 && Number(CPLEXT[sym - 257], S) == Got(x, S1)
    requires Symbol(dl, S1) == Got(d, S2) && Number(CPDEXT[d], S2).Bad?
    ensures MatchAfter(dl, sym, Trim(S)).Bad?
  {
    assert MatchAfter(dl, sym, S).Bad?;
    MatchShort(dl, sym, S);
  }

  lemma MatchStarved(dl: seq<nat>, sym: nat, S: seq<bool>, S1: seq<bool>)
    requires Decodable(dl) && |dl| <= 30 && Distances(dl).Valid() && 257 <= sym < 286
    requires Number(CPLEXT[sym - 257], S).Got? && S1 == Number(CPLEXT[sym - 257], S).rest
    requires MayFail(Distances(dl), 8, S1)
    ensures MatchAfter(dl, sym, Trim(S)).Bad?
  {
    if MatchAfter(dl, sym, Trim(S)).Got? && |S| >= 8 {
      MatchStart(dl, sym, Trim(S));
      NumberTrim(CPLEXT[sym - 257], S);
      SymbolTrim(dl, S1);
      NoStarving(dl, S1);
    }
  }

  lemma MatchStart(dl: seq<nat>, sym: nat, s: seq<bool>)
    requires 257 <= sym < 286 && MatchAfter(dl, sym, s).Got?
    ensures Number(CPLEXT[sym - 257], s).Got? && Symbol(dl, Number(CPLEXT[sym - 257], s).rest).Got?
  {
  }

  lemma NoStarving(dl: seq<nat>, S: seq<bool>)
    requires Decodable(dl) && |dl| <= 30 && Distances(dl).Valid() && Symbol(dl, S).Got?
    requires |S| >= dl[Symbol(dl, S).val] + 8
    ensures !MayFail(Distances(dl), 8, S)
  {
    DistanceEntry(dl, Symbol(dl, S).val);
  }

  lemma MatchShort(dl: seq<nat>, sym: nat, S: seq<bool>)
    requires Decodable(dl) && sym >= 257 && MatchAfter(dl, sym, S).Bad?
    ensures MatchAfter(dl, sym, Trim(S)).Bad?
  {
    if MatchAfter(dl, sym, Trim(S)).Got? {
      Trimmed(S);
      if |S| >= 8 { MatchMore(dl, sym, Trim(S), S[|S| - 8..]); }
    }
  }
}
