/** The DEFLATE format of RFC 1951: from a bit stream to literals and matches, and
    from those to bytes. Where the RFC leaves a stream undefined, the choice of
    Inflate.c is noted. */
module Deflate {
  import opened Bits
  import opened Huffman

  newtype byte = x: int | 0 <= x < 256

  /** A byte as a bit string, least significant bit first (section 3.1.1). */
  function ByteBits(b: byte): (s: seq<bool>)
    ensures |s| == 8
  {
    BitsLow(b as nat, 8)
  }

  function BitsLow(v: nat, n: nat): (s: seq<bool>)
    ensures |s| == n
  {
    if n == 0 then [] else [v % 2 == 1] + BitsLow(v / 2, n - 1)
  }

  lemma {:induction false} ValBitsLow(v: nat, n: nat)
    requires v < Pow2(n)
    ensures Val(BitsLow(v, n)) == v
  {
    if n > 0 {
      ValBitsLow(v / 2, n - 1);
      assert BitsLow(v, n)[1..] == BitsLow(v / 2, n - 1);
    }
  }

  lemma ValByte(b: byte)
    ensures Val(ByteBits(b)) == b as nat
  {
    assert Pow2(8) == 256 by {
      assert Pow2(4) == 16;
      Pow2Add(4, 4);
    }
    ValBitsLow(b as nat, 8);
  }

  function BitsOf(bytes: seq<byte>): (s: seq<bool>)
    ensures |s| == 8 * |bytes|
  {
    if bytes == [] then [] else ByteBits(bytes[0]) + BitsOf(bytes[1..])
  }

  lemma {:induction false} BitsOfConcat(a: seq<byte>, b: seq<byte>)
    ensures BitsOf(a + b) == BitsOf(a) + BitsOf(b)
  {
    if a == [] {
      assert a + b == b;
    } else {
      assert (a + b)[1..] == a[1..] + b;
      BitsOfConcat(a[1..], b);
    }
  }

  // ----- LZ77 -----

  datatype Token = Literal(b: byte) | Match(len: nat, dist: nat)

  /** Append `n` bytes, each the one `dist` back (section 3.2.3). */
  function Copy(h: seq<byte>, dist: nat, n: nat): (r: seq<byte>)
    requires 1 <= dist <= |h|
    ensures |r| == |h| + n && h <= r
    decreases n
  {
    if n == 0 then h else Copy(h + [h[|h| - dist]], dist, n - 1)
  }

  /** Whether all distances stay within the bytes so far, of which there are `n`. */
  predicate InReach(n: nat, ts: seq<Token>) {
    if ts == [] then true
    else
      InReach(n, ts[..|ts| - 1]) &&
      var t := ts[|ts| - 1];
      t.Match? ==> 1 <= t.dist <= n + Size(ts[..|ts| - 1])
  }

  /** How many bytes tokens stand for. */
  function Size(ts: seq<Token>): nat {
    if ts == [] then 0
    else Size(ts[..|ts| - 1]) + Length(ts[|ts| - 1])
  }

  /** The bytes that tokens add to `h`. */
  function Expand(h: seq<byte>, ts: seq<Token>): (r: seq<byte>)
    requires InReach(|h|, ts)
    ensures |r| == |h| + Size(ts) && h <= r
  {
    if ts == [] then h
    else Apply(Expand(h, ts[..|ts| - 1]), ts[|ts| - 1])
  }

  /** One literal or match. */
  function Apply(h: seq<byte>, t: Token): (r: seq<byte>)
    requires t.Match? ==> 1 <= t.dist <= |h|
    ensures |r| == |h| + Length(t) && h <= r
  {
    if t.Literal? then h + [t.b] else Copy(h, t.dist, t.len)
  }

  function Length(t: Token): nat { if t.Literal? then 1 else t.len }

  lemma ExpandAppend(h: seq<byte>, ts: seq<Token>, t: Token)
    requires InReach(|h|, ts) && (t.Match? ==> 1 <= t.dist <= |h|)
    ensures InReach(|h|, ts + [t])
    ensures Expand(h, ts + [t]) == Apply(Expand(h, ts), t)
  {
    assert (ts + [t])[..|ts|] == ts;
  }

  /** What lies before the first byte in reach does not matter. */
  lemma {:induction false} ExpandAfter(w: seq<byte>, h: seq<byte>, ts: seq<Token>)
    requires InReach(|h|, ts)
    ensures InReach(|w + h|, ts) && Expand(w + h, ts) == w + Expand(h, ts)
  {
    if ts != [] {
      var init, t := ts[..|ts| - 1], ts[|ts| - 1];
      ExpandAfter(w, h, init);
      var r := Expand(h, init);
      if t.Literal? {
        assert (w + r) + [t.b] == w + (r + [t.b]);
      } else {
        CopyAfter(w, r, t.dist, t.len);
      }
    }
  }

  lemma {:induction false} CopyAfter(w: seq<byte>, h: seq<byte>, dist: nat, n: nat)
    requires 1 <= dist <= |h|
    ensures Copy(w + h, dist, n) == w + Copy(h, dist, n)
    decreases n
  {
    if n > 0 {
      var b := h[|h| - dist];
      assert (w + h)[|w + h| - dist] == b;
      assert (w + h) + [b] == w + (h + [b]);
      CopyAfter(w, h + [b], dist, n - 1);
    }
  }

  // ----- the constants of sections 3.2.5 and 3.2.7 -----

  const BORDER: seq<nat> := [16, 17, 18, 0, 8, 7, 9, 6, 10, 5, 11, 4, 12, 3, 13, 2, 14, 1, 15]
  const CPLENS: seq<nat> :=
    [3, 4, 5, 6, 7, 8, 9, 10, 11, 13, 15, 17, 19, 23, 27, 31,
     35, 43, 51, 59, 67, 83, 99, 115, 131, 163, 195, 227, 258, 0, 0]
  const CPLEXT: seq<nat> :=
    [0, 0, 0, 0, 0, 0, 0, 0, 1, 1, 1, 1, 2, 2, 2, 2, 3, 3, 3, 3, 4, 4, 4, 4, 5, 5, 5, 5, 0, 99, 99]
  const CPDIST: seq<nat> :=
    [1, 2, 3, 4, 5, 7, 9, 13, 17, 25, 33, 49, 65, 97, 129, 193, 257, 385, 513, 769, 1025, 1537,
     2049, 3073, 4097, 6145, 8193, 12289, 16385, 24577]
  const CPDEXT: seq<nat> :=
    [0, 0, 0, 0, 1, 1, 2, 2, 3, 3, 4, 4, 5, 5, 6, 6, 7, 7, 8, 8, 9, 9, 10, 10, 11, 11, 12, 12, 13, 13]

  function Repeat(v: nat, n: nat): seq<nat> { seq(n, _ => v) }

  // ----- parsing; every function returns what it read and the bits after it -----

  datatype Parse<+T> = Bad | Got(val: T, rest: seq<bool>)

  /** An integer of `n` bits. */
  function Number(n: nat, bits: seq<bool>): Parse<nat> {
    if |bits| < n then Bad else Got(Val(bits[..n]), bits[n..])
  }

  /** The next symbol of a prefix code. */
  ghost function Symbol(b: seq<nat>, bits: seq<bool>): (r: Parse<nat>)
    ensures r.Got? ==> Decodes(b, bits, r.val) && r.rest == bits[b[r.val]..]
    ensures r.Bad? ==> forall sym: nat :: !Decodes(b, bits, sym)
  {
    if exists sym: nat :: Decodes(b, bits, sym) then
      var sym: nat :| Decodes(b, bits, sym);
      Got(sym, bits[b[sym]..])
    else Bad
  }

  /** The rest of a match whose length code has been read (section 3.2.5). */
  ghost function MatchAfter(dl: seq<nat>, sym: nat, bits: seq<bool>): (r: Parse<Token>)
    requires sym >= 257
    ensures r.Got? ==> |r.rest| <= |bits| && r.val.Match? && 1 <= r.val.dist <= 32768 && r.val.len >= 1
  {
    if sym - 257 >= 29 then Bad
    else
      var n := Number(CPLEXT[sym - 257], bits);
      if n.Bad? then Bad
      else
        var d := Symbol(dl, n.rest);
        if d.Bad? || d.val >= 30 then Bad
        else
          var x := Number(CPDEXT[d.val], d.rest);
          if x.Bad? then Bad
          else
            DistanceBound(d.val, d.rest);
            Got(Match(CPLENS[sym - 257] + n.val, CPDIST[d.val] + x.val), x.rest)
  }

  lemma DistanceBound(sym: nat, bits: seq<bool>)
    requires sym < 30 && |bits| >= CPDEXT[sym]
    ensures 1 <= CPDIST[sym] + Val(bits[..CPDEXT[sym]]) <= 32768
  {
    Powers();
    assert Val(bits[..CPDEXT[sym]]) < Pow2(CPDEXT[sym]);
  }

  lemma Powers()
    ensures Pow2(0) == 1 && Pow2(1) == 2 && Pow2(2) == 4 && Pow2(3) == 8 && Pow2(4) == 16 && Pow2(5) == 32
    ensures Pow2(6) == 64 && Pow2(7) == 128 && Pow2(8) == 256 && Pow2(9) == 512 && Pow2(10) == 1024
    ensures Pow2(11) == 2048 && Pow2(12) == 4096 && Pow2(13) == 8192 && Pow2(16) == 65536
  {
    assert Pow2(4) == 16;
    assert Pow2(8) == 256;
    assert Pow2(12) == 4096;
    assert Pow2(16) == 65536;
  }

  datatype Item = End | Tok(t: Token)

  /** A literal, a match, or the end of the block. */
  ghost function NextItem(ll: seq<nat>, dl: seq<nat>, bits: seq<bool>): (r: Parse<Item>)
    ensures r.Got? ==> |r.rest| < |bits|
    ensures r.Got? && r.val.Tok? && r.val.t.Match? ==> 1 <= r.val.t.dist <= 32768 && r.val.t.len >= 1
  {
    var s := Symbol(ll, bits);
    if s.Bad? then Bad
    else if s.val < 256 then Got(Tok(Literal(s.val as byte)), s.rest)
    else if s.val == 256 then Got(End, s.rest)
    else
      var m := MatchAfter(dl, s.val, s.rest);
      if m.Bad? then Bad else Got(Tok(m.val), m.rest)
  }

  /** Literals and matches up to the end of the block. */
  ghost function Codes(ll: seq<nat>, dl: seq<nat>, bits: seq<bool>, acc: seq<Token>): (r: Parse<seq<Token>>)
    ensures r.Got? ==> |r.rest| < |bits|
    decreases |bits|
  {
    var i := NextItem(ll, dl, bits);
    if i.Bad? then Bad
    else if i.val.End? then Got(acc, i.rest)
    else Codes(ll, dl, i.rest, acc + [i.val.t])
  }

  /** `n` bytes as they are. */
  function Bytes(n: nat, bits: seq<bool>, acc: seq<Token>): (r: Parse<seq<Token>>)
    ensures r.Got? ==> |r.rest| <= |bits|
  {
    if n == 0 then Got(acc, bits)
    else if |bits| < 8 then Bad
    else ValBelow(bits[..8]); Bytes(n - 1, bits[8..], acc + [Literal(Val(bits[..8]) as byte)])
  }

  lemma ValBelow(s: seq<bool>)
    requires |s| == 8
    ensures Val(s) < 256
  {
    Powers();
  }

  /** The length of a stored block, which follows on a byte boundary together with its
      complement (section 3.2.4). */
  function StoredLength(bits: seq<bool>): (r: Parse<nat>)
    ensures r.Got? ==> |r.rest| <= |bits|
  {
    var n := Number(16, bits[|bits| % 8..]);
    if n.Bad? then Bad
    else
      var c := Number(16, n.rest);
      if c.Bad? || n.val + c.val != 0xffff then Bad else Got(n.val, c.rest)
  }

  function Stored(bits: seq<bool>, acc: seq<Token>): (r: Parse<seq<Token>>)
    ensures r.Got? ==> |r.rest| <= |bits|
  {
    var n := StoredLength(bits);
    if n.Bad? then Bad else Bytes(n.val, n.rest, acc)
  }

  /** The lengths that describe the code for code lengths, in their peculiar order. */
  function CodeLengthLengths(nb: nat, j: nat, bits: seq<bool>, acc: seq<nat>): (r: Parse<seq<nat>>)
    requires j <= nb <= 19 && |acc| == 19
    ensures r.Got? ==> |r.rest| <= |bits| && |r.val| == 19
    ensures r.Got? && (forall i :: 0 <= i < 19 ==> acc[i] <= 7) ==> forall i :: 0 <= i < 19 ==> r.val[i] <= 7
    decreases nb - j
  {
    if j == nb then Got(acc, bits)
    else
      var n := Number(3, bits);
      Powers();
      if n.Bad? then Bad else CodeLengthLengths(nb, j + 1, n.rest, acc[BORDER[j] := n.val])
  }

  /** A symbol of the code for code lengths. That code must use up all patterns, except
      that Inflate.c accepts a single code of one bit, and then takes either bit for
      the only symbol. */
  ghost function LengthSymbol(bl: seq<nat>, bits: seq<bool>): (r: Parse<nat>)
    ensures r.Got? ==> |r.rest| < |bits| && r.val < |bl|
  {
    if exists sym: nat :: Sole(bl, sym) then
      var sym: nat :| Sole(bl, sym);
      if bits == [] then Bad else Got(sym, bits[1..])
    else Symbol(bl, bits)
  }

  /** The symbols 16 to 18 repeat a length. */
  function RepeatBits(sym: nat): nat { if sym == 16 then 2 else if sym == 17 then 3 else 7 }
  function RepeatBase(sym: nat): nat { if sym == 18 then 11 else 3 }

  /** The code lengths of a dynamic block (section 3.2.7). Copying the previous length
      when there is none gives zeros, as in Inflate.c. */
  ghost function Lengths(bl: seq<nat>, n: nat, last: nat, bits: seq<bool>, acc: seq<nat>): (r: Parse<seq<nat>>)
    requires |bl| == 19
    ensures r.Got? ==> |r.rest| <= |bits|
    ensures r.Got? && |acc| <= n ==> |r.val| == n
    decreases |bits|
  {
    if |acc| >= n then Got(acc, bits)
    else
      var s := LengthSymbol(bl, bits);
      if s.Bad? then Bad
      else if s.val < 16 then Lengths(bl, n, s.val, s.rest, acc + [s.val])
      else
        var x := Number(RepeatBits(s.val), s.rest);
        if x.Bad? then Bad
        else
          var count := RepeatBase(s.val) + x.val;
          var fill := if s.val == 16 then last else 0;
          if |acc| + count > n then Bad
          else Lengths(bl, n, fill, x.rest, acc + Repeat(fill, count))
  }

  lemma {:induction false} LengthsBounded(bl: seq<nat>, n: nat, last: nat, bits: seq<bool>, acc: seq<nat>)
    requires |bl| == 19 && last < 16 && Bounded(acc) && Lengths(bl, n, last, bits, acc).Got?
    ensures Bounded(Lengths(bl, n, last, bits, acc).val)
    decreases |bits|
  {
    if |acc| < n {
      var s := LengthSymbol(bl, bits);
      if s.val < 16 {
        LengthsBounded(bl, n, s.val, s.rest, acc + [s.val]);
      } else {
        var x := Number(RepeatBits(s.val), s.rest);
        var fill := if s.val == 16 then last else 0;
        LengthsBounded(bl, n, fill, x.rest, acc + Repeat(fill, RepeatBase(s.val) + x.val));
      }
    }
  }

  /** A usable set of code lengths: not empty, not oversubscribed, and complete or a
      single code of one bit. */
  predicate Usable(b: seq<nat>) {
    !AllZero(b) && !Oversubscribed(b) && (Complete(b) || IsMaxLen(b, 1))
  }

  /** Distance lengths may also be zero, for data without matches (section 3.2.7). */
  predicate UsableDistances(dl: seq<nat>) { Usable(dl) || AllZero(dl) }

  /** Whose rules a stream is read by. Inflate.c turns down two kinds of streams that the
      RFC allows, see `Within`. */
  datatype Rules = Rfc1951 | InflateC

  /** The code lengths that Inflate.c takes: not more than 30 distance codes, although the
      RFC allows 32, and no missing distance code if there is room for length codes,
      although the data may not use any (Inflate.c, lines 805-808 and 915-922). */
  predicate Within(nl: nat, dl: seq<nat>) { |dl| <= 30 && (nl == 257 || !AllZero(dl)) }

  predicate TakenDistances(nl: nat, dl: seq<nat>) { UsableDistances(dl) && Within(nl, dl) }

  /** The numbers of literal/length, distance and code length codes. */
  function Sizes(bits: seq<bool>): (r: Parse<(nat, nat, nat)>)
    ensures r.Got? ==> |r.rest| <= |bits| && r.val.0 >= 257 && 1 <= r.val.1 <= 32 && 4 <= r.val.2 <= 19
  {
    var hl := Number(5, bits);
    if hl.Bad? then Bad else
    var hd := Number(5, hl.rest);
    if hd.Bad? then Bad else
    var hc := Number(4, hd.rest);
    if hc.Bad? then Bad else
    NumberFour(hd.rest);
    NumberFive(hl.rest);
    Got((257 + hl.val, 1 + hd.val, 4 + hc.val), hc.rest)
  }

  /** The sizes and the lengths of the code for code lengths. */
  function CodeLengthCode(k: Rules, bits: seq<bool>): (r: Parse<(nat, nat, seq<nat>)>)
    ensures r.Got? ==> |r.rest| <= |bits| && 257 <= r.val.0 <= 286 && 1 <= r.val.1 <= 32 && (k.InflateC? ==> r.val.1 <= 30)
    ensures r.Got? ==> |r.val.2| == 19 && Bounded(r.val.2)
  {
    var h := Sizes(bits);
    if h.Bad? || h.val.0 > 286 || (k.InflateC? && h.val.1 > 30) then Bad else
    var bl := CodeLengthLengths(h.val.2, 0, h.rest, Repeat(0, 19));
    if bl.Bad? then Bad else Got((h.val.0, h.val.1, bl.val), bl.rest)
  }

  /** The code lengths of a dynamic block, for literals and lengths, then distances. */
  ghost function Header(k: Rules, bits: seq<bool>): (r: Parse<(seq<nat>, seq<nat>)>)
    ensures r.Got? ==> |r.rest| <= |bits| && Bounded(r.val.0) && Bounded(r.val.1)
    ensures r.Got? ==> 257 <= |r.val.0| <= 286 && 1 <= |r.val.1| <= 32 && (k.InflateC? ==> |r.val.1| <= 30)
  {
    var c := CodeLengthCode(k, bits);
    if c.Bad? || !Usable(c.val.2) then Bad else
    var l := Lengths(c.val.2, c.val.0 + c.val.1, 0, c.rest, []);
    if l.Bad? then Bad
    else
      LengthsBounded(c.val.2, c.val.0 + c.val.1, 0, c.rest, []);
      Got((l.val[..c.val.0], l.val[c.val.0..]), l.rest)
  }

  ghost function Dynamic(k: Rules, bits: seq<bool>, acc: seq<Token>): (r: Parse<seq<Token>>)
    ensures r.Got? ==> |r.rest| <= |bits|
  {
    var h := Header(k, bits);
    if h.Bad? || !Usable(h.val.0) || !UsableDistances(h.val.1) || (k.InflateC? && !Within(|h.val.0|, h.val.1)) then Bad
    else Codes(h.val.0, h.val.1, h.rest, acc)
  }

  lemma HeaderGot(k: Rules, S: seq<bool>, nl: nat, nd: nat, b: seq<nat>, L: seq<bool>, l: seq<nat>, H: seq<bool>)
    requires CodeLengthCode(k, S) == Got((nl, nd, b), L) && Usable(b) && |b| == 19 && nl <= |l|
    requires Lengths(b, nl + nd, 0, L, []) == Got(l, H)
    ensures Header(k, S) == Got((l[..nl], l[nl..]), H)
  {
  }

  lemma HeaderEnd(k: Rules, S: seq<bool>, nl: nat, nd: nat, b: seq<nat>, L: seq<bool>)
    requires CodeLengthCode(k, S) == Got((nl, nd, b), L) && Usable(b) && |b| == 19
    ensures Header(k, S).Bad? <==> Lengths(b, nl + nd, 0, L, []).Bad?
    ensures Header(k, S).Got? ==> Header(k, S).rest == Lengths(b, nl + nd, 0, L, []).rest
  {
  }

  lemma NumberFour(bits: seq<bool>)
    ensures Number(4, bits).Got? ==> Number(4, bits).val < 16
  {
    Powers();
  }

  lemma NumberFive(bits: seq<bool>)
    ensures Number(5, bits).Got? ==> Number(5, bits).val < 32
  {
    Powers();
  }

  /** The fixed codes of section 3.2.6; the distance code lacks its two unused symbols. */
  function FixedLiterals(): seq<nat> { Repeat(8, 144) + Repeat(9, 112) + Repeat(7, 24) + Repeat(8, 8) }

  function FixedDistances(): seq<nat> { Repeat(5, 30) }

  /** A block and whether it is marked as the last (section 3.2.3). */
  ghost function OneBlock(k: Rules, bits: seq<bool>, acc: seq<Token>): (r: Parse<(nat, seq<Token>)>)
    ensures r.Got? ==> |r.rest| < |bits|
  {
    var e := Number(1, bits);
    if e.Bad? then Bad else
    var t := Number(2, e.rest);
    if t.Bad? then Bad else
    var b := Block(k, t.val, t.rest, acc);
    if b.Bad? then Bad else Got((e.val, b.val), b.rest)
  }

  /** All blocks. */
  ghost function Blocks(k: Rules, bits: seq<bool>, acc: seq<Token>): (r: Parse<seq<Token>>)
    decreases |bits|
  {
    var b := OneBlock(k, bits, acc);
    if b.Bad? then Bad
    else if b.val.0 != 0 then Got(b.val.1, b.rest)
    else Blocks(k, b.rest, b.val.1)
  }

  ghost function Block(k: Rules, t: nat, bits: seq<bool>, acc: seq<Token>): (r: Parse<seq<Token>>)
    ensures r.Got? ==> |r.rest| <= |bits|
  {
    if t == 2 then Dynamic(k, bits, acc)
    else if t == 0 then Stored(bits, acc)
    else if t == 1 then Codes(FixedLiterals(), FixedDistances(), bits, acc)
    else Bad
  }

  // ----- more input does not change what has been read -----

  lemma NumberMore(n: nat, bits: seq<bool>, more: seq<bool>)
    requires Number(n, bits).Got?
    ensures Number(n, bits + more) == Got(Number(n, bits).val, Number(n, bits).rest + more)
  {
    assert (bits + more)[..n] == bits[..n];
    assert (bits + more)[n..] == bits[n..] + more;
  }

  lemma SymbolIs(b: seq<nat>, bits: seq<bool>, sym: nat)
    requires Bounded(b) && !Oversubscribed(b) && Decodes(b, bits, sym)
    ensures Symbol(b, bits) == Got(sym, bits[b[sym]..])
  {
    DecodesOnce(b, bits, sym, Symbol(b, bits).val);
  }

  lemma SymbolMore(b: seq<nat>, bits: seq<bool>, more: seq<bool>)
    requires Bounded(b) && !Oversubscribed(b) && Symbol(b, bits).Got?
    ensures Symbol(b, bits + more) == Got(Symbol(b, bits).val, Symbol(b, bits).rest + more)
  {
    var s := Symbol(b, bits);
    assert Decodes(b, bits + more, s.val);
    SymbolIs(b, bits + more, s.val);
    assert (bits + more)[b[s.val]..] == bits[b[s.val]..] + more;
  }

  lemma MatchMore(dl: seq<nat>, sym: nat, bits: seq<bool>, more: seq<bool>)
    requires Bounded(dl) && !Oversubscribed(dl) && sym >= 257 && MatchAfter(dl, sym, bits).Got?
    ensures MatchAfter(dl, sym, bits + more) == Got(MatchAfter(dl, sym, bits).val, MatchAfter(dl, sym, bits).rest + more)
  {
    hide Number, Oversubscribed, Bounded;
    var n := Number(CPLEXT[sym - 257], bits);
    NumberMore(CPLEXT[sym - 257], bits, more);
    var d := Symbol(dl, n.rest);
    SymbolMore(dl, n.rest, more);
    NumberMore(CPDEXT[d.val], d.rest, more);
  }

  predicate Decodable(b: seq<nat>) { Bounded(b) && !Oversubscribed(b) }

  lemma ItemMore(ll: seq<nat>, dl: seq<nat>, bits: seq<bool>, more: seq<bool>)
    requires Decodable(ll) && Decodable(dl) && NextItem(ll, dl, bits).Got?
    ensures NextItem(ll, dl, bits + more) == Got(NextItem(ll, dl, bits).val, NextItem(ll, dl, bits).rest + more)
  {
    var s := Symbol(ll, bits);
    SymbolMore(ll, bits, more);
    if s.val > 256 { MatchMore(dl, s.val, s.rest, more); }
  }

  lemma {:induction false} CodesMore(ll: seq<nat>, dl: seq<nat>, bits: seq<bool>, acc: seq<Token>, more: seq<bool>)
    requires Decodable(ll) && Decodable(dl) && Codes(ll, dl, bits, acc).Got?
    ensures Codes(ll, dl, bits + more, acc) == Got(Codes(ll, dl, bits, acc).val, Codes(ll, dl, bits, acc).rest + more)
    decreases |bits|
  {
    var i := NextItem(ll, dl, bits);
    ItemMore(ll, dl, bits, more);
    if i.val.Tok? { CodesMore(ll, dl, i.rest, acc + [i.val.t], more); }
  }

  lemma {:induction false} BytesMore(n: nat, bits: seq<bool>, acc: seq<Token>, more: seq<bool>)
    requires Bytes(n, bits, acc).Got?
    ensures Bytes(n, bits + more, acc) == Got(Bytes(n, bits, acc).val, Bytes(n, bits, acc).rest + more)
    decreases n
  {
    if n > 0 {
      ValBelow(bits[..8]);
      assert (bits + more)[..8] == bits[..8];
      assert (bits + more)[8..] == bits[8..] + more;
      BytesMore(n - 1, bits[8..], acc + [Literal(Val(bits[..8]) as byte)], more);
    }
  }

  lemma StoredMore(bits: seq<bool>, acc: seq<Token>, more: seq<bool>)
    requires Stored(bits, acc).Got? && |more| % 8 == 0
    ensures Stored(bits + more, acc) == Got(Stored(bits, acc).val, Stored(bits, acc).rest + more)
  {
    var b := bits[|bits| % 8..];
    assert |bits + more| % 8 == |bits| % 8;
    assert (bits + more)[|bits| % 8..] == b + more;
    NumberMore(16, b, more);
    NumberMore(16, Number(16, b).rest, more);
    var n := StoredLength(bits);
    assert StoredLength(bits + more) == Got(n.val, n.rest + more);
    BytesMore(n.val, n.rest, acc, more);
  }

  lemma {:induction false} CodeLengthLengthsMore(nb: nat, j: nat, bits: seq<bool>, acc: seq<nat>, more: seq<bool>)
    requires j <= nb <= 19 && |acc| == 19 && CodeLengthLengths(nb, j, bits, acc).Got?
    ensures CodeLengthLengths(nb, j, bits + more, acc)
         == Got(CodeLengthLengths(nb, j, bits, acc).val, CodeLengthLengths(nb, j, bits, acc).rest + more)
    decreases nb - j
  {
    if j < nb {
      NumberMore(3, bits, more);
      CodeLengthLengthsMore(nb, j + 1, Number(3, bits).rest, acc[BORDER[j] := Number(3, bits).val], more);
    }
  }

  lemma LengthSymbolMore(bl: seq<nat>, bits: seq<bool>, more: seq<bool>)
    requires Decodable(bl) && LengthSymbol(bl, bits).Got?
    ensures LengthSymbol(bl, bits + more) == Got(LengthSymbol(bl, bits).val, LengthSymbol(bl, bits).rest + more)
  {
    if exists sym: nat :: Sole(bl, sym) {
      assert (bits + more)[1..] == bits[1..] + more;
    } else {
      SymbolMore(bl, bits, more);
    }
  }

  lemma {:induction false} LengthsMore(bl: seq<nat>, n: nat, last: nat, bits: seq<bool>, acc: seq<nat>, more: seq<bool>)
    requires |bl| == 19 && Decodable(bl) && Lengths(bl, n, last, bits, acc).Got?
    ensures Lengths(bl, n, last, bits + more, acc)
         == Got(Lengths(bl, n, last, bits, acc).val, Lengths(bl, n, last, bits, acc).rest + more)
    decreases |bits|
  {
    if |acc| < n {
      var s := LengthSymbol(bl, bits);
      LengthSymbolMore(bl, bits, more);
      if s.val < 16 {
        LengthsMore(bl, n, s.val, s.rest, acc + [s.val], more);
      } else {
        var w := RepeatBits(s.val);
        NumberMore(w, s.rest, more);
        var x := Number(w, s.rest);
        var fill := if s.val == 16 then last else 0;
        LengthsMore(bl, n, fill, x.rest, acc + Repeat(fill, RepeatBase(s.val) + x.val), more);
      }
    }
  }

  lemma CodeLengthCodeMore(k: Rules, bits: seq<bool>, more: seq<bool>)
    requires CodeLengthCode(k, bits).Got?
    ensures CodeLengthCode(k, bits + more) == Got(CodeLengthCode(k, bits).val, CodeLengthCode(k, bits).rest + more)
  {
    var h := Sizes(bits);
    SizesMore(bits, more);
    CodeLengthLengthsMore(h.val.2, 0, h.rest, Repeat(0, 19), more);
  }

  lemma HeaderMore(k: Rules, bits: seq<bool>, more: seq<bool>)
    requires Header(k, bits).Got?
    ensures Header(k, bits + more) == Got(Header(k, bits).val, Header(k, bits).rest + more)
  {
    var c := CodeLengthCode(k, bits);
    CodeLengthCodeMore(k, bits, more);
    LengthsMore(c.val.2, c.val.0 + c.val.1, 0, c.rest, [], more);
  }

  lemma SizesMore(bits: seq<bool>, more: seq<bool>)
    requires Sizes(bits).Got?
    ensures Sizes(bits + more) == Got(Sizes(bits).val, Sizes(bits).rest + more)
  {
    NumberMore(5, bits, more);
    NumberMore(5, Number(5, bits).rest, more);
    NumberMore(4, Number(5, Number(5, bits).rest).rest, more);
  }

  lemma DynamicMore(k: Rules, bits: seq<bool>, acc: seq<Token>, more: seq<bool>)
    requires Dynamic(k, bits, acc).Got?
    ensures Dynamic(k, bits + more, acc) == Got(Dynamic(k, bits, acc).val, Dynamic(k, bits, acc).rest + more)
  {
    var h := Header(k, bits);
    HeaderMore(k, bits, more);
    if AllZero(h.val.1) { AllZeroFits(h.val.1); }
    CodesMore(h.val.0, h.val.1, h.rest, acc, more);
  }

  lemma BlockMore(k: Rules, t: nat, bits: seq<bool>, acc: seq<Token>, more: seq<bool>)
    requires Decodable(FixedLiterals()) && Decodable(FixedDistances())
    requires Block(k, t, bits, acc).Got? && |more| % 8 == 0
    ensures Block(k, t, bits + more, acc) == Got(Block(k, t, bits, acc).val, Block(k, t, bits, acc).rest + more)
  {
    if t == 2 { DynamicMore(k, bits, acc, more); }
    else if t == 0 { StoredMore(bits, acc, more); }
    else { CodesMore(FixedLiterals(), FixedDistances(), bits, acc, more); }
  }

  lemma OneBlockMore(k: Rules, bits: seq<bool>, acc: seq<Token>, more: seq<bool>)
    requires Decodable(FixedLiterals()) && Decodable(FixedDistances())
    requires OneBlock(k, bits, acc).Got? && |more| % 8 == 0
    ensures OneBlock(k, bits + more, acc) == Got(OneBlock(k, bits, acc).val, OneBlock(k, bits, acc).rest + more)
  {
    NumberMore(1, bits, more);
    var e := Number(1, bits);
    NumberMore(2, e.rest, more);
    var t := Number(2, e.rest);
    BlockMore(k, t.val, t.rest, acc, more);
  }

  lemma {:induction false} BlocksMore(k: Rules, bits: seq<bool>, acc: seq<Token>, more: seq<bool>)
    requires Decodable(FixedLiterals()) && Decodable(FixedDistances())
    requires Blocks(k, bits, acc).Got? && |more| % 8 == 0
    ensures Blocks(k, bits + more, acc) == Got(Blocks(k, bits, acc).val, Blocks(k, bits, acc).rest + more)
    decreases |bits|
  {
    OneBlockMore(k, bits, acc, more);
    var b := OneBlock(k, bits, acc);
    if b.val.0 == 0 { BlocksMore(k, b.rest, b.val.1, more); }
  }

  // ----- the fixed codes -----

  lemma {:induction false} CountRepeat(v: nat, n: nat, len: nat)
    ensures Count(Repeat(v, n), len) == if v == len then n else 0
  {
    if n > 0 {
      assert Repeat(v, n)[..n - 1] == Repeat(v, n - 1);
      CountRepeat(v, n - 1, len);
    }
  }

  lemma {:induction false} CountConcat(a: seq<nat>, b: seq<nat>, len: nat)
    ensures Count(a + b, len) == Count(a, len) + Count(b, len)
  {
    if b == [] {
      assert a + b == a;
    } else {
      assert (a + b)[..|a + b| - 1] == a + b[..|b| - 1];
      CountConcat(a, b[..|b| - 1], len);
    }
  }

  lemma FixedCounts(len: nat)
    ensures Count(FixedLiterals(), len) == if len == 7 then 24 else if len == 8 then 152 else if len == 9 then 112 else 0
    ensures Count(FixedDistances(), len) == if len == 5 then 30 else 0
  {
    var a, b, c, d := Repeat(8, 144), Repeat(9, 112), Repeat(7, 24), Repeat(8, 8);
    CountConcat(a + b + c, d, len);
    CountConcat(a + b, c, len);
    CountConcat(a, b, len);
    CountRepeat(8, 144, len);
    CountRepeat(9, 112, len);
    CountRepeat(7, 24, len);
    CountRepeat(8, 8, len);
    CountRepeat(5, 30, len);
  }

  lemma FixedEnds(len: nat)
    requires 1 <= len <= BMAX
    ensures Fits(FixedLiterals(), len) && Fits(FixedDistances(), len)
    ensures len == 9 ==> EndCode(FixedLiterals(), len) == Pow2(len)
  {
    var l, d := FixedLiterals(), FixedDistances();
    FixedCounts(len);
    if len <= 7 {
      forall i | 1 <= i < len ensures Count(l, i) == 0 { FixedCounts(i); }
      NoShortCodes(l, len);
      if len == 7 { Powers(); }
    } else {
      FixedEnds(len - 1);
      FixedCounts(len - 1);
      if len == 8 { FixedNext(); }
      if len == 9 { FixedNext(); }
    }
    if len <= 5 {
      forall i | 1 <= i < len ensures Count(d, i) == 0 { FixedCounts(i); }
      NoShortCodes(d, len);
      Powers();
    } else {
      FixedEnds(len - 1);
      FixedCounts(len - 1);
    }
  }

  lemma FixedNext()
    ensures NextCode(FixedLiterals(), 8) == 48 && NextCode(FixedLiterals(), 9) == 400
    ensures Pow2(8) == 256 && Pow2(9) == 512
  {
    Powers();
    var l := FixedLiterals();
    forall i | 1 <= i < 7 ensures Count(l, i) == 0 { FixedCounts(i); }
    NoShortCodes(l, 7);
    FixedCounts(7);
    FixedCounts(8);
  }

  /** The fixed literal/length code is complete; the distance code lacks two of its 32
      codes. */
  lemma FixedCodes()
    ensures Decodable(FixedLiterals()) && Decodable(FixedDistances())
    ensures Complete(FixedLiterals()) && |FixedLiterals()| == 288 && |FixedDistances()| == 30
    ensures !AllZero(FixedLiterals()) && !AllZero(FixedDistances())
    ensures forall i :: 0 <= i < 288 ==> FixedLiterals()[i] <= 9
    ensures forall i :: 0 <= i < 30 ==> FixedDistances()[i] == 5
  {
    hide Fits, Count, EndCode;
    var l, d := FixedLiterals(), FixedDistances();
    forall len | 1 <= len <= BMAX ensures Fits(l, len) && Fits(d, len) { FixedEnds(len); }
    FixedEnds(9);
    assert l[144] == 9;
    assert d[0] == 5;
    assert 9 in l && IsMaxLen(l, 9);
  }
}
