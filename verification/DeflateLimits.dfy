/** Which of the streams that RFC 1951 allows are taken by Inflate.c, and two that are not. */
module DeflateLimits {
  import opened Bits
  import opened Huffman
  import opened Deflate

  // ----- the condition -----

  /** The code lengths at `bits` are such as Inflate.c takes. */
  ghost predicate HeaderWithin(bits: seq<bool>) {
    var h := Header(Rfc1951, bits);
    h.Got? ==> Within(|h.val.0|, h.val.1)
  }

  /** The block at `bits` has no code lengths, or such as Inflate.c takes. */
  ghost predicate BlockWithin(bits: seq<bool>) {
    var e := Number(1, bits);
    e.Got? ==>
      var t := Number(2, e.rest);
      t.Got? && t.val == 2 ==> HeaderWithin(t.rest)
  }

  /** So have all blocks. */
  ghost predicate BlocksWithin(bits: seq<bool>, acc: seq<Token>)
    decreases |bits|
  {
    var b := OneBlock(Rfc1951, bits, acc);
    b.Got? ==> BlockWithin(bits) && (b.val.0 == 0 ==> BlocksWithin(b.rest, b.val.1))
  }

  lemma HeaderTaken(bits: seq<bool>)
    ensures Header(InflateC, bits) ==
            if Header(Rfc1951, bits).Got? && |Header(Rfc1951, bits).val.1| <= 30 then Header(Rfc1951, bits) else Bad
  {
    hide CodeLengthCode, Lengths;
    CodeLengthCodeTaken(bits);
    var c := CodeLengthCode(Rfc1951, bits);
    if c.Got? && Usable(c.val.2) {
      HeaderRead(Rfc1951, bits, c.val.0, c.val.1, c.val.2, c.rest);
      if c.val.1 <= 30 { HeaderRead(InflateC, bits, c.val.0, c.val.1, c.val.2, c.rest); }
    }
  }

  lemma CodeLengthCodeTaken(bits: seq<bool>)
    ensures var c := CodeLengthCode(Rfc1951, bits);
            CodeLengthCode(InflateC, bits) == if c.Got? && c.val.1 <= 30 then c else Bad
  {
  }

  lemma HeaderRead(k: Rules, bits: seq<bool>, nl: nat, nd: nat, b: seq<nat>, rest: seq<bool>)
    requires CodeLengthCode(k, bits) == Got((nl, nd, b), rest) && Usable(b) && |b| == 19
    ensures var l := Lengths(b, nl + nd, 0, rest, []);
            && (l.Got? ==> |l.val| == nl + nd && Header(k, bits) == Got((l.val[..nl], l.val[nl..]), l.rest))
            && (l.Bad? ==> Header(k, bits).Bad?)
  {
    var l := Lengths(b, nl + nd, 0, rest, []);
    if l.Got? { HeaderGot(k, bits, nl, nd, b, rest, l.val, l.rest); } else { HeaderEnd(k, bits, nl, nd, b, rest); }
  }

  /** A block that the RFC allows is taken exactly if it has at most 30 distance codes, and
      some distance code unless there is no room for length codes. */
  lemma DynamicTaken(bits: seq<bool>, acc: seq<Token>)
    requires Dynamic(Rfc1951, bits, acc).Got?
    ensures var h := Header(Rfc1951, bits).val;
            Dynamic(InflateC, bits, acc).Got? <==> |h.1| <= 30 && (|h.0| == 257 || !AllZero(h.1))
    ensures Dynamic(InflateC, bits, acc).Got? ==> Dynamic(InflateC, bits, acc) == Dynamic(Rfc1951, bits, acc)
  {
    HeaderTaken(bits);
  }

  lemma DynamicRead(bits: seq<bool>, acc: seq<Token>)
    ensures Dynamic(InflateC, bits, acc) ==
            if Dynamic(Rfc1951, bits, acc).Got? && HeaderWithin(bits) then Dynamic(Rfc1951, bits, acc) else Bad
  {
    HeaderTaken(bits);
  }

  lemma OneBlockRead(bits: seq<bool>, acc: seq<Token>)
    ensures OneBlock(InflateC, bits, acc) ==
            if OneBlock(Rfc1951, bits, acc).Got? && BlockWithin(bits) then OneBlock(Rfc1951, bits, acc) else Bad
  {
    var e := Number(1, bits);
    if e.Got? {
      var t := Number(2, e.rest);
      if t.Got? && t.val == 2 { DynamicRead(t.rest, acc); }
    }
  }

  /** A stream is taken exactly if the RFC allows it and all its code lengths are within
      the limits of Inflate.c, and then it means what the RFC says. */
  lemma {:induction false} BlocksRead(bits: seq<bool>, acc: seq<Token>)
    ensures Blocks(InflateC, bits, acc) ==
            if Blocks(Rfc1951, bits, acc).Got? && BlocksWithin(bits, acc) then Blocks(Rfc1951, bits, acc) else Bad
    decreases |bits|
  {
    OneBlockRead(bits, acc);
    var b := OneBlock(Rfc1951, bits, acc);
    if b.Got? && b.val.0 == 0 { BlocksRead(b.rest, b.val.1); }
  }

  // ----- more input does not change whether a stream is within the limits -----

  lemma BlockWithinMore(bits: seq<bool>, acc: seq<Token>, more: seq<bool>)
    requires OneBlock(Rfc1951, bits, acc).Got?
    ensures BlockWithin(bits + more) == BlockWithin(bits)
  {
    NumberMore(1, bits, more);
    var e := Number(1, bits);
    NumberMore(2, e.rest, more);
    var t := Number(2, e.rest);
    if t.val == 2 { HeaderMore(Rfc1951, t.rest, more); }
  }

  lemma {:induction false} WithinMore(bits: seq<bool>, acc: seq<Token>, more: seq<bool>)
    requires Decodable(FixedLiterals()) && Decodable(FixedDistances())
    requires Blocks(Rfc1951, bits, acc).Got? && |more| % 8 == 0
    ensures BlocksWithin(bits + more, acc) == BlocksWithin(bits, acc)
    decreases |bits|
  {
    OneBlockMore(Rfc1951, bits, acc, more);
    BlockWithinMore(bits, acc, more);
    var b := OneBlock(Rfc1951, bits, acc);
    if b.val.0 == 0 { WithinMore(b.rest, b.val.1, more); }
  }

  // ----- without distance codes, data are all literals -----

  predicate OnlyLiterals(ts: seq<Token>) { forall i :: 0 <= i < |ts| ==> ts[i].Literal? }

  lemma {:induction false} NoMatches(ll: seq<nat>, dl: seq<nat>, bits: seq<bool>, acc: seq<Token>)
    requires AllZero(dl) && OnlyLiterals(acc) && Codes(ll, dl, bits, acc).Got?
    ensures OnlyLiterals(Codes(ll, dl, bits, acc).val)
    decreases |bits|
  {
    var i := NextItem(ll, dl, bits);
    if i.val.Tok? {
      NoMatch(ll, dl, bits);
      NoMatches(ll, dl, i.rest, acc + [i.val.t]);
    }
  }

  lemma NoMatch(ll: seq<nat>, dl: seq<nat>, bits: seq<bool>)
    requires AllZero(dl) && NextItem(ll, dl, bits).Got? && NextItem(ll, dl, bits).val.Tok?
    ensures NextItem(ll, dl, bits).val.t.Literal?
  {
    var s := Symbol(ll, bits);
    if s.val > 256 { NoDistance(dl, s.val, s.rest); }
  }

  lemma NoDistance(dl: seq<nat>, sym: nat, bits: seq<bool>)
    requires AllZero(dl) && sym >= 257
    ensures MatchAfter(dl, sym, bits).Bad?
  {
  }

  // ----- codes of two symbols -----

  /** The symbols `s` and `t` have codes of one bit, the others have none. */
  predicate Two(b: seq<nat>, s: nat, t: nat) {
    s < t < |b| && b[s] == 1 == b[t] && forall i :: 0 <= i < |b| && i != s && i != t ==> b[i] == 0
  }

  lemma TwoCounts(b: seq<nat>, s: nat, t: nat)
    requires Two(b, s, t)
    ensures Rank(b, s) == 0 && Rank(b, t) == 1 && Count(b, 1) == 2
  {
    var x, y, z := b[..s], b[s + 1..t], b[t + 1..];
    CountPositive(x, 1);
    CountPositive(y, 1);
    CountPositive(z, 1);
    OneCount();
    CountConcat(x, [1], 1);
    CountConcat(x + [1], y, 1);
    CountConcat(x + [1] + y, [1], 1);
    CountConcat(x + [1] + y + [1], z, 1);
    assert b[..t] == x + [1] + y;
    assert b == x + [1] + y + [1] + z;
  }

  lemma OneCount()
    ensures Count([1], 1) == 1
  {
    assert [1][..0] == [];
  }

  lemma {:induction false} TwoEnds(b: seq<nat>, s: nat, t: nat, len: nat)
    requires Two(b, s, t) && len >= 1
    ensures EndCode(b, len) == Pow2(len) && (len == 1 ==> NextCode(b, 1) == 0)
  {
    TwoCounts(b, s, t);
    if len == 1 {
      assert Pow2(1) == 2 * Pow2(0);
    } else {
      TwoEnds(b, s, t, len - 1);
      CountPositive(b, len);
    }
  }

  lemma TwoUsable(b: seq<nat>, s: nat, t: nat)
    requires Two(b, s, t)
    ensures Usable(b) && Bounded(b) && Complete(b)
  {
    forall len | 1 <= len <= BMAX ensures Fits(b, len) { TwoEnds(b, s, t, len); }
    TwoEnds(b, s, t, 1);
    assert b[s] in b && IsMaxLen(b, 1);
  }

  lemma TwoSymbols(b: seq<nat>, s: nat, t: nat, rest: seq<bool>)
    requires Two(b, s, t)
    ensures Symbol(b, [false] + rest) == Got(s, rest) && Symbol(b, [true] + rest) == Got(t, rest)
  {
    TwoUsable(b, s, t);
    TwoCounts(b, s, t);
    TwoEnds(b, s, t, 1);
    BitWords();
    assert Codeword(b, s) == [false] && Codeword(b, t) == [true];
    SymbolIs(b, [false] + rest, s);
    SymbolIs(b, [true] + rest, t);
    assert ([false] + rest)[1..] == rest && ([true] + rest)[1..] == rest;
  }

  lemma BitWords()
    ensures BigBits(0, 1) == [false] && BigBits(1, 1) == [true]
  {
  }

  // ----- a small part of the format, written -----

  lemma NumberBits(v: nat, n: nat, rest: seq<bool>)
    requires v < Pow2(n)
    ensures Number(n, BitsLow(v, n) + rest) == Got(v, rest)
  {
    var s := BitsLow(v, n);
    ValBitsLow(v, n);
    assert (s + rest)[..n] == s && (s + rest)[n..] == rest;
  }

  /** The code for code lengths has the symbols 1 and 18. */
  const LENGTHS: seq<nat> := [0, 1, 0, 0, 0, 0, 0, 0, 0, 0, 0, 0, 0, 0, 0, 0, 0, 0, 1]

  /** The first `nb` lengths `b` of a code for code lengths, from the `j`th in their order on. */
  function LengthsBits(b: seq<nat>, j: nat, nb: nat): seq<bool>
    requires j <= nb <= 19 == |b|
    decreases nb - j
  {
    if j == nb then [] else BitsLow(Ordered(b, j), 3) + LengthsBits(b, j + 1, nb)
  }

  function Ordered(b: seq<nat>, j: nat): nat
    requires j < 19 == |b|
  {
    b[BORDER[j]]
  }

  /** The first `j` lengths have been read. */
  ghost predicate ReadTo(acc: seq<nat>, b: seq<nat>, j: nat)
    requires |acc| == 19 == |b|
  {
    forall i {:trigger Ordered(acc, i)} :: 0 <= i < 19 ==> Ordered(acc, i) == if i < j then Ordered(b, i) else 0
  }

  lemma {:induction false} LengthsRead(b: seq<nat>, j: nat, nb: nat, acc: seq<nat>, rest: seq<bool>)
    requires j <= nb <= 19 && |acc| == 19 == |b| && ReadTo(acc, b, j)
    requires (forall i :: 0 <= i < 19 ==> b[i] < 8) && forall i :: nb <= i < 19 ==> Ordered(b, i) == 0
    ensures CodeLengthLengths(nb, j, LengthsBits(b, j, nb) + rest, acc) == Got(b, rest)
    decreases nb - j
  {
    hide ReadTo;
    if j == nb {
      BorderAll(acc, b, nb);
      assert [] + rest == rest;
    } else {
      hide CodeLengthLengths, LengthsBits, Ordered;
      var next := LengthRead(b, j, nb, acc, rest);
      LengthsRead(b, j + 1, nb, next, rest);
    }
  }

  lemma LengthRead(b: seq<nat>, j: nat, nb: nat, acc: seq<nat>, rest: seq<bool>) returns (next: seq<nat>)
    requires j < nb <= 19 && |acc| == 19 == |b| && ReadTo(acc, b, j) && forall i :: 0 <= i < 19 ==> b[i] < 8
    ensures |next| == 19 && ReadTo(next, b, j + 1)
    ensures CodeLengthLengths(nb, j, LengthsBits(b, j, nb) + rest, acc) ==
            CodeLengthLengths(nb, j + 1, LengthsBits(b, j + 1, nb) + rest, next)
  {
    hide Number, BitsLow, ReadTo;
    ReadNext(acc, b, j);
    next := acc[BORDER[j] := Ordered(b, j)];
    var v, more := Ordered(b, j), LengthsBits(b, j + 1, nb) + rest;
    NumberThree(v, more);
    assert LengthsBits(b, j, nb) + rest == BitsLow(v, 3) + more;
  }

  lemma NumberThree(v: nat, rest: seq<bool>)
    requires v < 8
    ensures Number(3, BitsLow(v, 3) + rest) == Got(v, rest)
  {
    Powers();
    NumberBits(v, 3, rest);
  }

  lemma ReadNext(acc: seq<nat>, b: seq<nat>, j: nat)
    requires j < 19 && |acc| == 19 == |b| && ReadTo(acc, b, j)
    ensures ReadTo(acc[BORDER[j] := Ordered(b, j)], b, j + 1)
  {
    forall i {:trigger Ordered(acc[BORDER[j] := Ordered(b, j)], i)} | 0 <= i < 19
      ensures Ordered(acc[BORDER[j] := Ordered(b, j)], i) == if i < j + 1 then Ordered(b, i) else 0
    {
      if i != j {
        BorderDistinct(i, j);
        assert Ordered(acc, i) == if i < j then Ordered(b, i) else 0;
      }
    }
  }

  lemma BorderDistinct(i: nat, j: nat)
    requires i < 19 && j < 19 && i != j
    ensures BORDER[i] != BORDER[j]
  {
  }

  lemma BorderAll(acc: seq<nat>, b: seq<nat>, nb: nat)
    requires |acc| == 19 == |b| && nb <= 19 && ReadTo(acc, b, nb) && forall i :: nb <= i < 19 ==> Ordered(b, i) == 0
    ensures acc == b
  {
    forall k | 0 <= k < 19 ensures acc[k] == b[k] {
      var i := BorderPlace(k);
      assert Ordered(acc, i) == Ordered(b, i);
    }
  }

  lemma BorderPlace(k: nat) returns (i: nat)
    requires k < 19
    ensures i < 19 && BORDER[i] == k
  {
    i := [3, 17, 15, 13, 11, 9, 7, 5, 4, 6, 8, 10, 12, 14, 16, 18, 0, 1, 2][k];
  }

  /** A last block of type 2 with 257 + `hl` literal/length and 1 + `hd` distance codes. */
  function BlockStart(hl: nat, hd: nat, rest: seq<bool>): seq<bool> {
    BitsLow(1, 1) + (BitsLow(2, 2) + SizesStart(hl, hd, rest))
  }

  function SizesStart(hl: nat, hd: nat, rest: seq<bool>): seq<bool> {
    SizesBits(hl, hd, 14, LengthsBits(LENGTHS, 0, 18) + rest)
  }

  function SizesBits(hl: nat, hd: nat, hc: nat, rest: seq<bool>): seq<bool> {
    BitsLow(hl, 5) + (BitsLow(hd, 5) + (BitsLow(hc, 4) + rest))
  }

  lemma SizesRead(hl: nat, hd: nat, hc: nat, rest: seq<bool>)
    requires hl < 32 && hd < 32 && hc < 16
    ensures Sizes(SizesBits(hl, hd, hc, rest)) == Got((257 + hl, 1 + hd, 4 + hc), rest)
  {
    Powers();
    NumberBits(hl, 5, BitsLow(hd, 5) + (BitsLow(hc, 4) + rest));
    NumberBits(hd, 5, BitsLow(hc, 4) + rest);
    NumberBits(hc, 4, rest);
  }

  lemma StartRead(hl: nat, hd: nat, rest: seq<bool>)
    requires hl <= 29 && hd < 32
    ensures CodeLengthCode(Rfc1951, SizesStart(hl, hd, rest)) == Got((257 + hl, 1 + hd, LENGTHS), rest)
  {
    hide LengthsBits, BitsLow, Sizes, CodeLengthLengths;
    SizesRead(hl, hd, 14, LengthsBits(LENGTHS, 0, 18) + rest);
    AllLengthsRead(rest);
  }

  lemma AllLengthsRead(rest: seq<bool>)
    ensures CodeLengthLengths(18, 0, LengthsBits(LENGTHS, 0, 18) + rest, Repeat(0, 19)) == Got(LENGTHS, rest)
  {
    NothingRead(LENGTHS);
    assert BORDER[18] == 15 && LENGTHS[15] == 0;
    LengthsRead(LENGTHS, 0, 18, Repeat(0, 19), rest);
  }

  lemma NothingRead(b: seq<nat>)
    requires |b| == 19
    ensures ReadTo(Repeat(0, 19), b, 0)
  {
    forall i {:trigger Ordered(Repeat(0, 19), i)} | 0 <= i < 19 ensures Ordered(Repeat(0, 19), i) == 0 { RepeatAt(i); }
  }

  lemma RepeatAt(i: nat)
    requires i < 19
    ensures BORDER[i] < 19 && Repeat(0, 19)[BORDER[i]] == 0
  {
  }

  /** The bits for `z` lengths of zero. */
  function ZeroRun(z: nat): seq<bool>
    requires 11 <= z <= 138
  {
    [true] + BitsLow(z - 11, 7)
  }

  lemma LengthSymbols(rest: seq<bool>)
    ensures LengthSymbol(LENGTHS, [false] + rest) == Got(1, rest) && LengthSymbol(LENGTHS, [true] + rest) == Got(18, rest)
  {
    LengthsUsable();
    TwoSymbols(LENGTHS, 1, 18, rest);
    assert forall sym: nat :: !Sole(LENGTHS, sym) by { assert LENGTHS[1] == 1 == LENGTHS[18]; }
  }

  lemma OneLength(n: nat, last: nat, rest: seq<bool>, acc: seq<nat>)
    requires |acc| < n
    ensures Lengths(LENGTHS, n, last, [false] + rest, acc) == Lengths(LENGTHS, n, 1, rest, acc + [1])
  {
    LengthSymbols(rest);
  }

  lemma ZeroLengths(n: nat, last: nat, z: nat, rest: seq<bool>, acc: seq<nat>)
    requires 11 <= z <= 138 && |acc| + z <= n
    ensures Lengths(LENGTHS, n, last, ZeroRun(z) + rest, acc) == Lengths(LENGTHS, n, 0, rest, acc + Repeat(0, z))
  {
    hide Number, BitsLow, LengthSymbol;
    Powers();
    LengthSymbols(BitsLow(z - 11, 7) + rest);
    NumberBits(z - 11, 7, rest);
    assert ZeroRun(z) + rest == [true] + (BitsLow(z - 11, 7) + rest);
  }

  /** Lengths for the symbols 0 and 256: one bit each. */
  function TwoLiterals(): seq<nat> { [1] + Repeat(0, 138) + Repeat(0, 117) + [1] }

  function TwoLiteralsBits(rest: seq<bool>): seq<bool> { [false] + (ZeroRun(138) + (ZeroRun(117) + ([false] + rest))) }

  lemma TwoLiteralsRead(n: nat, rest: seq<bool>)
    requires n >= 257
    ensures Lengths(LENGTHS, n, 0, TwoLiteralsBits(rest), []) == Lengths(LENGTHS, n, 1, rest, TwoLiterals())
  {
    OneLength(n, 0, ZeroRun(138) + (ZeroRun(117) + ([false] + rest)), []);
    assert [] + [1] == [1];
    ZeroLengths(n, 1, 138, ZeroRun(117) + ([false] + rest), [1]);
    ZeroLengths(n, 0, 117, [false] + rest, [1] + Repeat(0, 138));
    OneLength(n, 0, rest, [1] + Repeat(0, 138) + Repeat(0, 117));
  }

  /** The end of the block comes at once. */
  lemma EndRead(ll: seq<nat>, dl: seq<nat>)
    requires Two(ll, 0, 256)
    ensures Codes(ll, dl, [true], []) == Got([], [])
  {
    TwoSymbols(ll, 0, 256, []);
    assert [true] + [] == [true];
  }

  /** The whole code lengths. */
  lemma LengthsSplit(hl: nat, hd: nat, rest: seq<bool>, ll: seq<nat>, dl: seq<nat>)
    requires hl <= 29 && hd < 32 && |ll| == 257 + hl && |dl| == 1 + hd
    requires Lengths(LENGTHS, |ll| + |dl|, 0, rest, []) == Got(ll + dl, [true])
    ensures Header(Rfc1951, SizesStart(hl, hd, rest)) == Got((ll, dl), [true])
  {
    StartRead(hl, hd, rest);
    LengthsUsable();
    HeaderIs(SizesStart(hl, hd, rest), ll, dl, rest);
  }

  lemma HeaderIs(bits: seq<bool>, ll: seq<nat>, dl: seq<nat>, rest: seq<bool>)
    requires CodeLengthCode(Rfc1951, bits) == Got((|ll|, |dl|, LENGTHS), rest) && Usable(LENGTHS)
    requires Lengths(LENGTHS, |ll| + |dl|, 0, rest, []) == Got(ll + dl, [true])
    ensures Header(Rfc1951, bits) == Got((ll, dl), [true])
  {
    hide Header, CodeLengthCode, Lengths, Usable;
    HeaderGot(Rfc1951, bits, |ll|, |dl|, LENGTHS, rest, ll + dl, [true]);
    assert (ll + dl)[..|ll|] == ll && (ll + dl)[|ll|..] == dl;
  }

  lemma LengthsUsable()
    ensures Two(LENGTHS, 1, 18) && Usable(LENGTHS)
  {
    TwoUsable(LENGTHS, 1, 18);
  }

  /** A stream of one block that ends at once is allowed by the RFC, and taken by Inflate.c
      if the code lengths are within its limits. */
  lemma EndTaken(hl: nat, hd: nat, rest: seq<bool>, ll: seq<nat>, dl: seq<nat>)
    requires hl <= 29 && hd < 32 && |ll| == 257 + hl && |dl| == 1 + hd && Two(ll, 0, 256) && UsableDistances(dl)
    requires Lengths(LENGTHS, |ll| + |dl|, 0, rest, []) == Got(ll + dl, [true])
    ensures Blocks(Rfc1951, BlockStart(hl, hd, rest), []) == Got([], [])
    ensures Blocks(InflateC, BlockStart(hl, hd, rest), []).Got? <==> Within(|ll|, dl)
  {
    var bits := SizesStart(hl, hd, rest);
    LengthsSplit(hl, hd, rest, ll, dl);
    TwoUsable(ll, 0, 256);
    EndRead(ll, dl);
    DynamicTaken(bits, []);
    BlockRead(Rfc1951, hl, hd, rest);
    BlockRead(InflateC, hl, hd, rest);
  }

  lemma BlockRead(k: Rules, hl: nat, hd: nat, rest: seq<bool>)
    ensures Blocks(k, BlockStart(hl, hd, rest), []) ==
            if Dynamic(k, SizesStart(hl, hd, rest), []).Got? then Dynamic(k, SizesStart(hl, hd, rest), []) else Bad
  {
    Powers();
    NumberBits(1, 1, BitsLow(2, 2) + SizesStart(hl, hd, rest));
    NumberBits(2, 2, SizesStart(hl, hd, rest));
  }

  // ----- 31 distance codes -----

  function ManyBits(): seq<bool> { TwoLiteralsBits([false] + ([false] + (ZeroRun(29) + [true]))) }

  function ManyDistances(): seq<nat> { [1, 1] + Repeat(0, 29) }

  lemma ManyLists()
    ensures |TwoLiterals()| == 257 && Two(TwoLiterals(), 0, 256)
    ensures |ManyDistances()| == 31 && Two(ManyDistances(), 0, 1) && !Within(257, ManyDistances())
  {
  }

  lemma ManyLengths()
    ensures Lengths(LENGTHS, 288, 0, ManyBits(), []) == Got(TwoLiterals() + ManyDistances(), [true])
  {
    TwoLiteralsRead(288, [false] + ([false] + (ZeroRun(29) + [true])));
    ManyTail(288, 29, [true], TwoLiterals());
  }

  lemma ManyTail(n: nat, z: nat, rest: seq<bool>, l: seq<nat>)
    requires 11 <= z <= 138 && |l| + 2 + z <= n
    ensures Lengths(LENGTHS, n, 1, [false] + ([false] + (ZeroRun(z) + rest)), l) == Lengths(LENGTHS, n, 0, rest, l + ([1, 1] + Repeat(0, z)))
  {
    hide Lengths, ZeroRun;
    OneLength(n, 1, [false] + (ZeroRun(z) + rest), l);
    OneLength(n, 1, ZeroRun(z) + rest, l + [1]);
    ZeroLengths(n, 1, z, rest, l + [1] + [1]);
    assert l + [1] + [1] + Repeat(0, z) == l + ([1, 1] + Repeat(0, z));
  }

  /** A stream with 31 distance codes, of which 29 have length zero, that the RFC allows
      and Inflate.c turns down. */
  lemma ManyRejected()
    ensures var s := BlockStart(0, 30, ManyBits());
            Blocks(Rfc1951, s, []) == Got([], []) && Blocks(InflateC, s, []).Bad?
    ensures |ManyDistances()| == 31 && Complete(ManyDistances())
  {
    hide BlockStart, ManyBits, ManyDistances, TwoLiterals, Blocks, Lengths, Within;
    ManyLists();
    ManyLengths();
    TwoUsable(ManyDistances(), 0, 1);
    EndTaken(0, 30, ManyBits(), TwoLiterals(), ManyDistances());
  }

  // ----- no distance codes -----

  function NoneBits(): seq<bool> { TwoLiteralsBits(ZeroRun(11) + [true]) }

  function NoneLiterals(): seq<nat> { TwoLiterals() + Repeat(0, 10) }

  lemma NoneLists()
    ensures |NoneLiterals()| == 267 && Two(NoneLiterals(), 0, 256)
    ensures UsableDistances([0]) && !Within(267, [0])
  {
  }

  lemma NoneLengths()
    ensures Lengths(LENGTHS, 268, 0, NoneBits(), []) == Got(NoneLiterals() + [0], [true])
  {
    TwoLiteralsRead(268, ZeroRun(11) + [true]);
    ZeroLengths(268, 1, 11, [true], TwoLiterals());
    assert Repeat(0, 11) == Repeat(0, 10) + [0];
    assert TwoLiterals() + Repeat(0, 11) == NoneLiterals() + [0];
  }

  /** A stream with one distance code of zero bits and ten length codes of zero bits, that
      the RFC allows and Inflate.c turns down. */
  lemma NoneRejected()
    ensures var s := BlockStart(10, 0, NoneBits());
            Blocks(Rfc1951, s, []) == Got([], []) && Blocks(InflateC, s, []).Bad?
  {
    hide BlockStart, NoneBits, NoneLiterals, Blocks, Lengths, Within;
    NoneLists();
    NoneLengths();
    EndTaken(10, 0, NoneBits(), NoneLiterals(), [0]);
  }
}
