/** The canonical prefix codes of section 3.2.2 of RFC 1951, given by a list of
    code lengths, and the order in which those codes are handed out. */
module Huffman {
  import opened Bits

  /** The longest code a length list may ask for. */
  const BMAX: nat := 16

  /** How many symbols have codes of `len` bits: `bl_count` in the RFC. */
  function Count(b: seq<nat>, len: nat): nat {
    if b == [] then 0 else Count(b[..|b| - 1], len) + (if b[|b| - 1] == len then 1 else 0)
  }

  /** The first code of each length: `next_code` in the RFC. */
  function NextCode(b: seq<nat>, len: nat): nat {
    if len <= 1 then 0 else 2 * (NextCode(b, len - 1) + Count(b, len - 1))
  }

  /** One past the last code of each length. */
  function EndCode(b: seq<nat>, len: nat): nat { NextCode(b, len) + Count(b, len) }

  /** The place of a symbol among those with the same code length. */
  function Rank(b: seq<nat>, sym: nat): nat
    requires sym < |b|
  {
    Count(b[..sym], b[sym])
  }

  function CodeNumber(b: seq<nat>, sym: nat): nat
    requires sym < |b|
  {
    NextCode(b, b[sym]) + Rank(b, sym)
  }

  function Codeword(b: seq<nat>, sym: nat): seq<bool>
    requires sym < |b|
  {
    BigBits(CodeNumber(b, sym), b[sym])
  }

  /** The next symbol of `stream` is `sym`. */
  ghost predicate Decodes(b: seq<nat>, stream: seq<bool>, sym: nat) {
    sym < |b| && b[sym] > 0 && Codeword(b, sym) <= stream
  }

  predicate Bounded(b: seq<nat>) { forall i :: 0 <= i < |b| ==> b[i] <= BMAX }

  predicate Fits(b: seq<nat>, len: nat) { EndCode(b, len) <= Pow2(len) }

  /** More codes of some length than there are bit patterns left. */
  predicate Oversubscribed(b: seq<nat>) {
    exists len :: 1 <= len <= BMAX && !Fits(b, len)
  }

  predicate AllZero(b: seq<nat>) { forall i :: 0 <= i < |b| ==> b[i] == 0 }

  predicate IsMaxLen(b: seq<nat>, g: nat) {
    g in b && forall i :: 0 <= i < |b| ==> b[i] <= g
  }

  /** The codes use up all bit patterns. */
  predicate Complete(b: seq<nat>) {
    exists g :: g in b && IsMaxLen(b, g) && EndCode(b, g) == Pow2(g)
  }

  /** A single code, of one bit. */
  ghost predicate Sole(b: seq<nat>, sym: nat) {
    sym < |b| && b[sym] == 1 && forall t :: 0 <= t < |b| && b[t] > 0 ==> t == sym
  }

  // ----- counting -----

  lemma {:induction false} CountSplit(b: seq<nat>, n: nat, len: nat)
    requires n <= |b|
    ensures Count(b[..n], len) <= Count(b, len) <= |b|
    ensures n < |b| ==> Count(b[..n + 1], len) == Count(b[..n], len) + (if b[n] == len then 1 else 0)
    decreases |b|
  {
    if n == |b| {
      assert b[..n] == b;
      if b != [] { CountSplit(b[..|b| - 1], |b| - 1, len); }
    } else {
      var t := b[..|b| - 1];
      CountSplit(t, n, len);
      assert t[..n] == b[..n];
      assert b[..n + 1][..n] == b[..n];
    }
  }

  lemma RankBound(b: seq<nat>, sym: nat)
    requires sym < |b|
    ensures Rank(b, sym) < Count(b, b[sym])
  {
    CountSplit(b, sym, b[sym]);
    CountSplit(b, sym + 1, b[sym]);
  }

  lemma {:induction false} CountPositive(b: seq<nat>, len: nat)
    ensures Count(b, len) > 0 <==> len in b
  {
    if b != [] {
      CountPositive(b[..|b| - 1], len);
      assert b == b[..|b| - 1] + [b[|b| - 1]];
    }
  }

  /** Ranks leave no gaps. */
  lemma {:induction false} SymbolAt(b: seq<nat>, len: nat, r: nat) returns (sym: nat)
    requires r < Count(b, len)
    ensures sym < |b| && b[sym] == len && Rank(b, sym) == r
  {
    var n := |b| - 1;
    if r < Count(b[..n], len) {
      sym := SymbolAt(b[..n], len, r);
      assert b[..n][..sym] == b[..sym];
    } else {
      sym := n;
    }
  }

  /** Two symbols of one length have different ranks. */
  lemma RankInjective(b: seq<nat>, s: nat, t: nat)
    requires s < t < |b| && b[s] == b[t]
    ensures Rank(b, s) < Rank(b, t)
  {
    CountSplit(b[..t], s, b[s]);
    CountSplit(b[..t], s + 1, b[s]);
    assert b[..t][..s] == b[..s] && b[..t][..s + 1] == b[..s + 1];
  }

  lemma {:induction false} NextCodeGrows(b: seq<nat>, len: nat, more: nat)
    requires 1 <= len < more
    ensures NextCode(b, more) >= EndCode(b, len) * Pow2(more - len)
  {
    if more > len + 1 {
      NextCodeGrows(b, len, more - 1);
      Regroup(EndCode(b, len), Pow2(more - 1 - len));
    }
  }

  lemma {:induction false} NoShortCodes(b: seq<nat>, len: nat)
    requires forall i :: 1 <= i < len ==> Count(b, i) == 0
    ensures NextCode(b, len) == 0
  {
    if len > 1 { NoShortCodes(b, len - 1); }
  }

  lemma AllZeroFits(b: seq<nat>)
    requires AllZero(b)
    ensures !Oversubscribed(b)
  {
    forall len: nat | len >= 1 ensures Count(b, len) == 0 { CountPositive(b, len); }
    forall len | 1 <= len <= BMAX ensures Fits(b, len) { NoShortCodes(b, len); }
  }

  // ----- the order of bit strings -----

  ghost predicate DiffAt(p: seq<bool>, q: seq<bool>, t: nat) {
    t < |p| && t < |q| && p[..t] == q[..t] && !p[t] && q[t]
  }

  /** Everything starting with `p` comes before everything starting with `q`. */
  ghost predicate Before(p: seq<bool>, q: seq<bool>) {
    exists t: nat :: DiffAt(p, q, t)
  }

  predicate AllOnes(s: seq<bool>) { forall u :: 0 <= u < |s| ==> s[u] }

  /** The next code of the same length. */
  function Inc(code: seq<bool>): (r: seq<bool>)
    ensures |r| == |code|
  {
    if code == [] then []
    else
      var n := |code| - 1;
      if code[n] then Inc(code[..n]) + [false] else code[..n] + [true]
  }

  lemma {:induction false} IncShape(code: seq<bool>) returns (t: nat)
    requires !AllOnes(code)
    ensures t < |code| && !code[t] && AllOnes(code[t + 1..])
    ensures Inc(code)[..t] == code[..t] && Inc(code)[t]
    ensures forall u :: t < u < |code| ==> code[u] && !Inc(code)[u]
  {
    var n := |code| - 1;
    if code[n] {
      t := IncShape(code[..n]);
      forall u | t < u < |code| ensures code[u] && !Inc(code)[u] {
        if u < n { assert code[..n][u]; }
      }
      assert Inc(code)[..t] == Inc(code[..n])[..t] == code[..n][..t] == code[..t];
    } else {
      t := n;
    }
  }

  lemma {:induction false} OnesBig(code: seq<bool>)
    requires AllOnes(code)
    ensures Big(code) == Pow2(|code|) - 1
  {
    if code != [] {
      assert AllOnes(code[..|code| - 1]);
      OnesBig(code[..|code| - 1]);
    }
  }

  lemma {:induction false} NextBig(code: seq<bool>)
    requires !AllOnes(code)
    ensures Big(Inc(code)) == Big(code) + 1
  {
    var n := |code| - 1;
    if code[n] {
      var u :| 0 <= u < |code| && !code[u];
      assert !code[..n][u];
      NextBig(code[..n]);
      assert Inc(code)[..n] == Inc(code[..n]);
    } else {
      assert Inc(code)[..n] == code[..n];
    }
  }

  lemma IncBig(code: seq<bool>)
    requires code != []
    ensures AllOnes(code) ==> Big(code) == Pow2(|code|) - 1
    ensures !AllOnes(code) ==> Big(Inc(code)) == Big(code) + 1
  {
    if AllOnes(code) { OnesBig(code); } else { NextBig(code); }
  }

  /** Where two strings first differ, or the shorter length. */
  lemma {:induction false} Compare(s: seq<bool>, q: seq<bool>) returns (t: nat)
    ensures t <= |s| && t <= |q| && s[..t] == q[..t]
    ensures t < |s| && t < |q| ==> s[t] != q[t]
  {
    t := 0;
    while t < |s| && t < |q| && s[t] == q[t]
      invariant t <= |s| && t <= |q| && s[..t] == q[..t]
    {
      t := t + 1;
    }
  }

  /** The strings before the next code are those before this one, those that
      start with it, and those of which it is the last. */
  lemma IncOrder(code: seq<bool>, s: seq<bool>)
    requires code != [] && !AllOnes(code)
    ensures Before(s, code) ==> Before(s, Inc(code))
    ensures code <= s ==> Before(s, Inc(code))
    ensures Before(s, Inc(code)) ==>
              Before(s, code) || code <= s || (s <= code && AllOnes(code[|s|..]))
  {
    var next := Inc(code);
    var t := IncShape(code);
    if Before(s, code) {
      var v: nat :| DiffAt(s, code, v);
      if v < t {
        assert s[..v] == code[..t][..v] == next[..v];
        assert DiffAt(s, next, v);
      } else {
        assert s[..t] == s[..v][..t] == code[..v][..t] == code[..t];
        assert s[t] == s[..v][t] == code[..v][t];
        assert DiffAt(s, next, t);
      }
    }
    if code <= s { assert DiffAt(s, next, t); }
    if Before(s, next) {
      var v: nat :| DiffAt(s, next, v);
      var z := Compare(s, code);
      if v < t {
        assert s[..v] == next[..t][..v] == code[..v];
        assert DiffAt(s, code, v);
      } else if z < |s| && z < |code| {
        assert s[..t] == s[..v][..t] == code[..t];
        assert forall u :: 0 <= u < t ==> s[u] == s[..t][u] && code[u] == code[..t][u];
        assert DiffAt(s, code, z);
      }
    }
  }

  /** Nothing comes after the code that is all ones. */
  lemma LastOrder(code: seq<bool>, s: seq<bool>)
    requires AllOnes(code)
    ensures Before(s, code) || code <= s || (s <= code && AllOnes(code[|s|..]))
  {
    var z := Compare(s, code);
    if z < |s| && z < |code| { assert DiffAt(s, code, z); }
  }

  lemma BeforeExtends(p: seq<bool>, q: seq<bool>, p': seq<bool>, q': seq<bool>)
    requires Before(p, q) && p <= p' && q <= q'
    ensures Before(p', q') && !(p' <= q') && !(q' <= p')
  {
    var t: nat :| DiffAt(p, q, t);
    assert p'[..t] == p[..t] && q'[..t] == q[..t];
    assert DiffAt(p', q', t);
  }

  /** A longer code that only appends zeros moves nothing to the past. */
  lemma ZeroExtension(s: seq<bool>, q: seq<bool>, q': seq<bool>)
    requires q <= q' && forall u :: |q| <= u < |q'| ==> !q'[u]
    ensures Before(s, q') <==> Before(s, q)
  {
    if Before(s, q') {
      var t: nat :| DiffAt(s, q', t);
      assert t < |q| && q[..t] == q'[..t];
      assert DiffAt(s, q, t);
    }
    if Before(s, q) {
      var t: nat :| DiffAt(s, q, t);
      assert q[..t] == q'[..t];
      assert DiffAt(s, q', t);
    }
  }

  /** For strings of one length this is the order of their numbers. */
  lemma {:induction false} BigBefore(x: seq<bool>, y: seq<bool>)
    requires |x| == |y| && Big(x) < Big(y)
    ensures Before(x, y)
  {
    var n := |x| - 1;
    var x', y' := x[..n], y[..n];
    if Big(x') < Big(y') {
      BigBefore(x', y');
      BeforeExtends(x', y', x, y);
    } else {
      BigBitsBig(x');
      BigBitsBig(y');
      assert DiffAt(x, y, n);
    }
  }

  /** The code of a symbol is not truncated. */
  lemma CodewordBig(b: seq<nat>, sym: nat)
    requires sym < |b| && 0 < b[sym] && !Oversubscribed(b) && Bounded(b)
    ensures Big(Codeword(b, sym)) == NextCode(b, b[sym]) + Rank(b, sym) < EndCode(b, b[sym])
  {
    CodeFits(b, sym);
    BigOfBigBits(CodeNumber(b, sym), b[sym]);
  }

  lemma CodewordIs(b: seq<nat>, sym: nat, code: seq<bool>)
    requires sym < |b| && |code| == b[sym] && Big(code) == CodeNumber(b, sym)
    ensures Codeword(b, sym) == code
  {
    BigBitsBig(code);
  }

  lemma CodeFits(b: seq<nat>, sym: nat)
    requires sym < |b| && 0 < b[sym] && !Oversubscribed(b) && Bounded(b)
    ensures CodeNumber(b, sym) < EndCode(b, b[sym]) <= Pow2(b[sym])
  {
    RankBound(b, sym);
    assert Fits(b, b[sym]);
  }

  /** Later codes of greater length start beyond all codes of length `len`. */
  lemma LongerCodeHead(b: seq<nat>, len: nat, code: seq<bool>)
    requires 1 <= len < |code| && Big(code) >= NextCode(b, |code|)
    ensures EndCode(b, len) <= Big(code[..len])
  {
    NextCodeGrows(b, len, |code|);
    BigPrefix(code, len);
    Cancel(EndCode(b, len), Big(code[..len]) + 1, Pow2(|code| - len));
  }

  /** A symbol's code precedes every later code of at least its length. */
  lemma CodeBefore(b: seq<nat>, sym: nat, code: seq<bool>)
    requires sym < |b| && 0 < b[sym] <= |code| && !Oversubscribed(b) && Bounded(b)
    requires Big(code) >= NextCode(b, |code|)
    requires b[sym] == |code| ==> Big(code) > NextCode(b, |code|) + Rank(b, sym)
    ensures Before(Codeword(b, sym), code)
  {
    var len, word := b[sym], Codeword(b, sym);
    CodewordBig(b, sym);
    var head := code[..len];
    if len < |code| {
      LongerCodeHead(b, len, code);
    } else {
      assert head == code;
    }
    BigBefore(word, head);
    BeforeExtends(word, head, word, code);
  }

  lemma Cancel(x: nat, y: nat, m: nat)
    requires x * m < y * m
    ensures x < y
  {
    assert (y - x) * m > 0;
  }

  /** No code is the start of another. */
  lemma CodesApart(b: seq<nat>, s: nat, t: nat)
    requires Bounded(b) && !Oversubscribed(b)
    requires s < |b| && t < |b| && s != t && 0 < b[s] <= b[t]
    ensures Before(Codeword(b, s), Codeword(b, t)) || Before(Codeword(b, t), Codeword(b, s))
  {
    CodewordBig(b, s);
    CodewordBig(b, t);
    if b[s] < b[t] {
      CodeBefore(b, s, Codeword(b, t));
    } else if s < t {
      RankInjective(b, s, t);
      CodeBefore(b, s, Codeword(b, t));
    } else {
      RankInjective(b, t, s);
      CodeBefore(b, t, Codeword(b, s));
    }
  }

  /** Decoding is unambiguous. */
  lemma DecodesOnce(b: seq<nat>, stream: seq<bool>, s: nat, t: nat)
    requires Bounded(b) && !Oversubscribed(b)
    requires Decodes(b, stream, s) && Decodes(b, stream, t)
    ensures s == t
  {
    if s != t {
      if b[s] <= b[t] { CodesApart(b, s, t); } else { CodesApart(b, t, s); }
      if Before(Codeword(b, s), Codeword(b, t)) {
        BeforeExtends(Codeword(b, s), Codeword(b, t), stream, stream);
      } else {
        BeforeExtends(Codeword(b, t), Codeword(b, s), stream, stream);
      }
    }
  }
}
