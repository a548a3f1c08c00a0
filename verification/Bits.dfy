/** Bit strings in the order in which DEFLATE reads them, and the two ways of
    reading one as a number (section 3.1.1 of RFC 1951). */
module Bits {
  import opened Division


  function Pow2(n: nat): (r: nat)
    ensures r > 0
  {
    if n == 0 then 1 else 2 * Pow2(n - 1)
  }

  function Bit(b: bool): nat { if b then 1 else 0 }

  /** First bit least significant: data elements other than Huffman codes. */
  function Val(s: seq<bool>): (v: nat)
    ensures v < Pow2(|s|)
  {
    if s == [] then 0 else Bit(s[0]) + 2 * Val(s[1..])
  }

  /** First bit most significant: Huffman codes. */
  function Big(s: seq<bool>): (v: nat)
    ensures v < Pow2(|s|)
  {
    if s == [] then 0 else 2 * Big(s[..|s| - 1]) + Bit(s[|s| - 1])
  }

  /** The `n` low bits of `c`, most significant first. */
  function BigBits(c: nat, n: nat): (s: seq<bool>)
    ensures |s| == n
  {
    if n == 0 then [] else BigBits(c / 2, n - 1) + [c % 2 == 1]
  }

  function Zeros(n: nat): seq<bool> { seq(n, _ => false) }

  lemma {:induction false} Pow2Add(m: nat, n: nat)
    ensures Pow2(m + n) == Pow2(m) * Pow2(n)
  {
    if m > 0 {
      Pow2Add(m - 1, n);
      assert Pow2(m + n) == 2 * Pow2(m - 1 + n);
    }
  }

  lemma {:induction false} Pow2Monotone(m: nat, n: nat)
    requires m <= n
    ensures Pow2(m) <= Pow2(n)
    decreases n
  {
    if m < n { Pow2Monotone(m, n - 1); }
  }

  lemma ValSingle(b: bool)
    ensures Val([b]) == Bit(b)
  {
    assert [b][1..] == [];
  }

  lemma {:induction false} ValConcat(s: seq<bool>, t: seq<bool>)
    ensures Val(s + t) == Val(s) + Pow2(|s|) * Val(t)
  {
    if s == [] {
      assert s + t == t;
    } else {
      ValConcat(s[1..], t);
      assert (s + t)[1..] == s[1..] + t;
      Regroup(Val(t), Pow2(|s| - 1));
    }
  }

  lemma Regroup(x: nat, p: nat)
    ensures x * (2 * p) == 2 * (x * p) && (2 * p) * x == 2 * (p * x)
  {
  }

  /** Splitting a number at bit `n`: what masking and shifting keep. */
  lemma ValSplit(s: seq<bool>, n: nat)
    requires n <= |s|
    ensures Val(s) == Val(s[..n]) + Pow2(n) * Val(s[n..])
    ensures Val(s) % Pow2(n) == Val(s[..n])
    ensures Val(s) / Pow2(n) == Val(s[n..])
  {
    assert s[..n] + s[n..] == s;
    ValConcat(s[..n], s[n..]);
    Euclid(Val(s), Val(s[..n]), Pow2(n), Val(s[n..]));
  }

  lemma {:induction false} ValInjective(s: seq<bool>, t: seq<bool>)
    requires |s| == |t| && Val(s) == Val(t)
    ensures s == t
  {
    if s != [] {
      assert Val(s) % 2 == Bit(s[0]) && Val(t) % 2 == Bit(t[0]);
      ValInjective(s[1..], t[1..]);
      assert s == [s[0]] + s[1..] && t == [t[0]] + t[1..];
    }
  }

  /** Every number below a power of two is the value of a bit string. */
  lemma {:induction false} ValOnto(v: nat, n: nat) returns (s: seq<bool>)
    requires v < Pow2(n)
    ensures |s| == n && Val(s) == v
  {
    if n == 0 {
      s := [];
    } else {
      var rest := ValOnto(v / 2, n - 1);
      s := [v % 2 == 1] + rest;
      assert s[1..] == rest;
    }
  }

  lemma {:induction false} ValZeros(n: nat)
    ensures Val(Zeros(n)) == 0
  {
    if n > 0 {
      ValZeros(n - 1);
      assert Zeros(n)[1..] == Zeros(n - 1);
    }
  }

  lemma {:induction false} BigBitsBig(s: seq<bool>)
    ensures BigBits(Big(s), |s|) == s
  {
    if s != [] {
      var t, last := s[..|s| - 1], s[|s| - 1];
      BigBitsBig(t);
      assert Big(s) / 2 == Big(t) && (Big(s) % 2 == 1 <==> last);
      assert s == t + [last];
    }
  }

  lemma {:induction false} BigOfBigBits(c: nat, n: nat)
    requires c < Pow2(n)
    ensures Big(BigBits(c, n)) == c
  {
    if n > 0 {
      BigOfBigBits(c / 2, n - 1);
      var s := BigBits(c, n);
      assert s[..n - 1] == BigBits(c / 2, n - 1);
    }
  }

  /** Reading on multiplies the number read so far. */
  lemma {:induction false} BigPrefix(s: seq<bool>, n: nat)
    requires n <= |s|
    ensures Big(s[..n]) * Pow2(|s| - n) <= Big(s) < (Big(s[..n]) + 1) * Pow2(|s| - n)
  {
    if n == |s| {
      assert s[..n] == s;
    } else {
      var t := s[..|s| - 1];
      BigPrefix(t, n);
      assert t[..n] == s[..n];
      Doubling(Big(s[..n]), Pow2(|t| - n), Big(t), Bit(s[|t|]));
    }
  }

  lemma Doubling(b: nat, p: nat, x: nat, bit: nat)
    requires b * p <= x < (b + 1) * p && bit <= 1
    ensures b * (2 * p) <= 2 * x + bit < (b + 1) * (2 * p)
  {
    assert b * (2 * p) == 2 * (b * p);
    assert (b + 1) * (2 * p) == 2 * ((b + 1) * p);
  }
}
