/** GF(2)[x] modulo x^128 + x^7 + x^2 + x + 1. Element `i` of a sequence is the
    coefficient of x^i. */
module Field {
  type Poly = p: seq<bool> | |p| == 128 witness seq(128, _ => false)

  function Zero(): Poly { seq(128, _ => false) }

  function Xor(a: Poly, b: Poly): Poly { seq(128, i requires 0 <= i < 128 => a[i] != b[i]) }

  /** Whether x^i occurs in x^7 + x^2 + x + 1, to which x^128 reduces. */
  predicate InModulus(i: int) { i == 0 || i == 1 || i == 2 || i == 7 }

  /** Multiplication by x. */
  function MulX(a: Poly): Poly {
    seq(128, i requires 0 <= i < 128 => (i > 0 && a[i - 1]) != (a[127] && InModulus(i)))
  }

  function Pick(a: Poly, c: bool): Poly { if c then a else Zero() }

  /** The product of `a` with the polynomial with the coefficients `y`. */
  function Times(a: Poly, y: seq<bool>): Poly
    decreases y
  {
    if y == [] then Zero() else Xor(Pick(a, y[0]), Times(MulX(a), y[1..]))
  }

  /** The product of the field. */
  function Mul(a: Poly, b: Poly): Poly { Times(a, b) }

  function Pow(a: Poly, n: nat): Poly { if n == 0 then a else MulX(Pow(a, n - 1)) }

  // ----- addition -----

  lemma XorZero(a: Poly)
    ensures Xor(a, Zero()) == a && Xor(Zero(), a) == a
  {
  }

  lemma XorComm(a: Poly, b: Poly)
    ensures Xor(a, b) == Xor(b, a)
  {
  }

  lemma XorAssoc(a: Poly, b: Poly, c: Poly)
    ensures Xor(Xor(a, b), c) == Xor(a, Xor(b, c))
  {
  }

  lemma Xor4(a: Poly, b: Poly, c: Poly, d: Poly)
    ensures Xor(Xor(a, b), Xor(c, d)) == Xor(Xor(a, c), Xor(b, d))
  {
  }

  lemma MulXLinear(a: Poly, b: Poly)
    ensures MulX(Xor(a, b)) == Xor(MulX(a), MulX(b)) && MulX(Zero()) == Zero()
  {
  }

  // ----- the product is linear in each factor and commutes with x -----

  lemma {:induction false} TimesLinear(a: Poly, b: Poly, y: seq<bool>)
    ensures Times(Xor(a, b), y) == Xor(Times(a, y), Times(b, y))
    decreases y
  {
    if y != [] {
      MulXLinear(a, b);
      TimesLinear(MulX(a), MulX(b), y[1..]);
      XorZero(Zero());
      Xor4(Pick(a, y[0]), Pick(b, y[0]), Times(MulX(a), y[1..]), Times(MulX(b), y[1..]));
    }
  }

  lemma {:induction false} TimesAdditive(a: Poly, y: seq<bool>, z: seq<bool>, yz: seq<bool>)
    requires |y| == |z| == |yz| && forall i :: 0 <= i < |y| ==> yz[i] == (y[i] != z[i])
    ensures Times(a, yz) == Xor(Times(a, y), Times(a, z))
    decreases y
  {
    if y != [] {
      TimesAdditive(MulX(a), y[1..], z[1..], yz[1..]);
      assert Pick(a, yz[0]) == Xor(Pick(a, y[0]), Pick(a, z[0]));
      Xor4(Pick(a, y[0]), Pick(a, z[0]), Times(MulX(a), y[1..]), Times(MulX(a), z[1..]));
    }
  }

  lemma {:induction false} TimesMulX(a: Poly, y: seq<bool>)
    ensures Times(MulX(a), y) == MulX(Times(a, y))
    decreases y
  {
    if y == [] {
      MulXLinear(a, a);
    } else {
      TimesMulX(MulX(a), y[1..]);
      MulXLinear(Pick(a, y[0]), Times(MulX(a), y[1..]));
    }
  }

  lemma {:induction false} TimesZero(y: seq<bool>)
    ensures Times(Zero(), y) == Zero()
  {
    if y != [] {
      MulXLinear(Zero(), Zero());
      TimesZero(y[1..]);
      XorZero(Zero());
    }
  }

  // ----- the product is commutative -----

  function Mono(k: nat): Poly { seq(128, i => i == k) }

  lemma {:induction false} TimesMono(k: nat, y: seq<bool>)
    requires |y| + k == 128
    ensures Times(Mono(k), y) == seq(k, _ => false) + y
    decreases |y|
  {
    if y != [] {
      if k < 127 {
        assert MulX(Mono(k)) == Mono(k + 1);
        TimesMono(k + 1, y[1..]);
        MonoFirst(k, y);
      } else {
        assert y[1..] == [];
        var r := Times(Mono(k), y);
        assert r == Xor(Pick(Mono(k), y[0]), Zero());
        assert r == seq(k, _ => false) + y;
      }
    }
  }

  lemma MonoFirst(k: nat, y: seq<bool>)
    requires |y| + k == 128 && k < 127
    ensures Xor(Pick(Mono(k), y[0]), seq(k + 1, _ => false) + y[1..]) == seq(k, _ => false) + y
  {
  }

  function Pad(y: seq<bool>): Poly
    requires |y| <= 128
  {
    y + seq(128 - |y|, _ => false)
  }

  lemma {:induction false} TimesCommutes(a: Poly, y: seq<bool>)
    requires |y| <= 128
    ensures Times(a, y) == Times(Pad(y), a)
    decreases |y|
  {
    if y == [] {
      assert Pad(y) == Zero();
      TimesZero(a);
    } else {
      var t := Pad(y[1..]);
      assert Pad(y) == Xor(Pick(Mono(0), y[0]), MulX(t));
      TimesLinear(Pick(Mono(0), y[0]), MulX(t), a);
      TimesMulX(t, a);
      TimesMulX(a, y[1..]);
      TimesCommutes(a, y[1..]);
      TimesMono(0, a);
      TimesZero(a);
      assert seq(0, _ => false) + a == a;
    }
  }

  /** The product is commutative. */
  lemma MulCommutes(a: Poly, b: Poly)
    ensures Mul(a, b) == Mul(b, a)
  {
    TimesCommutes(a, b);
    assert Pad(b) == b;
  }

  /** It distributes over addition. */
  lemma MulDistributes(a: Poly, b: Poly, c: Poly)
    ensures Mul(a, Xor(b, c)) == Xor(Mul(a, b), Mul(a, c)) && Mul(Xor(a, b), c) == Xor(Mul(a, c), Mul(b, c))
  {
    TimesAdditive(a, b, c, Xor(b, c));
    TimesLinear(a, b, c);
  }

  /** It is associative. */
  lemma MulAssociates(a: Poly, b: Poly, c: Poly)
    ensures Mul(Mul(a, b), c) == Mul(a, Mul(b, c))
  {
    TimesAssociates(a, b, c);
  }

  lemma {:induction false} TimesAssociates(a: Poly, b: Poly, y: seq<bool>)
    ensures Times(Mul(a, b), y) == Mul(a, Times(b, y))
    decreases |y|
  {
    if y == [] {
      MulCommutes(a, Zero());
      TimesZero(a);
    } else {
      TimesAssociates(a, MulX(b), y[1..]);
      MulCommutes(a, MulX(b));
      MulCommutes(a, b);
      TimesMulX(b, a);
      MulDistributes(a, Pick(b, y[0]), Times(MulX(b), y[1..]));
      MulCommutes(a, Zero());
      TimesZero(a);
    }
  }

  // ----- products in parts -----

  lemma {:induction false} PowLinear(a: Poly, b: Poly, n: nat)
    ensures Pow(Xor(a, b), n) == Xor(Pow(a, n), Pow(b, n)) && Pow(Zero(), n) == Zero()
  {
    if n > 0 {
      PowLinear(a, b, n - 1);
      MulXLinear(Pow(a, n - 1), Pow(b, n - 1));
    }
  }

  lemma {:induction false} PowMulX(a: Poly, n: nat)
    ensures Pow(MulX(a), n) == MulX(Pow(a, n)) == Pow(a, n + 1)
  {
    if n > 0 { PowMulX(a, n - 1); }
  }

  lemma {:induction false} PowAdd(a: Poly, m: nat, n: nat)
    ensures Pow(Pow(a, m), n) == Pow(a, m + n)
  {
    if n > 0 { PowAdd(a, m, n - 1); }
  }

  lemma {:induction false} TimesPow(a: Poly, y: seq<bool>, n: nat)
    ensures Times(Pow(a, n), y) == Pow(Times(a, y), n)
  {
    if n > 0 {
      TimesPow(a, y, n - 1);
      TimesMulX(Pow(a, n - 1), y);
    }
  }

  lemma {:induction false} TimesSplit(a: Poly, y: seq<bool>, z: seq<bool>)
    ensures Times(a, y + z) == Xor(Times(a, y), Times(Pow(a, |y|), z))
    decreases |y|
  {
    if y == [] {
      assert y + z == z;
      XorZero(Times(a, z));
    } else {
      assert (y + z)[1..] == y[1..] + z;
      TimesSplit(MulX(a), y[1..], z);
      PowMulX(a, |y| - 1);
      XorAssoc(Pick(a, y[0]), Times(MulX(a), y[1..]), Times(Pow(a, |y|), z));
    }
  }

  lemma {:induction false} TimesFalse(a: Poly, y: seq<bool>)
    requires forall i :: 0 <= i < |y| ==> !y[i]
    ensures Times(a, y) == Zero()
    decreases |y|
  {
    if y != [] {
      TimesFalse(MulX(a), y[1..]);
      XorZero(Zero());
    }
  }

  /** One more coefficient. */
  lemma TimesLast(a: Poly, y: seq<bool>, c: bool)
    ensures Times(a, y + [c]) == Xor(Times(a, y), Pick(Pow(a, |y|), c))
  {
    TimesSplit(a, y, [c]);
    var p := Pow(a, |y|);
    assert [c][1..] == [];
    assert Times(p, [c]) == Xor(Pick(p, c), Zero());
    XorZero(Pick(p, c));
  }
}
