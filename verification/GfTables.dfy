/** The table-driven multiplications of GfMul.c and its bit-serial reference. */
module GfTables {
  import opened Field
  import opened GfMul

  function ZeroBlock(): Block { seq(16, _ => 0) }

  /** xor_block_aligned */
  function XorBlock(a: Block, b: Block): Block { seq(16, k requires 0 <= k < 16 => XorByte(a[k], b[k])) }

  function XorByte(a: bv8, b: bv8): bv8 { a ^ b }

  lemma XorAt(a: Block, b: Block, i: nat)
    requires i < 128
    ensures BitAt(XorBlock(a, b), i) == (BitAt(a, i) != BitAt(b, i))
  {
    XorBit(a[i / 8], b[i / 8], i % 8);
  }

  lemma XorLsb(a: Block, b: Block)
    ensures Lsb(XorBlock(a, b)) == Xor(Lsb(a), Lsb(b))
  {
    var r := XorBlock(a, b);
    forall i | 0 <= i < 128 ensures Lsb(r)[i] == Xor(Lsb(a), Lsb(b))[i] { XorAt(a, b, i); }
  }

  lemma XorMsb(a: Block, b: Block)
    ensures Msb(XorBlock(a, b)) == Xor(Msb(a), Msb(b))
  {
    var r := XorBlock(a, b);
    forall i | 0 <= i < 128 ensures Msb(r)[i] == Xor(Msb(a), Msb(b))[i] { XorAt(a, b, 127 - i); }
  }

  lemma ZeroCorrect()
    ensures Lsb(ZeroBlock()) == Zero() && Msb(ZeroBlock()) == Zero()
  {
    forall i | 0 <= i < 128 ensures !BitAt(ZeroBlock(), i) { assert ZeroBlock()[i / 8] == 0; }
  }

  // ----- bits of a byte -----

  /** The bits of a byte, most significant first. */
  function Bits8(b: bv8): seq<bool> { seq(8, k requires 0 <= k < 8 => Bit(b, k)) }

  lemma ByteBit(a: Block, i: nat, k: nat)
    requires i < 16 && k < 8
    ensures Lsb(a)[8 * i + k] == Bits8(a[i])[k]
  {
  }

  lemma ByteSlice(a: Block, i: nat)
    requires i < 16
    ensures Lsb(a)[8 * i..8 * i + 8] == Bits8(a[i])
    ensures Lsb(a)[..8 * i + 8] == Lsb(a)[..8 * i] + Bits8(a[i])
    ensures Lsb(a)[8 * i..] == Bits8(a[i]) + Lsb(a)[8 * i + 8..]
  {
    var p, s := Lsb(a), Bits8(a[i]);
    forall k | 0 <= k < 8 ensures p[8 * i..8 * i + 8][k] == s[k] { ByteBit(a, i, k); }
    assert p[8 * i..8 * i + 8] == s;
    Slices(p, 8 * i, 8 * i + 8);
  }

  lemma Slices(p: seq<bool>, m: nat, n: nat)
    requires m <= n <= |p|
    ensures p[..n] == p[..m] + p[m..n] && p[m..] == p[m..n] + p[n..]
  {
  }

  /** The bits of a half byte, most significant first. */
  function Bits4(v: nat): seq<bool> { [v / 8 % 2 == 1, v / 4 % 2 == 1, v / 2 % 2 == 1, v % 2 == 1] }

  /** The value of a half byte. */
  method Value(n: bv8) returns (r: nat)
    requires n < 16
    ensures r < 16 && Bits4(r) == [n & 8 != 0, n & 4 != 0, n & 2 != 0, n & 1 != 0]
  {
    r := if n == 0 then 0 else if n == 1 then 1 else if n == 2 then 2 else if n == 3 then 3
         else if n == 4 then 4 else if n == 5 then 5 else if n == 6 then 6 else if n == 7 then 7
         else if n == 8 then 8 else if n == 9 then 9 else if n == 10 then 10 else if n == 11 then 11
         else if n == 12 then 12 else if n == 13 then 13 else if n == 14 then 14 else 15;
  }

  /** The half bytes of a byte, b >> 4 and b & 15. */
  method Halves(b: bv8) returns (high: nat, low: nat)
    ensures high < 16 && low < 16 && Bits8(b) == Bits4(high) + Bits4(low)
  {
    HalfMasks(b);
    high := Value(b >> 4);
    low := Value(b & 15);
    assert Bits4(high) == [Bit(b, 0), Bit(b, 1), Bit(b, 2), Bit(b, 3)];
    assert Bits4(low) == [Bit(b, 4), Bit(b, 5), Bit(b, 6), Bit(b, 7)];
  }

  lemma HalfMasks(b: bv8)
    ensures b >> 4 < 16 && b & 15 < 16
    ensures ((b >> 4) & 8 != 0 <==> b & 0x80 != 0) && ((b >> 4) & 4 != 0 <==> b & 0x40 != 0)
    ensures ((b >> 4) & 2 != 0 <==> b & 0x20 != 0) && ((b >> 4) & 1 != 0 <==> b & 0x10 != 0)
    ensures ((b & 15) & 8 != 0 <==> b & 8 != 0) && ((b & 15) & 4 != 0 <==> b & 4 != 0)
    ensures ((b & 15) & 2 != 0 <==> b & 2 != 0) && ((b & 15) & 1 != 0 <==> b & 1 != 0)
  {
  }

  // ----- the bit-serial reference -----

  /** IsBitSet128 (lines 568-571) */
  predicate IsBitSet(bit: nat, a: Block)
    requires bit < 128
  {
    Bit(a[(127 - bit) / 8], (127 - bit) % 8)
  }

  /** shl128 (lines 694-703), from the last byte to the first */
  method ShiftLeft(a0: Block) returns (a: Block)
    ensures forall k :: 0 <= k < 15 ==> a[k] == (a0[k] << 1) | (a0[k + 1] >> 7)
    ensures a[15] == a0[15] << 1
  {
    a := a0;
    var x: bv8 := 0;
    var i := 15;
    while i >= 0
      invariant -1 <= i <= 15
      invariant x == if i == 15 then 0 else a0[i + 1] >> 7
      invariant a[..i + 1] == a0[..i + 1]
      invariant forall k :: i < k < 15 ==> a[k] == (a0[k] << 1) | (a0[k + 1] >> 7)
      invariant i < 15 ==> a[15] == a0[15] << 1
    {
      var xx := (a[i] & 0x80) >> 7;
      CarryBit(a[i]);
      assert a[i] == a0[i];
      a := a[i := (a[i] << 1) | x];
      x := xx;
      i := i - 1;
    }
  }

  lemma CarryBit(b: bv8)
    ensures (b & 0x80) >> 7 == b >> 7 && (b << 1) | 0 == b << 1
  {
  }

  lemma LeftBit(b: bv8, c: bv8, k: nat)
    requires k < 8
    ensures Bit((b << 1) | (c >> 7), k) <==> if k == 7 then Bit(c, 0) else Bit(b, k + 1)
    ensures Bit(b << 1, k) <==> k < 7 && Bit(b, k + 1)
  {
  }

  lemma ReduceBit(b: bv8, k: nat)
    requires k < 8
    ensures Bit(b ^ 0x87, k) <==> (Bit(b, k)) != InModulus(7 - k)
  {
  }

  /** The shift and reduction of the reference, bit by bit. */
  lemma LeftBits(a: Block, s: Block, b: Block, i: nat)
    requires i < 128
    requires (forall k :: 0 <= k < 15 ==> s[k] == (a[k] << 1) | (a[k + 1] >> 7)) && s[15] == a[15] << 1
    requires b == if a[0] & 0x80 != 0 then s[15 := s[15] ^ 0x87] else s
    ensures BitAt(b, i) == ((i < 127 && BitAt(a, i + 1)) != (BitAt(a, 0) && InModulus(127 - i)))
  {
    if i < 120 { LeftInner(a, s, b, i); } else { LeftLast(a, s, b, i - 120); }
  }

  lemma LeftInner(a: Block, s: Block, b: Block, i: nat)
    requires i < 120
    requires (forall k :: 0 <= k < 15 ==> s[k] == (a[k] << 1) | (a[k + 1] >> 7)) && forall k :: 0 <= k < 15 ==> b[k] == s[k]
    ensures BitAt(b, i) == (BitAt(a, i + 1) != (BitAt(a, 0) && InModulus(127 - i)))
  {
    LeftBit(a[i / 8], a[i / 8 + 1], i % 8);
  }

  lemma LeftLast(a: Block, s: Block, b: Block, k: nat)
    requires k < 8 && s[15] == a[15] << 1
    requires b[15] == if a[0] & 0x80 != 0 then s[15] ^ 0x87 else s[15]
    ensures BitAt(b, 120 + k) == ((k < 7 && BitAt(a, 121 + k)) != (BitAt(a, 0) && InModulus(7 - k)))
  {
    LeftBit(a[15], 0, k);
    ReduceBit(s[15], k);
  }

  lemma LeftMulX(a: Block, s: Block, b: Block)
    requires (forall k :: 0 <= k < 15 ==> s[k] == (a[k] << 1) | (a[k + 1] >> 7)) && s[15] == a[15] << 1
    requires b == if a[0] & 0x80 != 0 then s[15 := s[15] ^ 0x87] else s
    ensures Msb(b) == MulX(Msb(a))
  {
    forall i | 0 <= i < 128 ensures Msb(b)[i] == MulX(Msb(a))[i] { LeftBits(a, s, b, 127 - i); }
  }

  method AddIf(c: bool, p: Block, a: Block) returns (r: Block)
    ensures Msb(r) == Xor(Msb(p), Pick(Msb(a), c))
  {
    r := if c then XorBlock(p, a) else p;
    XorMsb(p, a);
    XorZero(Msb(p));
  }

  lemma BitOfMsb(bit: nat, b: Block)
    requires bit < 128
    ensures IsBitSet(bit, b) == Msb(b)[bit]
    ensures Msb(b)[..bit + 1] == Msb(b)[..bit] + [Msb(b)[bit]]
  {
  }

  /** GfMul128Basic (lines 705-727) computes the product of the field. */
  method MulBasic(a: Block, b: Block) returns (p: Block)
    ensures Msb(p) == Mul(Msb(a), Msb(b))
  {
    var la := a;
    p := ZeroBlock();
    ZeroCorrect();
    var i := 0;
    while i < 128
      invariant 0 <= i <= 128
      invariant Msb(la) == Pow(Msb(a), i) && Msb(p) == Times(Msb(a), Msb(b)[..i])
    {
      BitOfMsb(i, b);
      TimesLast(Msb(a), Msb(b)[..i], Msb(b)[i]);
      p := AddIf(IsBitSet(i, b), p, la);
      la := Double(la);
      i := i + 1;
    }
    assert Msb(b)[..128] == Msb(b);
  }

  /** The shift with reduction (lines 717-725). */
  method Double(la: Block) returns (r: Block)
    ensures Msb(r) == MulX(Msb(la))
  {
    var s := ShiftLeft(la);
    r := if la[0] & 0x80 != 0 then s[15 := s[15] ^ 0x87] else s;
    LeftMulX(la, s, r);
  }

  // ----- the bits in reverse -----

  /** SetBit128 (lines 578-581) */
  function SetBit(bit: nat, a: Block): Block
    requires bit < 128
  {
    a[(127 - bit) / 8 := SetMask(a[(127 - bit) / 8], (127 - bit) % 8)]
  }

  /** b | (0x80 >> k) */
  function SetMask(b: bv8, k: nat): bv8
    requires k < 8
  {
    if k == 0 then b | 0x80 else if k == 1 then b | 0x40 else if k == 2 then b | 0x20 else if k == 3 then b | 0x10
    else if k == 4 then b | 0x08 else if k == 5 then b | 0x04 else if k == 6 then b | 0x02 else b | 0x01
  }

  lemma MaskSet(b: bv8, k: nat, m: nat)
    requires k < 8 && m < 8
    ensures Bit(SetMask(b, k), m) == (Bit(b, m) || m == k)
  {
  }

  lemma BitSet(bit: nat, a: Block, j: nat)
    requires bit < 128 && j < 128
    ensures IsBitSet(j, SetBit(bit, a)) == (IsBitSet(j, a) || j == bit)
  {
    MaskSet(a[(127 - bit) / 8], (127 - bit) % 8, (127 - j) % 8);
  }

  /** MirrorBits128 (lines 588-600) exchanges the two modes. */
  method MirrorBits(a: Block) returns (t: Block)
    ensures Msb(t) == Lsb(a) && Lsb(t) == Msb(a)
  {
    t := ZeroBlock();
    ZeroCorrect();
    forall j | 0 <= j < 128 ensures !IsBitSet(j, t) { assert Msb(t)[j] == IsBitSet(j, t); }
    var i := 0;
    while i < 128
      invariant 0 <= i <= 128
      invariant forall j :: 0 <= j < 128 ==> IsBitSet(j, t) == (127 - j < i && IsBitSet(127 - j, a))
    {
      if IsBitSet(i, a) {
        ghost var u := t;
        t := SetBit(127 - i, t);
        forall j | 0 <= j < 128 ensures IsBitSet(j, t) == (IsBitSet(j, u) || j == 127 - i) { BitSet(127 - i, u, j); }
      }
      i := i + 1;
    }
    Mirrored(a, t);
  }

  lemma Mirrored(a: Block, t: Block)
    requires forall j :: 0 <= j < 128 ==> IsBitSet(j, t) == IsBitSet(127 - j, a)
    ensures Msb(t) == Lsb(a) && Lsb(t) == Msb(a)
  {
    forall i | 0 <= i < 128 ensures Msb(t)[i] == Lsb(a)[i] && Lsb(t)[i] == Msb(a)[i] {
      assert Msb(t)[i] == IsBitSet(i, t) && Lsb(a)[i] == IsBitSet(127 - i, a);
      assert Lsb(t)[i] == IsBitSet(127 - i, t) && Msb(a)[i] == IsBitSet(i, a);
    }
  }

  // ----- GfMul128 -----

  /** Multiples of `b` by powers of x, as big-endian words. */
  ghost predicate Shifts(p: seq<Words>, b: Poly) {
    forall k {:trigger p[k]} :: 0 <= k < |p| ==> Lsb(Big(p[k])) == Pow(b, k)
  }

  lemma MoreShifts(p: seq<Words>, y: Words, b: Poly)
    requires Shifts(p, b) && Lsb(Big(y)) == Pow(b, |p|)
    ensures Shifts(p + [y], b)
  {
  }

  /** `b` multiplied by x^0 to x^7 (lines 400-408). */
  method EightShifts(b: Block) returns (p: seq<Words>)
    ensures |p| == 8 && Shifts(p, Lsb(b))
  {
    var x := Load(b);
    x := Swap(x);
    MoreShifts([], x, Lsb(b));
    p := [x];
    assert [] + [x] == [x];
    while |p| < 8
      invariant 1 <= |p| <= 8 && Shifts(p, Lsb(b))
    {
      x := ShiftNext(p[|p| - 1]);
      MoreShifts(p, x, Lsb(b));
      p := p + [x];
    }
  }

  method ShiftNext(x: Words) returns (y: Words)
    ensures Lsb(Big(y)) == MulX(Lsb(Big(x)))
  {
    y := ShiftWords(x);
    ShiftedMulX(Big(x), Big(y));
  }

  /** Add a multiple of x^k for each bit of a byte (lines 415-430, unrolled there). */
  method AddByte(r0: Words, b: bv8, p: seq<Words>, ghost B: Poly) returns (r: Words)
    requires |p| == 8 && Shifts(p, B)
    ensures Lsb(Big(r)) == Xor(Lsb(Big(r0)), Times(B, Bits8(b)))
  {
    r := r0;
    XorZero(Lsb(Big(r0)));
    var k := 0;
    assert Bits8(b)[..0] == [];
    while k < 8
      invariant 0 <= k <= 8 && Lsb(Big(r)) == Xor(Lsb(Big(r0)), Times(B, Bits8(b)[..k]))
    {
      assert Bits8(b)[..k + 1] == Bits8(b)[..k] + [Bits8(b)[k]];
      TimesLast(B, Bits8(b)[..k], Bits8(b)[k]);
      XorAssoc(Lsb(Big(r0)), Times(B, Bits8(b)[..k]), Pick(Pow(B, k), Bits8(b)[k]));
      r := AddWordsIf(Bit(b, k), r, p[k]);
      k := k + 1;
    }
    assert Bits8(b)[..8] == Bits8(b);
  }

  method AddWordsIf(c: bool, r: Words, p: Words) returns (s: Words)
    ensures Lsb(Big(s)) == Xor(Lsb(Big(r)), Pick(Lsb(Big(p)), c))
  {
    XorZero(Lsb(Big(r)));
    s := r;
    if c {
      s := AddWords(r, p);
      XorLsb(Big(r), Big(p));
    }
  }

  /** xor_block_aligned on words */
  method AddWords(r: Words, p: Words) returns (s: Words)
    ensures Big(s) == XorBlock(Big(r), Big(p))
  {
    var w0 := AddWord(r.w0, p.w0);
    var w1 := AddWord(r.w1, p.w1);
    var w2 := AddWord(r.w2, p.w2);
    var w3 := AddWord(r.w3, p.w3);
    s := Words(w0, w1, w2, w3);
    XorFour(BigBytes(r.w0), BigBytes(r.w1), BigBytes(r.w2), BigBytes(r.w3),
            BigBytes(p.w0), BigBytes(p.w1), BigBytes(p.w2), BigBytes(p.w3));
  }

  function XorBytes(s: seq<bv8>, t: seq<bv8>): seq<bv8>
    requires |s| == |t| == 4
  {
    seq(4, k requires 0 <= k < 4 => XorByte(s[k], t[k]))
  }

  lemma XorDisplay(s: seq<bv8>, t: seq<bv8>, r: seq<bv8>)
    requires |s| == |t| == 4 && r == [XorByte(s[0], t[0]), XorByte(s[1], t[1]), XorByte(s[2], t[2]), XorByte(s[3], t[3])]
    ensures r == XorBytes(s, t)
  {
  }

  lemma XorWordBytes(v: bv32, w: bv32)
    ensures ByteOf(v ^ w, 0) == XorByte(ByteOf(v, 0), ByteOf(w, 0)) && ByteOf(v ^ w, 1) == XorByte(ByteOf(v, 1), ByteOf(w, 1))
    ensures ByteOf(v ^ w, 2) == XorByte(ByteOf(v, 2), ByteOf(w, 2)) && ByteOf(v ^ w, 3) == XorByte(ByteOf(v, 3), ByteOf(w, 3))
  {
  }

  method AddWord(v: bv32, w: bv32) returns (r: bv32)
    ensures BigBytes(r) == XorBytes(BigBytes(v), BigBytes(w))
  {
    r := v ^ w;
    XorWordBytes(v, w);
    XorDisplay(BigBytes(v), BigBytes(w), BigBytes(r));
  }

  lemma XorFour(s0: seq<bv8>, s1: seq<bv8>, s2: seq<bv8>, s3: seq<bv8>, t0: seq<bv8>, t1: seq<bv8>, t2: seq<bv8>, t3: seq<bv8>)
    requires |s0| == |s1| == |s2| == |s3| == 4 && |t0| == |t1| == |t2| == |t3| == 4
    ensures XorBytes(s0, t0) + XorBytes(s1, t1) + XorBytes(s2, t2) + XorBytes(s3, t3) == XorBlock(s0 + s1 + s2 + s3, t0 + t1 + t2 + t3)
  {
  }

  /** GfMul128 (lines 396-434) computes the product in LSB-first mode. */
  method MulLsb(a: Block, b: Block) returns (c: Block)
    ensures Lsb(c) == Mul(Lsb(a), Lsb(b))
  {
    var p := EightShifts(b);
    var r := ZeroWords();
    var A, B := Lsb(a), Lsb(b);
    assert A[128..] == [];
    var i := 0;
    while i < 16
      invariant 0 <= i <= 16 && Lsb(Big(r)) == Times(B, A[128 - 8 * i..])
    {
      ghost var rest := A[128 - 8 * i..];
      if i > 0 {
        var s := MulX8Big(r);
        MovedPow(Big(r), Big(s));
        r := s;
      } else {
        PowLinear(B, B, 8);
      }
      assert Lsb(Big(r)) == Pow(Times(B, rest), 8);
      r := AddByte(r, a[15 - i], p, B);
      Horner(a, B, i);
      i := i + 1;
    }
    assert A[0..] == A;
    MulCommutes(A, B);
    r := Swap(r);
    c := Little(r);
  }

  lemma Horner(a: Block, B: Poly, i: nat)
    requires i < 16
    ensures Times(B, Lsb(a)[128 - 8 * (i + 1)..]) == Xor(Pow(Times(B, Lsb(a)[128 - 8 * i..]), 8), Times(B, Bits8(a[15 - i])))
  {
    var rest, bits := Lsb(a)[128 - 8 * i..], Bits8(a[15 - i]);
    ByteSlice(a, 15 - i);
    assert Lsb(a)[128 - 8 * (i + 1)..] == bits + rest;
    HornerStep(B, bits, rest);
  }

  lemma HornerStep(B: Poly, bits: seq<bool>, rest: seq<bool>)
    requires |bits| == 8
    ensures Times(B, bits + rest) == Xor(Pow(Times(B, rest), 8), Times(B, bits))
  {
    TimesSplit(B, bits, rest);
    TimesPow(B, rest, 8);
    XorComm(Times(B, bits), Pow(Times(B, rest), 8));
  }

  method ZeroWords() returns (r: Words)
    ensures Lsb(Big(r)) == Zero()
  {
    r := Words(0, 0, 0, 0);
    assert BigBytes(0) == [0, 0, 0, 0];
    assert Big(r) == ZeroBlock();
    ZeroCorrect();
  }
}
