/** GfMul.c on a little-endian machine: multiplication in GF(2^128) with 32-bit words and
    with tables. Blocks of memory are passed by value and stored back. */
module GfMul {
  import opened Field

  /** Sixteen bytes of memory. */
  type Block = b: seq<bv8> | |b| == 16 witness seq(16, _ => 0)

  /** b & (0x80 >> k) */
  predicate Bit(b: bv8, k: nat)
    requires k < 8
  {
    if k == 0 then b & 0x80 != 0 else if k == 1 then b & 0x40 != 0 else if k == 2 then b & 0x20 != 0
    else if k == 3 then b & 0x10 != 0 else if k == 4 then b & 0x08 != 0 else if k == 5 then b & 0x04 != 0
    else if k == 6 then b & 0x02 != 0 else b & 0x01 != 0
  }

  predicate BitAt(a: Block, i: nat)
    requires i < 128
  {
    Bit(a[i / 8], i % 8)
  }

  /** The element that a block stands for in LSB-first mode and in MSB-first mode. */
  function Lsb(a: Block): Poly { seq(128, i requires 0 <= i < 128 => BitAt(a, i)) }
  function Msb(a: Block): Poly { seq(128, i requires 0 <= i < 128 => BitAt(a, 127 - i)) }

  /** In LSB-first mode the coefficients start with the highest bit of the first byte, in
      MSB-first mode with the lowest bit of the last byte. */
  lemma BitOrders(a: Block, j: nat)
    requires j < 16
    ensures Lsb(a)[8 * j] == (a[j] & 0x80 != 0) && Lsb(a)[8 * j + 1] == (a[j] & 0x40 != 0)
    ensures Lsb(a)[8 * j + 2] == (a[j] & 0x20 != 0) && Lsb(a)[8 * j + 3] == (a[j] & 0x10 != 0)
    ensures Lsb(a)[8 * j + 4] == (a[j] & 0x08 != 0) && Lsb(a)[8 * j + 5] == (a[j] & 0x04 != 0)
    ensures Lsb(a)[8 * j + 6] == (a[j] & 0x02 != 0) && Lsb(a)[8 * j + 7] == (a[j] & 0x01 != 0)
    ensures forall i :: 0 <= i < 128 ==> Msb(a)[i] == Lsb(a)[127 - i]
  {
  }

  // ----- words -----

  datatype Words = Words(w0: bv32, w1: bv32, w2: bv32, w3: bv32)

  function ByteOf(w: bv32, k: nat): bv8
    requires k < 4
  {
    if k == 0 then (w & 0xff) as bv8 else if k == 1 then ((w >> 8) & 0xff) as bv8
    else if k == 2 then ((w >> 16) & 0xff) as bv8 else ((w >> 24) & 0xff) as bv8
  }

  /** The bytes of words in little-endian order, as the machine stores them, and in
      big-endian order, as they are after bsw_32. */
  function LittleBytes(w: bv32): seq<bv8> { [ByteOf(w, 0), ByteOf(w, 1), ByteOf(w, 2), ByteOf(w, 3)] }
  function BigBytes(w: bv32): seq<bv8> { [ByteOf(w, 3), ByteOf(w, 2), ByteOf(w, 1), ByteOf(w, 0)] }
  function Little(x: Words): Block { LittleBytes(x.w0) + LittleBytes(x.w1) + LittleBytes(x.w2) + LittleBytes(x.w3) }
  function Big(x: Words): Block { BigBytes(x.w0) + BigBytes(x.w1) + BigBytes(x.w2) + BigBytes(x.w3) }

  method LoadWord(a: bv8, b: bv8, c: bv8, d: bv8) returns (w: bv32)
    ensures LittleBytes(w) == [a, b, c, d]
  {
    w := (a as bv32) | ((b as bv32) << 8) | ((c as bv32) << 16) | ((d as bv32) << 24);
  }

  method Load(a: Block) returns (x: Words)
    ensures Little(x) == a
  {
    var w0 := LoadWord(a[0], a[1], a[2], a[3]);
    var w1 := LoadWord(a[4], a[5], a[6], a[7]);
    var w2 := LoadWord(a[8], a[9], a[10], a[11]);
    var w3 := LoadWord(a[12], a[13], a[14], a[15]);
    x := Words(w0, w1, w2, w3);
  }

  /** bswap_32 (line 102) */
  method SwapBytes(x: bv32) returns (r: bv32)
    ensures LittleBytes(r) == BigBytes(x) && BigBytes(r) == LittleBytes(x)
  {
    r := (((x >> 24) | (x << 8)) & 0x00ff00ff) | (((x >> 8) | (x << 24)) & 0xff00ff00);
  }

  /** bsw_32 of four words */
  method Swap(x: Words) returns (y: Words)
    ensures Big(y) == Little(x) && Little(y) == Big(x)
  {
    var w0 := SwapBytes(x.w0);
    var w1 := SwapBytes(x.w1);
    var w2 := SwapBytes(x.w2);
    var w3 := SwapBytes(x.w3);
    y := Words(w0, w1, w2, w3);
  }

  // ----- multiplication by x -----

  /** What a block becomes when its bits are shifted across bytes and reduced. */
  ghost predicate Shifted(a: Block, b: Block) {
    && b[0] == (a[0] >> 1) ^ (if a[15] & 1 == 1 then 0xe1 else 0)
    && forall k :: 1 <= k < 16 ==> b[k] == ShiftByte(a[k], a[k - 1])
  }

  /** A byte shifted by a bit, after the byte `c`. */
  function ShiftByte(b: bv8, c: bv8): bv8 { (b >> 1) | (c << 7) }

  /** Four bytes shifted by a bit, with the byte `c` before them. */
  function ShiftFour(s: seq<bv8>, c: bv8): seq<bv8>
    requires |s| == 4
  {
    seq(4, k requires 0 <= k < 4 => ShiftByte(s[k], if k == 0 then c else s[k - 1]))
  }

  function ShiftReduced(s: seq<bv8>, carry: bv8): seq<bv8>
    requires |s| == 4
  {
    ShiftFour(s, 0)[0 := (s[0] >> 1) ^ (if carry & 1 == 1 then 0xe1 else 0)]
  }

  lemma ShiftDisplay(s: seq<bv8>, c: bv8, r: seq<bv8>)
    requires |s| == 4 && r == [ShiftByte(s[0], c), ShiftByte(s[1], s[0]), ShiftByte(s[2], s[1]), ShiftByte(s[3], s[2])]
    ensures r == ShiftFour(s, c)
  {
  }

  lemma ReduceDisplay(s: seq<bv8>, carry: bv8, r: seq<bv8>)
    requires |s| == 4
    requires r == [(s[0] >> 1) ^ (if carry & 1 == 1 then 0xe1 else 0), ShiftByte(s[1], s[0]), ShiftByte(s[2], s[1]), ShiftByte(s[3], s[2])]
    ensures r == ShiftReduced(s, carry)
  {
  }

  method ShiftWord(v: bv32, u: bv32) returns (r: bv32)
    ensures BigBytes(r) == ShiftFour(BigBytes(v), BigBytes(u)[3])
  {
    r := (v >> 1) | (u << 31);
    ShiftDisplay(BigBytes(v), BigBytes(u)[3], BigBytes(r));
  }

  method ShiftFirst(v: bv32, last: bv32) returns (r: bv32)
    ensures BigBytes(r) == ShiftReduced(BigBytes(v), BigBytes(last)[3])
  {
    r := (v >> 1) ^ (if last & 1 == 1 then 0xe1000000 else 0);
    ReduceDisplay(BigBytes(v), BigBytes(last)[3], BigBytes(r));
  }

  lemma ShiftedBlock(s0: seq<bv8>, s1: seq<bv8>, s2: seq<bv8>, s3: seq<bv8>, a: Block, b: Block)
    requires |s0| == |s1| == |s2| == |s3| == 4 && a == s0 + s1 + s2 + s3
    requires b == ShiftReduced(s0, s3[3]) + ShiftFour(s1, s0[3]) + ShiftFour(s2, s1[3]) + ShiftFour(s3, s2[3])
    ensures Shifted(a, b)
  {
    forall k | 1 <= k < 4 ensures b[k] == ShiftByte(a[k], a[k - 1]) { assert b[k] == ShiftReduced(s0, s3[3])[k]; }
    ShiftedPart(s1, s0[3], a, b, 4);
    ShiftedPart(s2, s1[3], a, b, 8);
    ShiftedPart(s3, s2[3], a, b, 12);
  }

  lemma ShiftedPart(s: seq<bv8>, c: bv8, a: Block, b: Block, m: nat)
    requires |s| == 4 && 4 <= m <= 12 && a[m - 1] == c && a[m..m + 4] == s && b[m..m + 4] == ShiftFour(s, c)
    ensures forall k :: m <= k < m + 4 ==> b[k] == ShiftByte(a[k], a[k - 1])
  {
    forall k | m <= k < m + 4 ensures b[k] == ShiftByte(a[k], a[k - 1]) {
      assert b[k] == b[m..m + 4][k - m] && a[k] == s[k - m];
      if k > m { assert a[k - 1] == s[k - 1 - m]; }
    }
  }

  /** The shift of mul_x and of GfMul128 (lines 306-310, 404-407). */
  method ShiftWords(x: Words) returns (y: Words)
    ensures Shifted(Big(x), Big(y))
  {
    var w0 := ShiftFirst(x.w0, x.w3);
    var w1 := ShiftWord(x.w1, x.w0);
    var w2 := ShiftWord(x.w2, x.w1);
    var w3 := ShiftWord(x.w3, x.w2);
    y := Words(w0, w1, w2, w3);
    ShiftedBlock(BigBytes(x.w0), BigBytes(x.w1), BigBytes(x.w2), BigBytes(x.w3), Big(x), Big(y));
  }

  lemma ShiftBit(b: bv8, c: bv8, d: bv8, k: nat)
    requires k < 8 && d == ShiftByte(b, c)
    ensures Bit(d, k) <==> if k == 0 then Bit(c, 7) else Bit(b, k - 1)
  {
  }

  lemma FirstBit(b: bv8, carry: bool, k: nat)
    requires k < 8
    ensures Bit((b >> 1) ^ (if carry then 0xe1 else 0), k) <==>
            (k > 0 && Bit(b, k - 1)) != (carry && InModulus(k))
  {
  }

  lemma ShiftedBit(a: Block, b: Block, i: nat)
    requires Shifted(a, b) && i < 128
    ensures BitAt(b, i) == ((i > 0 && BitAt(a, i - 1)) != (BitAt(a, 127) && InModulus(i)))
  {
    if i < 8 { ShiftedFirst(a, b, i); } else { ShiftedRest(a, b, i / 8, i % 8); }
  }

  lemma ShiftedFirst(a: Block, b: Block, k: nat)
    requires Shifted(a, b) && k < 8
    ensures BitAt(b, k) == ((k > 0 && BitAt(a, k - 1)) != (BitAt(a, 127) && InModulus(k)))
  {
    FirstBit(a[0], a[15] & 1 == 1, k);
  }

  lemma ShiftedRest(a: Block, b: Block, q: nat, k: nat)
    requires Shifted(a, b) && 1 <= q < 16 && k < 8
    ensures BitAt(b, 8 * q + k) == BitAt(a, 8 * q + k - 1)
  {
    ShiftBit(a[q], a[q - 1], b[q], k);
  }

  lemma ShiftedMulX(a: Block, b: Block)
    requires Shifted(a, b)
    ensures Lsb(b) == MulX(Lsb(a))
  {
    forall i | 0 <= i < 128 ensures Lsb(b)[i] == MulX(Lsb(a))[i] { ShiftedBit(a, b, i); }
  }

  /** mul_x (lines 293-312) */
  method MulXBlock(a: Block) returns (r: Block)
    ensures Lsb(r) == MulX(Lsb(a))
  {
    var x := Load(a);
    x := Swap(x);
    var y := ShiftWords(x);
    ShiftedMulX(Big(x), Big(y));
    y := Swap(y);
    r := Little(y);
  }

  // ----- multiplication by x^8 -----

  /** The two bytes of the table entry for the overflow `i` (lines 260-268). */
  function TableLow(i: bv8): bv8 {
    (if i & 0x80 != 0 then 0xe1 else 0) ^ (if i & 0x40 != 0 then 0x70 else 0) ^
    (if i & 0x20 != 0 then 0x38 else 0) ^ (if i & 0x10 != 0 then 0x1c else 0) ^
    (if i & 0x08 != 0 then 0x0e else 0) ^ (if i & 0x04 != 0 then 0x07 else 0) ^
    (if i & 0x02 != 0 then 0x03 else 0) ^ (if i & 0x01 != 0 then 0x01 else 0)
  }

  function TableHigh(i: bv8): bv8 {
    (if i & 0x80 != 0 then 0x00 else 0) ^ (if i & 0x40 != 0 then 0x80 else 0) ^
    (if i & 0x20 != 0 then 0x40 else 0) ^ (if i & 0x10 != 0 then 0x20 else 0) ^
    (if i & 0x08 != 0 then 0x10 else 0) ^ (if i & 0x04 != 0 then 0x08 else 0) ^
    (if i & 0x02 != 0 then 0x84 else 0) ^ (if i & 0x01 != 0 then 0xc2 else 0)
  }

  /** What a block becomes when its bytes move up by one and the last is reduced. */
  ghost predicate Moved(a: Block, b: Block) {
    && b[0] == TableLow(a[15]) && b[1] == a[0] ^ TableHigh(a[15])
    && forall k :: 2 <= k < 16 ==> b[k] == a[k - 1]
  }

  function MoveFour(s: seq<bv8>, c: bv8): seq<bv8>
    requires |s| == 4
  {
    [c, s[0], s[1], s[2]]
  }

  function MoveReduced(s: seq<bv8>, low: bv8, high: bv8): seq<bv8>
    requires |s| == 4
  {
    [low, s[0] ^ high, s[1], s[2]]
  }

  lemma MovedBlock(s0: seq<bv8>, s1: seq<bv8>, s2: seq<bv8>, s3: seq<bv8>, a: Block, b: Block, low: bv8, high: bv8)
    requires |s0| == |s1| == |s2| == |s3| == 4 && a == s0 + s1 + s2 + s3
    requires b == MoveReduced(s0, low, high) + MoveFour(s1, s0[3]) + MoveFour(s2, s1[3]) + MoveFour(s3, s2[3])
    requires low == TableLow(s3[3]) && high == TableHigh(s3[3])
    ensures Moved(a, b)
  {
  }

  method TableEntry(t: bv8) returns (low: bv8, high: bv8)
    ensures low == TableLow(t) && high == TableHigh(t)
  {
    low, high := TableLow(t), TableHigh(t);
  }

  method MoveWord(v: bv32, u: bv32) returns (r: bv32)
    ensures LittleBytes(r) == MoveFour(LittleBytes(v), LittleBytes(u)[3])
  {
    r := (v << 8) | (u >> 24);
  }

  method MoveFirst(v: bv32, low: bv8, high: bv8) returns (r: bv32)
    ensures LittleBytes(r) == MoveReduced(LittleBytes(v), low, high)
  {
    r := (v << 8) ^ ((low as bv32) | ((high as bv32) << 8));
  }

  method LastByte(v: bv32) returns (t: bv8)
    ensures t == LittleBytes(v)[3]
  {
    t := (v >> 24) as bv8;
  }

  /** mul_lex8 (lines 344-350) */
  method MulX8Little(x: Words) returns (y: Words)
    ensures Moved(Little(x), Little(y))
  {
    var t := LastByte(x.w3);
    var low, high := TableEntry(t);
    var w0 := MoveFirst(x.w0, low, high);
    var w1 := MoveWord(x.w1, x.w0);
    var w2 := MoveWord(x.w2, x.w1);
    var w3 := MoveWord(x.w3, x.w2);
    y := Words(w0, w1, w2, w3);
    MovedBlock(LittleBytes(x.w0), LittleBytes(x.w1), LittleBytes(x.w2), LittleBytes(x.w3), Little(x), Little(y), low, high);
  }

  method MoveWordBig(v: bv32, u: bv32) returns (r: bv32)
    ensures BigBytes(r) == MoveFour(BigBytes(v), BigBytes(u)[3])
  {
    r := (v >> 8) | (u << 24);
  }

  method MoveFirstBig(v: bv32, low: bv8, high: bv8) returns (r: bv32)
    ensures BigBytes(r) == MoveReduced(BigBytes(v), low, high)
  {
    r := (v >> 8) ^ (((high as bv32) | ((low as bv32) << 8)) << 16);
  }

  method LastByteBig(v: bv32) returns (t: bv8)
    ensures t == BigBytes(v)[3]
  {
    t := (v & 0xff) as bv8;
  }

  /** mul_bex8 (lines 367-373) */
  method MulX8Big(x: Words) returns (y: Words)
    ensures Moved(Big(x), Big(y))
  {
    var t := LastByteBig(x.w3);
    var low, high := TableEntry(t);
    var w0 := MoveFirstBig(x.w0, low, high);
    var w1 := MoveWordBig(x.w1, x.w0);
    var w2 := MoveWordBig(x.w2, x.w1);
    var w3 := MoveWordBig(x.w3, x.w2);
    y := Words(w0, w1, w2, w3);
    MovedBlock(BigBytes(x.w0), BigBytes(x.w1), BigBytes(x.w2), BigBytes(x.w3), Big(x), Big(y), low, high);
  }

  /** The coefficients that leave at the top in `n` steps. */
  predicate Overflow(p: Poly, n: nat, m: int)
    requires n <= 8
  {
    0 <= m < n && p[128 - n + m]
  }

  /** A few multiplications by x at once. */
  lemma {:induction false} PowCoefficient(p: Poly, n: nat, i: nat)
    requires n <= 8 && i < 128
    ensures Pow(p, n)[i] == ((i >= n && p[i - n]) != (Overflow(p, n, i) != (Overflow(p, n, i - 1) != (Overflow(p, n, i - 2) != Overflow(p, n, i - 7)))))
    decreases n
  {
    if n > 0 {
      PowCoefficient(p, n - 1, 127);
      if i > 0 { PowCoefficient(p, n - 1, i - 1); }
    }
  }

  predicate TopBit(t: bv8, m: int) { 0 <= m < 8 && Bit(t, m) }

  /** The table holds the reductions of all overflows. */
  lemma TableLowBits(t: bv8, k: nat)
    requires k < 8
    ensures Bit(TableLow(t), k) <==> (TopBit(t, k) != (TopBit(t, k - 1) != (TopBit(t, k - 2) != TopBit(t, k - 7))))
  {
  }

  lemma TableHighBits(t: bv8, k: nat)
    requires k < 8
    ensures Bit(TableHigh(t), k) <==> (TopBit(t, k + 7) != (TopBit(t, k + 6) != TopBit(t, k + 1)))
  {
  }

  lemma XorBit(b: bv8, c: bv8, k: nat)
    requires k < 8
    ensures Bit(b ^ c, k) <==> Bit(b, k) != Bit(c, k)
  {
    if k == 0 {
    } else if k == 1 {
    } else if k == 2 {
    } else if k == 3 {
    } else if k == 4 {
    } else if k == 5 {
    } else if k == 6 {
    } else {
    }
  }

  /** A byte is determined by its bits. */
  lemma BitsDetermine(b: bv8, c: bv8)
    requires forall k :: 0 <= k < 8 ==> Bit(b, k) == Bit(c, k)
    ensures b == c
  {
    assert Bit(b, 0) == Bit(c, 0) && Bit(b, 1) == Bit(c, 1) && Bit(b, 2) == Bit(c, 2) && Bit(b, 3) == Bit(c, 3);
    assert Bit(b, 4) == Bit(c, 4) && Bit(b, 5) == Bit(c, 5) && Bit(b, 6) == Bit(c, 6) && Bit(b, 7) == Bit(c, 7);
  }

  lemma MovedBit(a: Block, b: Block, i: nat)
    requires Moved(a, b) && i < 128
    ensures BitAt(b, i) == Pow(Lsb(a), 8)[i]
  {
    PowCoefficient(Lsb(a), 8, i);
    if i < 8 { MovedFirst(a, b, i); } else if i < 16 { MovedSecond(a, b, i - 8); } else { MovedRest(a, b, i); }
  }

  lemma MovedRest(a: Block, b: Block, i: nat)
    requires Moved(a, b) && 16 <= i < 128
    ensures BitAt(b, i) == BitAt(a, i - 8)
  {
    assert b[i / 8] == a[i / 8 - 1];
  }

  lemma MovedFirst(a: Block, b: Block, k: nat)
    requires Moved(a, b) && k < 8
    ensures var p := Lsb(a);
            BitAt(b, k) == (Overflow(p, 8, k) != (Overflow(p, 8, k - 1) != (Overflow(p, 8, k - 2) != Overflow(p, 8, k - 7))))
  {
    OverflowByte(a, k); OverflowByte(a, k - 1); OverflowByte(a, k - 2); OverflowByte(a, k - 7);
    TableLowBits(a[15], k);
  }

  lemma MovedSecond(a: Block, b: Block, k: nat)
    requires Moved(a, b) && k < 8
    ensures var p := Lsb(a);
            BitAt(b, k + 8) == (BitAt(a, k) != (Overflow(p, 8, k + 7) != (Overflow(p, 8, k + 6) != Overflow(p, 8, k + 1))))
  {
    hide Overflow, TopBit, TableHigh;
    OverflowByte(a, k + 7); OverflowByte(a, k + 6); OverflowByte(a, k + 1);
    TableHighBits(a[15], k);
    XorBit(a[0], TableHigh(a[15]), k);
  }

  lemma OverflowByte(a: Block, m: int)
    ensures Overflow(Lsb(a), 8, m) == TopBit(a[15], m)
  {
  }

  lemma MovedPow(a: Block, b: Block)
    requires Moved(a, b)
    ensures Lsb(b) == Pow(Lsb(a), 8)
  {
    forall i | 0 <= i < 128 ensures Lsb(b)[i] == Pow(Lsb(a), 8)[i] { MovedBit(a, b, i); }
  }

  method MulX8Block(a: Block) returns (r: Block)
    ensures Lsb(r) == Pow(Lsb(a), 8)
  {
    var x := Load(a);
    var y := MulX8Little(x);
    MovedPow(Little(x), Little(y));
    r := Little(y);
  }
}
