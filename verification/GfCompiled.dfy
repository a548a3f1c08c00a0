/** Multiplication by a fixed element through compiled tables: compile_8k_table,
    GfMul128Tab, Gf128Tab64Init and Gf128MulBy64Tab of GfMul.c. */
module GfCompiled {
  import opened Field
  import opened GfMul
  import opened GfTables

  /** Row `i` of the 8k table multiplies the half byte that starts at x^Offset(i). */
  function Offset(i: nat): nat { 8 * (i / 2) + (if i % 2 == 1 then 0 else 4) }

  /** A row holds all multiples of `p` by half bytes. */
  ghost predicate Row(t: array2<Block>, i: nat, p: Poly)
    requires i < t.Length0 && t.Length1 == 16
    reads t
  {
    forall v {:trigger t[i, v]} :: 0 <= v < 16 ==> Lsb(t[i, v]) == Times(p, Bits4(v))
  }

  /** A row holds the multiples by powers of x. */
  ghost predicate Powers(t: array2<Block>, i: nat, p: Poly)
    requires i < t.Length0 && t.Length1 == 16
    reads t
  {
    && Lsb(t[i, 8]) == p && Lsb(t[i, 4]) == Pow(p, 1) && Lsb(t[i, 2]) == Pow(p, 2) && Lsb(t[i, 1]) == Pow(p, 3)
    && Lsb(t[i, 0]) == Zero()
  }

  ghost predicate Table(t: array2<Block>, key: Poly)
    requires t.Length0 == 32 && t.Length1 == 16
    reads t
  {
    forall i :: 0 <= i < 32 ==> Row(t, i, Pow(key, Offset(i)))
  }

  // ----- multiples by half bytes -----

  lemma PowerBits(p: Poly)
    ensures Times(p, Bits4(8)) == p && Times(p, Bits4(4)) == Pow(p, 1)
    ensures Times(p, Bits4(2)) == Pow(p, 2) && Times(p, Bits4(1)) == Pow(p, 3) && Times(p, Bits4(0)) == Zero()
  {
    TimesFalse(p, [false, false, false, false]);
    OneBit(p, 0, 3);
    OneBit(p, 1, 2);
    OneBit(p, 2, 1);
    OneBit(p, 3, 0);
    PowerDigits();
  }

  lemma PowerDigits()
    ensures Falses(0) + [true] + Falses(3) == Bits4(8) && Falses(1) + [true] + Falses(2) == Bits4(4)
    ensures Falses(2) + [true] + Falses(1) == Bits4(2) && Falses(3) + [true] + Falses(0) == Bits4(1)
    ensures [false, false, false, false] == Bits4(0)
  {
  }

  function Falses(n: nat): seq<bool> { seq(n, _ => false) }

  lemma OneBit(p: Poly, m: nat, n: nat)
    ensures Times(p, Falses(m) + [true] + Falses(n)) == Pow(p, m)
  {
    TimesFalse(p, Falses(m));
    TimesLast(p, Falses(m), true);
    TimesSplit(p, Falses(m) + [true], Falses(n));
    TimesFalse(Pow(p, m + 1), Falses(n));
    XorZero(Pow(p, m));
  }

  /** The entries for sums are the sums of entries. */
  lemma SumBits(p: Poly, j: nat, k: nat)
    requires (j == 2 || j == 4 || j == 8) && k < j
    ensures Times(p, Bits4(j + k)) == Xor(Times(p, Bits4(j)), Times(p, Bits4(k)))
  {
    TimesAdditive(p, Bits4(j), Bits4(k), Bits4(j + k));
  }

  // ----- compile_8k_table -----

  /** The rows 0 and 1 (lines 483-495). */
  method FirstPowers(a: Block, t: array2<Block>)
    requires t.Length0 == 32 && t.Length1 == 16
    requires Lsb(t[0, 0]) == Zero() && Lsb(t[1, 0]) == Zero()
    modifies t
    ensures Powers(t, 1, Lsb(a)) && Powers(t, 0, Pow(Lsb(a), 4))
    ensures forall i, v :: 2 <= i < 32 && 0 <= v < 16 ==> t[i, v] == old(t[i, v])
  {
    t[1, 8] := a;
    ThreePowers(t, 1);
    var next := MulXBlock(t[1, 1]);
    t[0, 8] := next;
    ThreePowers(t, 0);
  }

  /** The entries 4, 2 and 1 of a row. */
  method ThreePowers(t: array2<Block>, i: nat)
    requires i < t.Length0 && t.Length1 == 16 && Lsb(t[i, 0]) == Zero()
    modifies t
    ensures Powers(t, i, old(Lsb(t[i, 8])))
    ensures forall r, v :: 0 <= r < t.Length0 && 0 <= v < 16 && r != i ==> t[r, v] == old(t[r, v])
  {
    var next := MulXBlock(t[i, 8]);
    t[i, 4] := next;
    next := MulXBlock(t[i, 4]);
    t[i, 2] := next;
    next := MulXBlock(t[i, 2]);
    t[i, 1] := next;
  }

  /** A row from the row two before it (lines 498-502). */
  method NextPowers(t: array2<Block>, i: nat, ghost p: Poly)
    requires 2 <= i < t.Length0 && t.Length1 == 16 && Powers(t, i - 2, p) && Lsb(t[i, 0]) == Zero()
    modifies t
    ensures Powers(t, i, Pow(p, 8))
    ensures forall r, v :: 0 <= r < t.Length0 && 0 <= v < 16 && r != i ==> t[r, v] == old(t[r, v])
  {
    var b8 := MovedEntry(t[i - 2, 8], p, 0);
    var b4 := MovedEntry(t[i - 2, 4], p, 1);
    var b2 := MovedEntry(t[i - 2, 2], p, 2);
    var b1 := MovedEntry(t[i - 2, 1], p, 3);
    SetPowers(t, i, b8, b4, b2, b1);
  }

  method MovedEntry(b: Block, ghost p: Poly, ghost n: nat) returns (r: Block)
    requires Lsb(b) == Pow(p, n)
    ensures Lsb(r) == Pow(Pow(p, 8), n)
  {
    r := MulX8Block(b);
    PowAdd(p, n, 8);
    PowAdd(p, 8, n);
  }

  method SetPowers(t: array2<Block>, i: nat, b8: Block, b4: Block, b2: Block, b1: Block)
    requires i < t.Length0 && t.Length1 == 16
    modifies t
    ensures t[i, 8] == b8 && t[i, 4] == b4 && t[i, 2] == b2 && t[i, 1] == b1 && t[i, 0] == old(t[i, 0])
    ensures forall r, v :: 0 <= r < t.Length0 && 0 <= v < 16 && r != i ==> t[r, v] == old(t[r, v])
  {
    t[i, 8] := b8;
    t[i, 4] := b4;
    t[i, 2] := b2;
    t[i, 1] := b1;
  }

  method Add(a: Block, b: Block) returns (r: Block)
    ensures Lsb(r) == Xor(Lsb(a), Lsb(b)) && Msb(r) == Xor(Msb(a), Msb(b))
  {
    r := XorBlock(a, b);
    XorLsb(a, b);
    XorMsb(a, b);
  }

  /** The entry is the multiple by the half byte `v`. */
  ghost predicate Multiple(b: Block, p: Poly, v: nat) { Lsb(b) == Times(p, Bits4(v)) }

  method SumEntry(t: array2<Block>, i: nat, j: nat, k: nat, ghost p: Poly)
    requires i < t.Length0 && t.Length1 == 16 && (j == 2 || j == 4 || j == 8) && 1 <= k < j
    requires Multiple(t[i, j], p, j) && Multiple(t[i, k], p, k)
    modifies t
    ensures Multiple(t[i, j + k], p, j + k)
    ensures forall r, v :: 0 <= r < t.Length0 && 0 <= v < 16 && (r != i || v != j + k) ==> t[r, v] == old(t[r, v])
  {
    SumBits(p, j, k);
    var sum := Add(t[i, j], t[i, k]);
    t[i, j + k] := sum;
  }

  lemma PowerMultiples(t: array2<Block>, i: nat, p: Poly)
    requires i < t.Length0 && t.Length1 == 16 && Powers(t, i, p)
    ensures Multiple(t[i, 0], p, 0) && Multiple(t[i, 1], p, 1) && Multiple(t[i, 2], p, 2) && Multiple(t[i, 4], p, 4) && Multiple(t[i, 8], p, 8)
  {
    PowerBits(p);
  }

  /** The entries below `j` and the powers are there. */
  ghost predicate Partial(t: array2<Block>, i: nat, p: Poly, j: nat)
    requires i < t.Length0 && t.Length1 == 16
    reads t
  {
    && Powers(t, i, p)
    && forall v {:trigger t[i, v]} :: 0 <= v < j && v < 16 ==> Multiple(t[i, v], p, v)
  }

  /** The other entries of a row (lines 504-517). */
  method FillSums(t: array2<Block>, i: nat, ghost p: Poly)
    requires i < t.Length0 && t.Length1 == 16 && Powers(t, i, p)
    modifies t
    ensures Powers(t, i, p) && Row(t, i, p)
    ensures forall r, v :: 0 <= r < t.Length0 && 0 <= v < 16 && r != i ==> t[r, v] == old(t[r, v])
  {
    StartPartial(t, i, p);
    var j := 2;
    while j < 16
      invariant j == 2 || j == 4 || j == 8 || j == 16
      invariant Partial(t, i, p, j)
      invariant forall r, v :: 0 <= r < t.Length0 && 0 <= v < 16 && r != i ==> t[r, v] == old(t[r, v])
    {
      FillDouble(t, i, j, p);
      j := j + j;
    }
    FullRow(t, i, p);
  }

  lemma StartPartial(t: array2<Block>, i: nat, p: Poly)
    requires i < t.Length0 && t.Length1 == 16 && Powers(t, i, p)
    ensures Partial(t, i, p, 2)
  {
    PowerMultiples(t, i, p);
    forall v {:trigger t[i, v]} | 0 <= v < 2 ensures Multiple(t[i, v], p, v) { StartEntry(t, i, p, v); }
  }

  lemma StartEntry(t: array2<Block>, i: nat, p: Poly, v: nat)
    requires i < t.Length0 && t.Length1 == 16 && v < 2 && Multiple(t[i, 0], p, 0) && Multiple(t[i, 1], p, 1)
    ensures Multiple(t[i, v], p, v)
  {
    assert v == 0 || v == 1;
  }

  lemma FullRow(t: array2<Block>, i: nat, p: Poly)
    requires i < t.Length0 && t.Length1 == 16 && Partial(t, i, p, 16)
    ensures Row(t, i, p)
  {
    forall v {:trigger t[i, v]} | 0 <= v < 16 ensures Lsb(t[i, v]) == Times(p, Bits4(v)) { assert Multiple(t[i, v], p, v); }
  }

  method FillDouble(t: array2<Block>, i: nat, j: nat, ghost p: Poly)
    requires i < t.Length0 && t.Length1 == 16 && (j == 2 || j == 4 || j == 8) && Partial(t, i, p, j)
    modifies t
    ensures Partial(t, i, p, j + j)
    ensures forall r, v :: 0 <= r < t.Length0 && 0 <= v < 16 && r != i ==> t[r, v] == old(t[r, v])
  {
    PowerMultiples(t, i, p);
    SumsFrom(t, i, j, p);
    assert t[i, 8] == old(t[i, 8]) && t[i, 4] == old(t[i, 4]) && t[i, 2] == old(t[i, 2]) && t[i, 1] == old(t[i, 1]) && t[i, 0] == old(t[i, 0]);
  }

  /** The sums of entry `j` with the entries below it. */
  method SumsFrom(t: array2<Block>, i: nat, j: nat, ghost p: Poly)
    requires i < t.Length0 && t.Length1 == 16 && (j == 2 || j == 4 || j == 8)
    requires forall v {:trigger t[i, v]} :: 0 <= v <= j ==> Multiple(t[i, v], p, v)
    modifies t
    ensures forall v {:trigger t[i, v]} :: 0 <= v < j + j ==> Multiple(t[i, v], p, v)
    ensures forall r, v :: 0 <= r < t.Length0 && 0 <= v < 16 && (r != i || !(j < v < j + j)) ==> t[r, v] == old(t[r, v])
  {
    var k := 1;
    while k < j
      invariant 1 <= k <= j
      invariant forall v {:trigger t[i, v]} :: 0 <= v < j + k ==> Multiple(t[i, v], p, v)
      invariant forall r, v :: 0 <= r < t.Length0 && 0 <= v < 16 && (r != i || !(j < v < j + j)) ==> t[r, v] == old(t[r, v])
    {
      SumEntry(t, i, j, k, p);
      k := k + 1;
    }
  }

  /** The rows below `n` are complete; before row 1, its powers are. */
  ghost predicate RowsTo(t: array2<Block>, key: Poly, n: nat)
    requires t.Length0 == 32 && t.Length1 == 16 && n <= 32
    reads t
  {
    && (forall r {:trigger Offset(r)} :: 0 <= r < n ==> Row(t, r, Pow(key, Offset(r))) && Powers(t, r, Pow(key, Offset(r))))
    && (n == 1 ==> Powers(t, 1, key))
    && (forall r :: (if n == 1 then 2 else n) <= r < 32 ==> Lsb(t[r, 0]) == Zero())
  }

  /** One row (lines 481-517). */
  method NextRow(a: Block, t: array2<Block>, i: nat)
    requires t.Length0 == 32 && t.Length1 == 16 && i < 32 && RowsTo(t, Lsb(a), i)
    modifies t
    ensures RowsTo(t, Lsb(a), i + 1)
  {
    if i == 0 { FirstRow(a, t); } else { LaterRow(a, t, i); }
  }

  method FirstRow(a: Block, t: array2<Block>)
    requires t.Length0 == 32 && t.Length1 == 16 && RowsTo(t, Lsb(a), 0)
    modifies t
    ensures RowsTo(t, Lsb(a), 1)
  {
    FirstPowers(a, t);
    FillSums(t, 0, Pow(Lsb(a), Offset(0)));
  }

  method LaterRow(a: Block, t: array2<Block>, i: nat)
    requires t.Length0 == 32 && t.Length1 == 16 && 1 <= i < 32 && RowsTo(t, Lsb(a), i)
    modifies t
    ensures RowsTo(t, Lsb(a), i + 1)
  {
    if i > 1 {
      RowBefore(t, Lsb(a), i);
      LaterPowers(t, i, Lsb(a));
    }
    FillSums(t, i, Pow(Lsb(a), Offset(i)));
  }

  lemma RowBefore(t: array2<Block>, key: Poly, i: nat)
    requires t.Length0 == 32 && t.Length1 == 16 && 2 <= i < 32 && RowsTo(t, key, i)
    ensures Powers(t, i - 2, Pow(key, Offset(i - 2))) && Lsb(t[i, 0]) == Zero()
  {
  }

  lemma OffsetStep(key: Poly, i: nat)
    requires i >= 2
    ensures Pow(Pow(key, Offset(i - 2)), 8) == Pow(key, Offset(i))
  {
    PowAdd(key, Offset(i - 2), 8);
  }

  method LaterPowers(t: array2<Block>, i: nat, ghost key: Poly)
    requires t.Length0 == 32 && t.Length1 == 16 && 2 <= i < 32
    requires Powers(t, i - 2, Pow(key, Offset(i - 2))) && Lsb(t[i, 0]) == Zero()
    modifies t
    ensures Powers(t, i, Pow(key, Offset(i)))
    ensures forall r, v :: 0 <= r < t.Length0 && 0 <= v < 16 && r != i ==> t[r, v] == old(t[r, v])
  {
    OffsetStep(key, i);
    NextPowers(t, i, Pow(key, Offset(i - 2)));
  }

  method Clear(t: array2<Block>)
    modifies t
    ensures forall i, v :: 0 <= i < t.Length0 && 0 <= v < t.Length1 ==> Lsb(t[i, v]) == Zero()
  {
    ZeroCorrect();
    var zero := ZeroBlock();
    forall i, v | 0 <= i < t.Length0 && 0 <= v < t.Length1 { t[i, v] := zero; }
  }

  /** compile_8k_table (lines 475-519) */
  method CompileTable(a: Block, t: array2<Block>)
    requires t.Length0 == 32 && t.Length1 == 16
    modifies t
    ensures Table(t, Lsb(a))
  {
    Clear(t);
    var i := 0;
    while i < 32
      invariant 0 <= i <= 32 && RowsTo(t, Lsb(a), i)
    {
      NextRow(a, t, i);
      i := i + 1;
    }
    forall r | 0 <= r < 32 ensures Row(t, r, Pow(Lsb(a), Offset(r))) { }
  }

  // ----- GfMul128Tab -----

  /** The two entries for a byte make its multiple. */
  lemma ByteMultiple(t: array2<Block>, key: Poly, i: nat, b: bv8, high: nat, low: nat)
    requires t.Length0 == 32 && t.Length1 == 16 && Table(t, key) && i < 16
    requires high < 16 && low < 16 && Bits8(b) == Bits4(high) + Bits4(low)
    ensures Xor(Lsb(t[2 * i + 1, high]), Lsb(t[2 * i, low])) == Times(Pow(key, 8 * i), Bits8(b))
  {
    HalvesTimes(key, 8 * i, Bits8(b), Bits4(high), Bits4(low));
    assert Offset(2 * i) == 8 * i + 4 && Offset(2 * i + 1) == 8 * i;
    assert Row(t, 2 * i, Pow(key, Offset(2 * i))) && Row(t, 2 * i + 1, Pow(key, Offset(2 * i + 1)));
  }

  /** The two table entries for byte `i`. */
  method Lookup(t: array2<Block>, i: nat, b: bv8, ghost key: Poly) returns (low: Block, high: Block)
    requires t.Length0 == 32 && t.Length1 == 16 && Table(t, key) && i < 16
    ensures Xor(Lsb(high), Lsb(low)) == Times(Pow(key, 8 * i), Bits8(b))
  {
    var h, l := Halves(b);
    ByteMultiple(t, key, i, b, h, l);
    low := t[2 * i, l];
    high := t[2 * i + 1, h];
  }

  /** GfMul128Tab (lines 438-471) computes the product in LSB-first mode. */
  method MulTab(a: Block, t: array2<Block>, ghost key: Poly) returns (r: Block)
    requires t.Length0 == 32 && t.Length1 == 16 && Table(t, key)
    ensures Lsb(r) == Mul(Lsb(a), key)
  {
    hide Times, Table;
    var low, high := Lookup(t, 0, a[0], key);
    r := Add(low, high);
    XorComm(Lsb(low), Lsb(high));
    ByteSlice(a, 0);
    assert Lsb(a)[..0] + Bits8(a[0]) == Bits8(a[0]);
    var i := 1;
    while i < 16
      invariant 1 <= i <= 16 && Lsb(r) == Times(key, Lsb(a)[..8 * i])
    {
      low, high := Lookup(t, i, a[i], key);
      ByteSlice(a, i);
      TimesSplit(key, Lsb(a)[..8 * i], Bits8(a[i]));
      r := AddTwo(r, low, high);
      i := i + 1;
    }
    assert Lsb(a)[..128] == Lsb(a);
    MulCommutes(key, Lsb(a));
  }

  method AddTwo(r0: Block, low: Block, high: Block) returns (r: Block)
    ensures Lsb(r) == Xor(Lsb(r0), Xor(Lsb(high), Lsb(low)))
    ensures Msb(r) == Xor(Msb(r0), Xor(Msb(low), Msb(high)))
  {
    r := Add(r0, low);
    r := Add(r, high);
    XorAssoc(Lsb(r0), Lsb(low), Lsb(high));
    XorComm(Lsb(low), Lsb(high));
    XorAssoc(Msb(r0), Msb(low), Msb(high));
  }

  // ----- Gf128Tab64Init -----

  /** Row `m` of the MSB-first table, for the half bytes of a 64-bit operand. */
  function Offset64(m: nat): nat
    requires m < 16
  {
    8 * (7 - m / 2) + 4 * (m % 2)
  }

  /** The bits of a half byte, least significant first. */
  function Low4(v: nat): seq<bool> { [v % 2 == 1, v / 2 % 2 == 1, v / 4 % 2 == 1, v / 8 % 2 == 1] }

  ghost predicate Row64(g: array2<Block>, m: nat, key: Poly)
    requires m < 16 == g.Length0 && g.Length1 == 16
    reads g
  {
    forall v {:trigger g[m, v]} :: 0 <= v < 16 ==> Msb(g[m, v]) == Times(Pow(key, Offset64(m)), Low4(v))
  }

  ghost predicate Table64(g: array2<Block>, key: Poly)
    requires g.Length0 == 16 && g.Length1 == 16
    reads g
  {
    forall m :: 0 <= m < 16 ==> Row64(g, m, key)
  }

  /** `j` with its four bits reversed (lines 637-641). */
  function Reverse4(j: nat): (r: nat)
    requires j < 16
    ensures r < 16
  {
    8 * (j % 2) + 4 * (j / 2 % 2) + 2 * (j / 4 % 2) + j / 8
  }

  lemma ReverseBits(j: nat)
    requires j < 16
    ensures Low4(Reverse4(j)) == Bits4(j) && Reverse4(Reverse4(j)) == j
  {
    var a, b, c, d := j % 2, j / 2 % 2, j / 4 % 2, j / 8;
    assert j == 8 * d + 4 * c + 2 * b + a;
    FourDigits(a, b, c, d);
    FourDigits(d, c, b, a);
  }

  lemma FourDigits(a: nat, b: nat, c: nat, d: nat)
    requires a < 2 && b < 2 && c < 2 && d < 2
    ensures var j := 8 * d + 4 * c + 2 * b + a; j % 2 == a && j / 2 % 2 == b && j / 4 % 2 == c && j / 8 == j / 8 % 2 == d
  {
    var j := 8 * d + 4 * c + 2 * b + a;
    assert j / 2 == 4 * d + 2 * c + b;
    assert j / 4 == 2 * d + c;
    assert j / 8 == d;
  }

  /** A row of the table (lines 635-645). */
  method MirrorRow(t: array2<Block>, g: array2<Block>, m: nat, ghost key: Poly)
    requires t.Length0 == 32 && t.Length1 == 16 && g.Length0 == 16 == g.Length1 && m < 16 && t != g && Table(t, key)
    modifies g
    ensures Row64(g, m, key)
    ensures forall r, v :: 0 <= r < 16 && 0 <= v < 16 && r != m ==> g[r, v] == old(g[r, v])
  {
    hide Reverse4, Low4, Bits4, Times, Pow;
    ghost var p := Pow(key, Offset64(m));
    assert Offset(15 - m) == Offset64(m);
    assert Row(t, 15 - m, p);
    var j := 0;
    while j < 16
      invariant 0 <= j <= 16
      invariant forall v {:trigger g[m, v]} :: 0 <= v < 16 && Reverse4(v) < j ==> Msb(g[m, v]) == Times(p, Low4(v))
      invariant forall r, v :: 0 <= r < 16 && 0 <= v < 16 && r != m ==> g[r, v] == old(g[r, v])
    {
      var jm := Reverse4(j);
      ReverseBits(j);
      var entry := MirrorBits(t[15 - m, j]);
      g[m, jm] := entry;
      forall v {:trigger g[m, v]} | 0 <= v < 16 && Reverse4(v) < j + 1 ensures Msb(g[m, v]) == Times(p, Low4(v)) {
        if v == jm { assert Msb(entry) == Times(p, Low4(v)); } else { ReverseBits(v); }
      }
      j := j + 1;
    }
  }

  /** The next row of the table, after those below `m`. */
  method MirrorNext(t: array2<Block>, g: array2<Block>, m: nat, ghost key: Poly)
    requires t.Length0 == 32 && t.Length1 == 16 && g.Length0 == 16 == g.Length1 && m < 16 && t != g && Table(t, key)
    requires forall r :: 0 <= r < m ==> Row64(g, r, key)
    modifies g
    ensures forall r :: 0 <= r <= m ==> Row64(g, r, key)
  {
    MirrorRow(t, g, m, key);
    forall r | 0 <= r < m ensures Row64(g, r, key) {
      assert old(Row64(g, r, key));
      forall v {:trigger g[r, v]} | 0 <= v < 16 ensures Msb(g[r, v]) == Times(Pow(key, Offset64(r)), Low4(v)) {
        assert g[r, v] == old(g[r, v]);
      }
    }
  }

  /** Gf128Tab64Init (lines 618-652), when memory can be had */
  method Tab64Init(a: Block, g: array2<Block>)
    requires g.Length0 == 16 && g.Length1 == 16
    modifies g
    ensures Table64(g, Msb(a))
  {
    var t := new Block[32, 16];
    var am := MirrorBits(a);
    CompileTable(am, t);
    var i := 16;
    while i < 32
      invariant 16 <= i <= 32 && Table(t, Msb(a))
      invariant forall m :: 0 <= m < i - 16 ==> Row64(g, m, Msb(a))
    {
      MirrorNext(t, g, i - 16, Msb(a));
      i := i + 1;
    }
  }

  // ----- Gf128MulBy64Tab -----

  /** The bits of a 64-bit number in big-endian bytes, least significant first. */
  function Bits64(a: seq<bv8>): seq<bool>
    requires |a| == 8
  {
    seq(64, j requires 0 <= j < 64 => Bit(a[7 - j / 8], 7 - j % 8))
  }

  /** The bits of a byte, least significant first. */
  function Rev(b: bv8): (s: seq<bool>)
    ensures |s| == 8
  {
    seq(8, k requires 0 <= k < 8 => Bit(b, 7 - k))
  }

  lemma RevHalves(b: bv8, h: nat, l: nat)
    requires Bits8(b) == Bits4(h) + Bits4(l)
    ensures Rev(b) == Low4(l) + Low4(h)
  {
    RevDisplay(b, Bits8(b));
    ReverseHalves(h, l);
  }

  lemma RevDisplay(b: bv8, s: seq<bool>)
    requires s == Bits8(b)
    ensures Rev(b) == [s[7], s[6], s[5], s[4], s[3], s[2], s[1], s[0]]
  {
  }

  lemma ReverseHalves(h: nat, l: nat)
    ensures var s := Bits4(h) + Bits4(l); [s[7], s[6], s[5], s[4], s[3], s[2], s[1], s[0]] == Low4(l) + Low4(h)
  {
  }

  /** The multiple of byte `i` of the operand. */
  function Part(key: Poly, a: seq<bv8>, i: nat): Poly
    requires |a| == 8 && i < 8
  {
    Times(Pow(key, 8 * (7 - i)), Rev(a[i]))
  }

  method Entry64(g: array2<Block>, m: nat, v: nat, ghost key: Poly, ghost p: Poly) returns (b: Block)
    requires g.Length0 == 16 && g.Length1 == 16 && Table64(g, key) && m < 16 && v < 16 && p == Pow(key, Offset64(m))
    ensures Msb(b) == Times(p, Low4(v))
  {
    assert Row64(g, m, key);
    b := g[m, v];
  }

  lemma PartHalves(key: Poly, a: seq<bv8>, i: nat, h: nat, l: nat, p: Poly, q: Poly)
    requires |a| == 8 && i < 8 && Bits8(a[i]) == Bits4(h) + Bits4(l)
    requires p == Pow(key, Offset64(2 * i)) && q == Pow(key, Offset64(2 * i + 1))
    ensures Part(key, a, i) == Xor(Times(p, Low4(l)), Times(q, Low4(h)))
  {
    RevHalves(a[i], h, l);
    PartSplit(key, a, i, Low4(l), Low4(h));
  }

  lemma PartSplit(key: Poly, a: seq<bv8>, i: nat, low: seq<bool>, high: seq<bool>)
    requires |a| == 8 && i < 8 && |low| == 4 && Rev(a[i]) == low + high
    ensures Part(key, a, i) == Xor(Times(Pow(key, Offset64(2 * i)), low), Times(Pow(key, Offset64(2 * i + 1)), high))
  {
    assert Offset64(2 * i) == 8 * (7 - i) && Offset64(2 * i + 1) == 8 * (7 - i) + 4;
    HalvesTimes(key, 8 * (7 - i), Rev(a[i]), low, high);
  }

  lemma HalvesTimes(key: Poly, n: nat, s: seq<bool>, low: seq<bool>, high: seq<bool>)
    requires s == low + high && |low| == 4
    ensures Times(Pow(key, n), s) == Xor(Times(Pow(key, n), low), Times(Pow(key, n + 4), high))
  {
    TimesSplit(Pow(key, n), low, high);
    PowAdd(key, n, 4);
  }

  /** The two table entries for byte `i`. */
  method Lookup64(g: array2<Block>, a: seq<bv8>, i: nat, ghost key: Poly) returns (low: Block, high: Block)
    requires g.Length0 == 16 && g.Length1 == 16 && Table64(g, key) && |a| == 8 && i < 8
    ensures Xor(Msb(low), Msb(high)) == Part(key, a, i)
  {
    var h, l := Halves(a[i]);
    ghost var p, q := Pow(key, Offset64(2 * i)), Pow(key, Offset64(2 * i + 1));
    PartHalves(key, a, i, h, l, p, q);
    low := Entry64(g, 2 * i, l, key, p);
    high := Entry64(g, 2 * i + 1, h, key, q);
  }

  /** xor_8kt64 (lines 655-657) */
  method AddPart(r0: Block, g: array2<Block>, a: seq<bv8>, i: nat, ghost key: Poly) returns (r: Block)
    requires g.Length0 == 16 && g.Length1 == 16 && Table64(g, key) && |a| == 8 && i < 8
    ensures Msb(r) == Xor(Msb(r0), Part(key, a, i))
  {
    var low, high := Lookup64(g, a, i, key);
    r := AddTwo(r0, low, high);
  }

  /** The first part (lines 664-665). */
  method LastPart(g: array2<Block>, a: seq<bv8>, ghost key: Poly) returns (r: Block)
    requires g.Length0 == 16 && g.Length1 == 16 && Table64(g, key) && |a| == 8
    ensures Msb(r) == Part(key, a, 7)
  {
    var low, high := Lookup64(g, a, 7, key);
    r := Add(low, high);
  }

  /** A zero byte has nothing to add. */
  lemma ZeroPart(key: Poly, a: seq<bv8>, i: nat)
    requires |a| == 8 && i < 8 && a[i] == 0
    ensures Part(key, a, i) == Zero()
  {
    TimesFalse(Pow(key, 8 * (7 - i)), Rev(a[i]));
  }

  function Sum(p: Poly, q: Poly, r: Poly, s: Poly): Poly { Xor(Xor(Xor(p, q), r), s) }

  /** The sum of the parts of the last `m` bytes. */
  ghost function Parts(key: Poly, a: seq<bv8>, m: nat): Poly
    requires |a| == 8 && m <= 8
  {
    if m == 0 then Zero() else Xor(Parts(key, a, m - 1), Part(key, a, 8 - m))
  }

  lemma {:induction false} PartsTimes(key: Poly, a: seq<bv8>, m: nat)
    requires |a| == 8 && m <= 8
    ensures Parts(key, a, m) == Times(key, Bits64(a)[..8 * m])
  {
    if m > 0 {
      PartsTimes(key, a, m - 1);
      Prefix64(key, a, m - 1);
    }
  }

  lemma ThreeParts(key: Poly, a: seq<bv8>, m: nat)
    requires |a| == 8 && m <= 5
    ensures Parts(key, a, m + 3) == Sum(Parts(key, a, m), Part(key, a, 7 - m), Part(key, a, 6 - m), Part(key, a, 5 - m))
  {
    assert Parts(key, a, m + 2) == Xor(Parts(key, a, m + 1), Part(key, a, 6 - m));
  }

  /** The parts in the order of the program are the product. */
  lemma AllParts(key: Poly, a: seq<bv8>)
    requires |a| == 8
    ensures Xor(Sum(Sum(Part(key, a, 7), Part(key, a, 0), Part(key, a, 1), Part(key, a, 2)),
                    Part(key, a, 3), Part(key, a, 4), Part(key, a, 5)), Part(key, a, 6)) == Times(key, Bits64(a))
  {
    PartsTimes(key, a, 8);
    assert Bits64(a)[..64] == Bits64(a);
    XorZero(Part(key, a, 7));
    assert Parts(key, a, 0) == Zero() && Parts(key, a, 1) == Part(key, a, 7);
    ThreeParts(key, a, 1);
    ThreeParts(key, a, 4);
    Reorder(Part(key, a, 7), Part(key, a, 6), Part(key, a, 5), Part(key, a, 4), Part(key, a, 3), Part(key, a, 2), Part(key, a, 1), Part(key, a, 0));
  }

  lemma Prefix64(key: Poly, a: seq<bv8>, m: nat)
    requires |a| == 8 && m < 8
    ensures Times(key, Bits64(a)[..8 * m + 8]) == Xor(Times(key, Bits64(a)[..8 * m]), Part(key, a, 7 - m))
  {
    Slice64(a, m);
    TimesSplit(key, Bits64(a)[..8 * m], Rev(a[7 - m]));
  }

  lemma RevAt(a: seq<bv8>, m: nat, k: nat)
    requires |a| == 8 && m < 8 && k < 8
    ensures Bits64(a)[8 * m + k] == Rev(a[7 - m])[k]
  {
    var j := 8 * m + k;
    assert j / 8 == m && j % 8 == k;
  }

  lemma Slice64(a: seq<bv8>, m: nat)
    requires |a| == 8 && m < 8
    ensures Bits64(a)[..8 * m + 8] == Bits64(a)[..8 * m] + Rev(a[7 - m])
  {
    var s, r := Bits64(a), Rev(a[7 - m]);
    forall k | 0 <= k < 8 ensures s[8 * m..8 * m + 8][k] == r[k] { RevAt(a, m, k); }
    assert s[8 * m..8 * m + 8] == r;
    Slices(s, 8 * m, 8 * m + 8);
  }

  lemma Reorder(p7: Poly, p6: Poly, p5: Poly, p4: Poly, p3: Poly, p2: Poly, p1: Poly, p0: Poly)
    ensures Xor(Sum(Sum(p7, p0, p1, p2), p3, p4, p5), p6) == Xor(Sum(Sum(p7, p6, p5, p4), p3, p2, p1), p0)
  {
  }

  /** Gf128MulBy64Tab (lines 660-682) multiplies by a 64-bit operand; bytes that are
      zero may be skipped. */
  method MulBy64Tab(a: seq<bv8>, g: array2<Block>, ghost key: Poly) returns (p: Block)
    requires |a| == 8 && g.Length0 == 16 && g.Length1 == 16 && Table64(g, key)
    ensures Msb(p) == Times(key, Bits64(a))
  {
    var r := LastPart(g, a, key);
    r := AddFirst(r, g, a, key);
    r := AddPart(r, g, a, 3, key);
    r := AddPart(r, g, a, 4, key);
    r := AddPart(r, g, a, 5, key);
    r := AddPart(r, g, a, 6, key);
    AllParts(key, a);
    p := r;
  }

  /** The bytes that may be skipped (lines 667-675). */
  method AddFirst(r0: Block, g: array2<Block>, a: seq<bv8>, ghost key: Poly) returns (r: Block)
    requires |a| == 8 && g.Length0 == 16 && g.Length1 == 16 && Table64(g, key)
    ensures Msb(r) == Sum(Msb(r0), Part(key, a, 0), Part(key, a, 1), Part(key, a, 2))
  {
    r := r0;
    if a[0] != 0 || a[1] != 0 {
      r := AddPart(r, g, a, 0, key);
      r := AddPart(r, g, a, 1, key);
    } else {
      ZeroPart(key, a, 0);
      ZeroPart(key, a, 1);
      XorZero(Msb(r));
    }
    if a[2] != 0 {
      r := AddPart(r, g, a, 2, key);
    } else {
      ZeroPart(key, a, 2);
      XorZero(Msb(r));
    }
  }

  // ----- the self-test -----

  /** A block whose upper half is zero. */
  function Extend(a: seq<bv8>): Block
    requires |a| == 8
  {
    seq(8, _ => 0) + a
  }

  lemma ExtendBit(a: seq<bv8>, j: nat)
    requires |a| == 8 && j < 128
    ensures Msb(Extend(a))[j] == (j < 64 && Bits64(a)[j])
  {
    var q, k := (127 - j) / 8, (127 - j) % 8;
    if q < 8 {
      assert Extend(a)[q] == 0 && !Bit(0, k);
    } else {
      assert Extend(a)[q] == a[q - 8] && 7 - j / 8 == q - 8;
    }
  }

  /** The product by a 64-bit operand is the product of the field. */
  lemma ExtendTimes(key: Poly, a: seq<bv8>)
    requires |a| == 8
    ensures Times(key, Bits64(a)) == Mul(key, Msb(Extend(a)))
  {
    var b := Bits64(a);
    var zeros := seq(64, _ => false);
    forall j | 0 <= j < 128 ensures Msb(Extend(a))[j] == (b + zeros)[j] { ExtendBit(a, j); }
    assert Msb(Extend(a)) == b + zeros;
    TimesSplit(key, b, zeros);
    TimesFalse(Pow(key, 64), zeros);
    XorZero(Times(key, b));
  }

  /** An element is stored in one way only. */
  lemma MsbInjective(a: Block, b: Block)
    requires Msb(a) == Msb(b)
    ensures a == b
  {
    forall q | 0 <= q < 16 ensures a[q] == b[q] {
      forall k | 0 <= k < 8 ensures Bit(a[q], k) == Bit(b[q], k) {
        var i := 8 * q + k;
        assert Msb(a)[127 - i] == BitAt(a, i) && Msb(b)[127 - i] == BitAt(b, i);
      }
      BitsDetermine(a[q], b[q]);
    }
  }

  /** The comparison of GfMulSelfTest (lines 753-759), for all operands. */
  method SelfTest(a: Block, b: seq<bv8>) returns (result: bool)
    requires |b| == 8
    ensures result
  {
    var g := new Block[16, 16];
    var p1 := MulBasic(a, Extend(b));
    Tab64Init(a, g);
    var p2 := MulBy64Tab(b, g, Msb(a));
    result := p1 == p2;
    ExtendTimes(Msb(a), b);
    MsbInjective(p1, p2);
  }

  /** GfMul128 and GfMul128Tab, which work in LSB-first mode, compute the mirrored product
      of mirrored operands, for all operands. */
  method MirroredProducts(a: Block, b: Block) returns (plain: Block, direct: Block, tabled: Block)
    ensures Msb(plain) == Mul(Msb(a), Msb(b))
    ensures direct == plain && tabled == plain
  {
    plain := MulBasic(a, b);
    var am := MirrorBits(a);
    var bm := MirrorBits(b);
    var product := MulLsb(am, bm);
    direct := MirrorBits(product);
    MsbInjective(direct, plain);
    var t := new Block[32, 16];
    CompileTable(bm, t);
    product := MulTab(am, t, Lsb(bm));
    tabled := MirrorBits(product);
    MsbInjective(tabled, plain);
  }
}
