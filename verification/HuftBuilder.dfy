/** huft_build: from a list of code lengths to decoding tables. The scratch arrays of
    the program are sequence variables; `NextCode`, `Count` and `EndCode` say what
    the counters in them must be. */
module HuftBuilder {
  import opened Bits
  import opened Division
  import opened Huffman
  import opened HuftTables
  import opened HuftWalk

  /** How many symbols have shorter codes: offsets into the value table. */
  function Off(b: seq<nat>, len: nat): nat {
    if len <= 1 then 0 else Off(b, len - 1) + Count(b, len - 1)
  }

  lemma {:induction false} OffMonotone(b: seq<nat>, len: nat, more: nat)
    requires 1 <= len < more
    ensures Off(b, len) + Count(b, len) <= Off(b, more)
  {
    if len + 1 < more { OffMonotone(b, len, more - 1); }
  }

  /** Counts for each bit length (lines 1121-1125). */
  method CountLengths(b: seq<nat>) returns (c: seq<nat>)
    requires b != [] && Bounded(b)
    ensures |c| == BMAX + 1 && forall len {:trigger c[len]} :: 0 <= len <= BMAX ==> c[len] == Count(b, len)
  {
    c := seq(BMAX + 1, _ => 0);
    var i := 0;
    while i < |b|
      invariant i <= |b| && |c| == BMAX + 1
      invariant forall len :: 0 <= len <= BMAX ==> c[len] == Count(b[..i], len)
    {
      forall len: nat ensures Count(b[..i + 1], len) == Count(b[..i], len) + (if b[i] == len then 1 else 0) {
        CountSplit(b, i, len);
      }
      c := c[b[i] := c[b[i]] + 1];
      i := i + 1;
    }
    assert b[..i] == b;
  }

  lemma {:induction false} AllZeroCount(b: seq<nat>)
    ensures Count(b, 0) == |b| <==> AllZero(b)
  {
    if b != [] {
      var t := b[..|b| - 1];
      AllZeroCount(t);
      CountSplit(t, 0, 0);
      CountBound(t, 0);
      if AllZero(b) { assert AllZero(t); }
      if AllZero(t) && b[|t|] == 0 {
        forall i | 0 <= i < |b| ensures b[i] == 0 { if i < |t| { assert b[i] == t[i]; } }
      }
    }
  }

  lemma {:induction false} CountBound(b: seq<nat>, len: nat)
    ensures Count(b, len) <= |b|
  {
    if b != [] { CountBound(b[..|b| - 1], len); }
  }

  /** Minimum and maximum length (lines 1135-1145). */
  method Range(b: seq<nat>, c: seq<nat>) returns (k: nat, g: nat)
    requires Bounded(b) && !AllZero(b)
    requires |c| == BMAX + 1 && forall len {:trigger c[len]} :: 0 <= len <= BMAX ==> c[len] == Count(b, len)
    ensures 1 <= k <= g <= BMAX && IsMaxLen(b, g)
    ensures c[k] > 0 && c[g] > 0 && forall len :: 1 <= len < k ==> c[len] == 0
    ensures forall len :: g < len <= BMAX ==> c[len] == 0
  {
    forall len: nat ensures Count(b, len) > 0 <==> len in b { CountPositive(b, len); }
    var s :| 0 <= s < |b| && b[s] != 0;
    assert b[s] in b;
    k := 1;
    while k <= BMAX
      invariant 1 <= k <= BMAX + 1 && k <= b[s]
      invariant forall len :: 1 <= len < k ==> c[len] == 0
    {
      if c[k] != 0 { break; }
      assert k != b[s];
      k := k + 1;
    }
    g := BMAX;
    while g != 0
      invariant k <= b[s] <= g <= BMAX && c[k] > 0
      invariant forall len :: g < len <= BMAX ==> c[len] == 0
    {
      if c[g] != 0 { break; }
      assert g != b[s];
      g := g - 1;
    }
    forall i | 0 <= i < |b| ensures b[i] <= g {
      assert b[i] in b;
      assert c[b[i]] == Count(b, b[i]) > 0;
    }
  }

  /** Unused codes, or none if there are too many of some length (lines 1150-1155). */
  method Spare(b: seq<nat>, c: seq<nat>, k: nat, g: nat) returns (y: int)
    requires Bounded(b) && 1 <= k <= g <= BMAX && IsMaxLen(b, g)
    requires |c| == BMAX + 1 && forall len {:trigger c[len]} :: 0 <= len <= BMAX ==> c[len] == Count(b, len)
    requires c[k] > 0 && c[g] > 0 && forall len :: 1 <= len < k ==> c[len] == 0
    requires forall len :: g < len <= BMAX ==> c[len] == 0
    ensures y < 0 <==> Oversubscribed(b)
    ensures y >= 0 ==> y == Pow2(g) - EndCode(b, g)
  {
    forall len | 1 <= len < k ensures Count(b, len) == 0 { assert c[len] == 0; }
    NoShortCodes(b, k);
    y := Pow2(k);
    var j := k;
    while j < g
      invariant k <= j <= g && y == Pow2(j) - NextCode(b, j)
      invariant forall len :: k <= len < j ==> Fits(b, len)
    {
      assert c[j] == Count(b, j);
      y := y - c[j];
      if y < 0 {
        assert !Fits(b, j);
        return;
      }
      j := j + 1;
      y := 2 * y;
    }
    assert c[g] == Count(b, g);
    y := y - c[g];
    if y < 0 {
      assert !Fits(b, g);
      return;
    }
    forall len | 1 <= len <= BMAX ensures Fits(b, len) {
      if len > g {
        TailFits(b, c, g, len);
      } else if len < k {
        NoShortCodes(b, len);
      }
    }
  }

  lemma {:induction false} TailFits(b: seq<nat>, c: seq<nat>, g: nat, len: nat)
    requires 1 <= g <= len <= BMAX && EndCode(b, g) <= Pow2(g)
    requires |c| == BMAX + 1 && forall i {:trigger c[i]} :: 0 <= i <= BMAX ==> c[i] == Count(b, i)
    requires forall i :: g < i <= BMAX ==> c[i] == 0
    ensures EndCode(b, len) <= Pow2(len)
  {
    if len > g {
      TailFits(b, c, g, len - 1);
      assert Count(b, len) == c[len] == 0;
    }
  }

  /** Before the greatest length there is always a code left. */
  lemma RoomLeft(b: seq<nat>, g: nat, len: nat)
    requires 1 <= len < g && EndCode(b, g) <= Pow2(g) && Count(b, g) > 0
    ensures Room(b, len)
  {
    NextCodeGrows(b, len, g);
    Pow2Add(len, g - len);
    Cancel(EndCode(b, len), Pow2(len), Pow2(g - len));
  }

  /** Every symbol at its place in the order of codes. */
  ghost predicate Sorted(b: seq<nat>, v: seq<nat>, n: nat)
    requires n <= |b|
  {
    forall i {:trigger Rank(b, i)} :: 0 <= i < n && b[i] != 0 ==>
      Off(b, b[i]) + Rank(b, i) < |v| && v[Off(b, b[i]) + Rank(b, i)] == i
  }

  /** Starting offsets into the value table for each length (lines 1159-1163). */
  method Offsets(b: seq<nat>, c: seq<nat>, g: nat) returns (x: seq<nat>)
    requires 1 <= g <= BMAX
    requires |c| == BMAX + 1 && forall len {:trigger c[len]} :: 0 <= len < g ==> c[len] == Count(b, len)
    ensures |x| == BMAX + 1 && forall len :: 1 <= len <= g ==> x[len] == Off(b, len)
  {
    x := seq(BMAX + 1, _ => 0);
    var j, l := 0, 1;
    while l < g
      invariant 1 <= l <= g && |x| == BMAX + 1 && j == Off(b, l)
      invariant forall len :: 1 <= len <= l ==> x[len] == Off(b, len)
    {
      j := j + c[l];
      l := l + 1;
      x := x[l := j];
    }
  }

  /** A table of values in order of bit lengths (lines 1167-1173); `x` ends as the
      offsets past each length. */
  method SortValues(b: seq<nat>, offsets: seq<nat>, g: nat) returns (v: seq<nat>, x: seq<nat>)
    requires Bounded(b) && 1 <= g <= BMAX && IsMaxLen(b, g)
    requires |offsets| == BMAX + 1 && forall len :: 1 <= len <= g ==> offsets[len] == Off(b, len)
    requires Off(b, g) + Count(b, g) <= 288
    ensures |x| == BMAX + 1 && x[g] == Off(b, g) + Count(b, g)
    ensures |v| == 288 && Sorted(b, v, |b|)
  {
    x := offsets;
    v := seq(288, _ => 0);
    var i := 0;
    while i < |b|
      invariant i <= |b| && Placed(b, g, v, x, i)
    {
      var len := b[i];
      PlaceStep(b, g, v, x, i);
      if len != 0 {
        v := v[x[len] := i];
        x := x[len := x[len] + 1];
      }
      i := i + 1;
    }
    assert b[..i] == b;
  }

  /** The first `i` symbols are in place and `x` points past them. */
  ghost predicate Placed(b: seq<nat>, g: nat, v: seq<nat>, x: seq<nat>, i: nat)
    requires i <= |b| && g <= BMAX
  {
    && |v| == 288 && |x| == BMAX + 1 && Sorted(b, v, i)
    && forall len :: 1 <= len <= g ==> x[len] == Off(b, len) + Count(b[..i], len)
  }

  lemma PlaceStep(b: seq<nat>, g: nat, v: seq<nat>, x: seq<nat>, i: nat)
    requires i < |b| && g <= BMAX && b[i] <= g && Placed(b, g, v, x, i)
    requires Off(b, g) + Count(b, g) <= 288
    ensures b[i] != 0 ==> x[b[i]] < 288 && Placed(b, g, v[x[b[i]] := i], x[b[i] := x[b[i]] + 1], i + 1)
    ensures b[i] == 0 ==> Placed(b, g, v, x, i + 1)
  {
    CountNext(b, i);
    if b[i] != 0 { PlaceOf(b, v, i, g); }
  }

  lemma CountNext(b: seq<nat>, i: nat)
    requires i < |b|
    ensures Count(b[..i], b[i]) == Rank(b, i)
    ensures forall len: nat :: Count(b[..i + 1], len) == Count(b[..i], len) + (if b[i] == len then 1 else 0)
  {
    forall len: nat ensures Count(b[..i + 1], len) == Count(b[..i], len) + (if b[i] == len then 1 else 0) {
      CountSplit(b, i, len);
    }
  }

  /** The place of a symbol is in range and not yet taken. */
  lemma PlaceOf(b: seq<nat>, v: seq<nat>, i: nat, g: nat)
    requires i < |b| && 0 < b[i] <= g && Sorted(b, v, i) && |v| == 288
    requires Off(b, g) + Count(b, g) <= 288
    ensures Off(b, b[i]) + Rank(b, i) < 288
    ensures Sorted(b, v[Off(b, b[i]) + Rank(b, i) := i], i + 1)
  {
    RankBound(b, i);
    if b[i] < g { OffMonotone(b, b[i], g); }
    forall t | 0 <= t < i && b[t] != 0 ensures Off(b, b[t]) + Rank(b, t) != Off(b, b[i]) + Rank(b, i) {
      PlacesDiffer(b, t, i);
    }
  }

  lemma PlacesDiffer(b: seq<nat>, s: nat, t: nat)
    requires s < t < |b| && b[s] != 0 && b[t] != 0
    ensures Off(b, b[s]) + Rank(b, s) != Off(b, b[t]) + Rank(b, t)
  {
    RankBound(b, s);
    RankBound(b, t);
    if b[s] == b[t] {
      RankInjective(b, s, t);
    } else if b[s] < b[t] {
      OffMonotone(b, b[s], b[t]);
    } else {
      OffMonotone(b, b[t], b[s]);
    }
  }

  /** There are no more values than symbols. */
  lemma {:induction false} OffBound(b: seq<nat>, len: nat)
    requires len >= 1
    ensures Off(b, len) + Count(b, len) <= |b|
  {
    if b != [] {
      var t := b[..|b| - 1];
      OffBound(t, len);
      OffStep(b, len);
    } else {
      OffEmpty(len);
    }
  }

  lemma {:induction false} OffEmpty(len: nat)
    ensures Off([], len) == 0
  {
    if len > 1 { OffEmpty(len - 1); }
  }

  lemma {:induction false} OffStep(b: seq<nat>, len: nat)
    requires b != [] && len >= 1
    ensures Off(b, len) == Off(b[..|b| - 1], len) + (if 1 <= b[|b| - 1] < len then 1 else 0)
  {
    if len > 1 { OffStep(b, len - 1); }
  }

  /** How far beyond a symbol the tables may look, given the requested size. */
  function Slack(m: nat): nat { if m <= 9 then 8 else m - 1 }

  /** The width of the next table (lines 1199-1214). The program stops growing the
      table when `j` reaches the limit `z`, but it also adds a bit when the limit was
      reached to begin with. */
  method TableBits(b: seq<nat>, c: seq<nat>, k: nat, k0: nat, w: nat, g: nat, m: nat, a: nat, el: nat, ghost slack: nat)
    returns (j: nat)
    requires 1 <= k0 <= k <= g <= BMAX && w < k && k0 <= m <= g && el <= BMAX
    requires |c| == BMAX + 1 && slack >= 8 && (m <= slack + 1 || m == k0)
    requires w == 0 || w >= k0
    requires w < el ==> k0 <= el
    requires w == 0 ==> k == k0 && a + 1 == c[k] && FirstTable(b, c, k0, g)
    ensures 1 <= j <= 16 && w + j <= k + slack && (w < el ==> w + j <= el)
    ensures w == 0 ==> j >= k0
    ensures w == 0 && m == g && el == BMAX ==> j == g
  {
    var z := if g - w > m then m else g - w;
    j := k - w;
    var f := Pow2(j);
    assert w == 0 && k < g ==> c[k] == Count(b, k) && Room(b, k);
    if f > a + 1 {
      f := f - (a + 1);
      j := j + 1;
      while j < z
        invariant k - w + 1 <= j && (j <= z || j == k - w + 1) && f > 0
        invariant w == 0 && j <= g ==> f == Pow2(j - 1) - EndCode(b, j - 1)
      {
        f := 2 * f;
        assert w == 0 && j < g ==> c[j] == Count(b, j) && Room(b, j);
        if f <= c[w + j] { break; }
        f := f - c[w + j];
        j := j + 1;
      }
    }
    if w + j > el && w < el { j := el - w; }
  }

  predicate Room(b: seq<nat>, len: nat) { EndCode(b, len) < Pow2(len) }

  /** What the code counts are when the first table is made. */
  ghost predicate FirstTable(b: seq<nat>, c: seq<nat>, k0: nat, g: nat) {
    && 1 <= k0 <= g <= BMAX && |c| == BMAX + 1
    && NextCode(b, k0) == 0
    && (forall len {:trigger c[len]} :: 0 <= len < g ==> c[len] == Count(b, len))
    && NextCode(b, g) + c[g] == Pow2(g)
    && (forall len :: k0 <= len < g ==> Room(b, len))
  }

  /** Replicate an entry (lines 1258-1260). */
  method FillTable(table: seq<Huft>, first: nat, f: nat, r: Huft, ghost n: nat, ghost tail: seq<bool>)
    returns (q: seq<Huft>)
    requires |table| == Pow2(n) && |tail| <= n && f == Pow2(|tail|) && first == Val(tail)
    ensures Filled(table, q, n, tail, r)
  {
    q := table;
    var j := first;
    while j < |table|
      invariant |q| == |table| && first <= j && (j - first) % f == 0
      invariant forall t :: 0 <= t < |q| ==> q[t] == if first <= t < j && (t - first) % f == 0 then r else table[t]
    {
      q := q[j := r];
      StepBy(j - first, f);
      j := j + f;
    }
    forall p: seq<bool> {:trigger Val(p)} | |p| == n ensures q[Val(p)] == if tail <= p then r else table[Val(p)] {
      TailIndex(p, tail);
    }
  }

  /** Multiples of `f` are `f` apart. */
  lemma StepBy(d: nat, f: nat)
    requires f > 0 && d % f == 0
    ensures (d + f) % f == 0
    ensures forall t :: d < t < d + f ==> t % f != 0
  {
    var q := d / f;
    assert d == f * q;
    assert d + f == f * (q + 1);
    Euclid(d + f, 0, f, q + 1);
    forall t | d < t < d + f ensures t % f != 0 {
      Euclid(t, t - d, f, q);
    }
  }

  /** A pattern starts with `tail` exactly if its index is `Val(tail)` plus a multiple
      of the number of such patterns apart. */
  lemma TailIndex(p: seq<bool>, tail: seq<bool>)
    requires |tail| <= |p|
    ensures tail <= p <==> Val(p) >= Val(tail) && (Val(p) - Val(tail)) % Pow2(|tail|) == 0
  {
    var n := |tail|;
    ValSplit(p, n);
    if p[..n] == tail {
      Euclid(Val(p) - Val(tail), 0, Pow2(n), Val(p[n..]));
    } else {
      if Val(p[..n]) == Val(tail) { ValInjective(p[..n], tail); }
      if Val(p) >= Val(tail) { Residue(Val(p), Val(tail), Pow2(n)); }
    }
  }

  lemma Residue(x: nat, r: nat, f: nat)
    requires r < f && r <= x
    ensures (x - r) % f == 0 ==> x % f == r
  {
    if (x - r) % f == 0 {
      var m := (x - r) / f;
      assert x - r == f * m;
      Euclid(x, r, f, m);
    }
  }

  /** Backwards increment of the `k`-bit code `i` (lines 1263-1266). */
  method BackwardIncrement(i: nat, k: nat, ghost code: seq<bool>) returns (r: nat)
    requires |code| == k >= 1 && i == Val(code)
    ensures r == Val(Inc(code))
  {
    r := i;
    var j := Pow2(k - 1);
    ghost var c := code;       // the bits not yet cleared
    while j > 0 && (r / j) % 2 == 1
      invariant |c| <= k && r == Val(c) && Val(Inc(code)) == Val(Inc(c))
      invariant j == if c == [] then 0 else Pow2(|c| - 1)
      decreases |c|
    {
      TopBit(c);
      IncTop(c);
      r := r - j;
      j := j / 2;
      c := c[..|c| - 1];
    }
    if c != [] {
      TopBit(c);
      IncTop(c);
    }
    r := r + j;
  }

  /** One step of the increment, on numbers. */
  lemma IncTop(c: seq<bool>)
    requires c != []
    ensures c[|c| - 1] ==> Val(Inc(c)) == Val(Inc(c[..|c| - 1]))
    ensures !c[|c| - 1] ==> Val(Inc(c)) == Val(c) + Pow2(|c| - 1)
  {
    var n := |c| - 1;
    if c[n] {
      ValAppend(Inc(c[..n]), false);
    } else {
      assert c == c[..n] + [false];
      ValAppend(c[..n], false);
      ValAppend(c[..n], true);
    }
  }

  lemma ValAppend(c: seq<bool>, last: bool)
    ensures Val(c + [last]) == if last then Val(c) + Pow2(|c|) else Val(c)
  {
    ValConcat(c, [last]);
    ValSingle(last);
    var p, v := Pow2(|c|), Val([last]);
    assert p * v == if last then p else 0;
  }

  lemma TopBit(c: seq<bool>)
    requires c != []
    ensures (Val(c) / Pow2(|c| - 1)) % 2 == Bit(c[|c| - 1])
    ensures Val(c) == Val(c[..|c| - 1]) + Pow2(|c| - 1) * Bit(c[|c| - 1])
  {
    var n := |c| - 1;
    ValSplit(c, n);
    assert c[n..] == [c[n]];
    ValSingle(c[n]);
  }

  // ----- the loop over the codes -----

  /** The tables are ready for `code`, and what they do not cover of it is zero. */
  ghost predicate Ready(A: Alphabet, slack: nat, tables: seq<seq<Huft>>, sk: Sketch, K: Levels, code: seq<bool>)
    requires A.Valid()
  {
    && Built(A, slack, tables, sk, code, false)
    && Stack(tables, sk, K, code)
    && forall t :: K.Reach() <= t < |code| ==> !code[t]
  }

  /** Where tables start and end, when codes of up to `k` bits have been entered. */
  ghost predicate Extents(slack: nat, tables: seq<seq<Huft>>, sk: Sketch, K: Levels, k: nat, k0: nat, g: nat) {
    && Shape(tables, sk) && K.Valid()
    && (tables != [] ==> K.h >= 0 && K.lx[1] == sk.bits[0] >= k0)
    && (forall id :: 0 <= id < |tables| ==> |sk.pre[id]| < g && |sk.pre[id]| + sk.bits[id] <= k + slack)
    && (forall id :: 0 < id < |tables| ==> |sk.pre[id]| >= k0)
  }

  /** The arguments that stay the same while the tables are made. */
  ghost predicate Plan(A: Alphabet, slack: nat, c: seq<nat>, k0: nat, g: nat, m: nat) {
    && A.Valid() && !Oversubscribed(A.b)
    && 1 <= k0 <= m <= g <= BMAX && FirstTable(A.b, c, k0, g)
    && slack >= 8 && (m <= slack + 1 || m == k0)
    && (A.Eob() > 0 ==> k0 <= A.Eob())
  }

  /** malloc: a table with arbitrary contents. */
  method Malloc(z: nat) returns (q: seq<Huft>)
    ensures |q| == z
  {
    q := seq(z, _ => Huft(0, 0, N(0)));
  }

  /** Make tables up to the level that the `k`-bit code `i` requires (line 1194). */
  method OpenTables(A: Alphabet, ghost slack: nat, c: seq<nat>, k: nat, k0: nat, g: nat, m: nat, a: nat, i: nat,
                    tables0: seq<seq<Huft>>, K0: Levels, q0: nat, r0: Huft, ghost sk0: Sketch, ghost code: seq<bool>)
    returns (tables: seq<seq<Huft>>, K: Levels, q: nat, r: Huft, ghost sk: Sketch)
    requires Plan(A, slack, c, k0, g, m) && k0 <= k <= g
    requires |code| == k && i == Val(code) && Big(code) >= NextCode(A.b, k)
    requires Ready(A, slack, tables0, sk0, K0, code) && Extents(slack, tables0, sk0, K0, k, k0, g)
    requires K0.h == -1 ==> k == k0 && a + 1 == c[k]
    requires K0.Reach() < k || (K0.h >= 0 && q0 == K0.u[K0.h])
    requires m == g && A.Eob() == BMAX && tables0 != [] ==> K0.lx[1] == g
    ensures Ready(A, slack, tables, sk, K, code) && Extents(slack, tables, sk, K, k, k0, g)
    ensures K.h >= 0 && q == K.u[K.h] && K.Reach() >= k
    ensures g == 1 ==> r == r0
    ensures m == g && A.Eob() == BMAX ==> K.lx[1] == g
  {
    tables, K, q, r, sk := tables0, K0, q0, r0, sk0;
    while k > K.Reach()
      invariant Ready(A, slack, tables, sk, K, code) && Extents(slack, tables, sk, K, k, k0, g)
      invariant K.h == -1 ==> k == k0 && a + 1 == c[k]
      invariant K.Reach() < k || (K.h >= 0 && q == K.u[K.h])
      invariant g == 1 ==> r == r0
      invariant m == g && A.Eob() == BMAX && tables != [] ==> K.lx[1] == g
      decreases k - K.Reach()
    {
      tables, K, q, r, sk := OpenTable(A, slack, c, k, k0, g, m, a, i, tables, K, r, sk, code);
    }
    assert K.h >= 0;
  }

  /** One more level of tables (lines 1196-1239). */
  method OpenTable(A: Alphabet, ghost slack: nat, c: seq<nat>, k: nat, k0: nat, g: nat, m: nat, a: nat, i: nat,
                   tables: seq<seq<Huft>>, K: Levels, r: Huft, ghost sk: Sketch, ghost code: seq<bool>)
    returns (tables': seq<seq<Huft>>, K': Levels, q: nat, r': Huft, ghost sk': Sketch)
    requires Plan(A, slack, c, k0, g, m) && k0 <= k <= g
    requires |code| == k && i == Val(code) && Big(code) >= NextCode(A.b, k)
    requires Ready(A, slack, tables, sk, K, code) && Extents(slack, tables, sk, K, k, k0, g)
    requires K.Reach() < k && (K.h == -1 ==> k == k0 && a + 1 == c[k])
    ensures Ready(A, slack, tables', sk', K', code) && Extents(slack, tables', sk', K', k, k0, g)
    ensures K'.h >= 0 && q == K'.u[K'.h] && K'.Reach() > K.Reach()
    ensures g == 1 ==> r' == r
    ensures K.h >= 0 ==> K'.lx[1] == K.lx[1]
    ensures K.h == -1 && m == g && A.Eob() == BMAX ==> K'.lx[1] == g
    ensures K.h >= 0 ==> tables != []
  {
    ReachBound(A, slack, tables, sk, K, code, k, k0, g);
    var j := TableBits(A.b, c, k, k0, K.Reach(), g, m, a, A.Eob(), slack);
    var blank := Malloc(Pow2(j));
    q := |tables|;
    tables', r' := tables + [blank], r;
    K' := K.Push(q, j, if K.h == -1 then 0 else i);
    TableIndex(code, K.w, K.Reach());
    if K'.h > 0 {
      r' := Huft(K.lx[K'.h], 16 + j, T(q));
      var e := (i % Pow2(K'.w)) / Pow2(K'.w - K.lx[K'.h]);
      LinkSlot(A, slack, tables, sk, K, code);
      tables' := tables'[K.u[K.h] := tables'[K.u[K.h]][e := r']];
      assert tables' == tables[K.u[K.h] := tables[K.u[K.h]][e := r']] + [blank];
    }
    sk' := Grow(sk, code[..K.Reach()], j);
    OpenedReady(A, slack, tables, tables', sk, K, code, j, blank, k, k0, g);
  }

  /** A new table starts inside the code, and after the first one. */
  lemma ReachBound(A: Alphabet, slack: nat, tables: seq<seq<Huft>>, sk: Sketch, K: Levels, code: seq<bool>,
                   k: nat, k0: nat, g: nat)
    requires A.Valid() && Ready(A, slack, tables, sk, K, code) && Extents(slack, tables, sk, K, k, k0, g)
    requires K.Reach() < |code| <= 16
    ensures K.h < 15
    ensures K.h == -1 ==> K.Reach() == 0 && tables == []
    ensures K.h >= 0 ==> K.Reach() >= k0 && K.Reach() > K.w && tables != []
  {
    if K.h >= 0 {
      assert Level(tables, sk, K, K.h, code);
      if K.h > 0 { Chain(tables, sk, K, code, 0, K.h); }
    }
  }

  lemma LinkSlot(A: Alphabet, slack: nat, tables: seq<seq<Huft>>, sk: Sketch, K: Levels, code: seq<bool>)
    requires A.Valid() && Ready(A, slack, tables, sk, K, code) && K.h >= 0 && K.Reach() < |code|
    ensures K.u[K.h] < |tables| && |tables[K.u[K.h]]| == Pow2(K.lx[K.h + 1])
    ensures Val(code[K.w..K.Reach()]) < Pow2(K.lx[K.h + 1])
  {
    assert Level(tables, sk, K, K.h, code);
  }

  /** The program's index expression selects the bits of the code from `w` to `w'`. */
  lemma TableIndex(code: seq<bool>, w: nat, w': nat)
    requires w <= w' <= |code| && forall t :: w' <= t < |code| ==> !code[t]
    ensures Val(code) == Val(code[..w'])
    ensures (Val(code) % Pow2(w')) / Pow2(w) == Val(code[w..w'])
  {
    var q := code[..w'];
    assert code == q + Zeros(|code| - w');
    ValConcat(q, Zeros(|code| - w'));
    ValZeros(|code| - w');
    assert Pow2(w') * 0 == 0;
    ValSplit(code, w');
    ValSplit(q, w);
    assert q[w..] == code[w..w'];
  }

  lemma OpenedReady(A: Alphabet, slack: nat, tables: seq<seq<Huft>>, tables': seq<seq<Huft>>, sk: Sketch,
                  K: Levels, code: seq<bool>, n: nat, blank: seq<Huft>, k: nat, k0: nat, g: nat)
    requires A.Valid() && !Oversubscribed(A.b)
    requires Ready(A, slack, tables, sk, K, code) && Extents(slack, tables, sk, K, k, k0, g)
    requires K.h < 15 && K.Reach() < |code| == k <= g && Big(code) >= NextCode(A.b, k)
    requires 1 <= n <= 16 && |blank| == Pow2(n) && Opened(tables, tables', K, code, n, blank)
    requires K.Reach() + n <= k + slack && (K.Reach() < A.Eob() ==> K.Reach() + n <= A.Eob())
    requires K.h == -1 ==> n >= k0
    requires K.h >= 0 ==> K.Reach() >= k0 && tables != []
    ensures var sk', K' := Grow(sk, code[..K.Reach()], n), K.Push(|tables|, n, Val(code[..K.Reach()]));
            Ready(A, slack, tables', sk', K', code) && Extents(slack, tables', sk', K', k, k0, g)
  {
    OpenEntries(A, slack, tables, tables', sk, K, code, n, blank);
    OpenCuts(A, sk, code, K.Reach(), n);
    OpenStack(tables, tables', sk, K, code, n, blank);
  }

  // ----- the entries of one code -----

  /** How many codes of `k` bits come before this one. */
  function Behind(b: seq<nat>, k: nat, code: seq<bool>): int { Big(code) - NextCode(b, k) }

  /** With `done` codes of `k` bits behind it, the program points at the value of the
      next one, or past the last value if that code is spare. */
  function NextValue(b: seq<nat>, k: nat, done: int): int {
    Off(b, k) + (if done < Count(b, k) then done else Count(b, k))
  }

  /** The value at that place is the symbol whose code comes next. */
  lemma NextSymbol(b: seq<nat>, v: seq<nat>, k: nat, code: seq<bool>)
    requires Bounded(b) && Sorted(b, v, |b|) && |code| == k >= 1
    requires 0 <= Behind(b, k, code) < Count(b, k)
    ensures var p := NextValue(b, k, Behind(b, k, code));
            0 <= p < |v| && v[p] < |b| && b[v[p]] == k && Codeword(b, v[p]) == code
  {
    var done := Behind(b, k, code);
    var sym := SymbolAt(b, k, done);
    assert v[Off(b, b[sym]) + Rank(b, sym)] == sym;
    assert NextValue(b, k, done) == Off(b, b[sym]) + Rank(b, sym);
    CodewordIs(b, sym, code);
  }

  /** If a code of one bit is spare, there is only one symbol. */
  lemma SingleSymbol(b: seq<nat>, v: seq<nat>, sym: nat)
    requires Sorted(b, v, |b|) && Count(b, 1) <= 1
    requires sym < |b| && b[sym] == 1
    ensures |v| > 0 && v[0] == sym && Count(b, 1) == 1
  {
    RankBound(b, sym);
    assert v[Off(b, b[sym]) + Rank(b, sym)] == sym;
  }

  lemma RealEntry(A: Alphabet, slack: nat, sk: Sketch, id: nat, r: Huft, code: seq<bool>, sym: nat)
    requires A.Valid() && sym < |A.b| && id < |sk.pre| == |sk.bits|
    requires A.b[sym] == |code| > |sk.pre[id]| && Codeword(A.b, sym) == code
    requires IsLeaf(A, r, sym, |sk.pre[id]|) && |sk.pre[id]| + sk.bits[id] <= |code| + slack
    ensures forall s {:trigger EntryOK(A, slack, sk, id, r, s)} :: code <= s ==> EntryOK(A, slack, sk, id, r, s)
  {
    forall s | code <= s ensures EntryOK(A, slack, sk, id, r, s) {
      assert SymbolEntry(A, slack, sk, id, r, s, sym);
    }
  }

  /** An entry for a spare code is invalid: all symbols have earlier codes. */
  lemma SpareEntry(A: Alphabet, slack: nat, sk: Sketch, id: nat, r: Huft, code: seq<bool>, g: nat)
    requires A.Valid() && !Oversubscribed(A.b) && IsMaxLen(A.b, g) && |code| == g >= 1
    requires Big(code) >= EndCode(A.b, g) && r.e == 99 && (g == 1 ==> Stale(A, r))
    ensures !Complete(A.b)
    ensures forall s {:trigger EntryOK(A, slack, sk, id, r, s)} :: code <= s ==> EntryOK(A, slack, sk, id, r, s)
  {
    forall sym | 0 <= sym < |A.b| && A.b[sym] > 0 ensures Before(Codeword(A.b, sym), code) {
      RankBound(A.b, sym);
      CodeBefore(A.b, sym, code);
    }
    forall s | code <= s ensures EntryOK(A, slack, sk, id, r, s) {
      forall sym | 0 <= sym < |A.b| && A.b[sym] > 0 ensures Before(Codeword(A.b, sym), s) {
        BeforeExtends(Codeword(A.b, sym), code, Codeword(A.b, sym), s);
      }
    }
  }

  /** Back up over finished tables (line 1269). */
  method BackOver(K: Levels, i: nat, ghost tables: seq<seq<Huft>>, ghost sk: Sketch, ghost code: seq<bool>)
    returns (K': Levels)
    requires code != [] && Shape(tables, sk) && Stack(tables, sk, K, code) && K.h >= 0
    requires i == Val(Inc(code))
    ensures K' == K.(h := K'.h, w := K'.w) && 0 <= K'.h <= K.h && K'.Valid()
    ensures forall t :: 0 <= t <= K.h ==> K.u[t] < |sk.pre|
    ensures K'.w == |sk.pre[K.u[K'.h]]| && sk.pre[K.u[K'.h]] <= Inc(code)
    ensures forall t {:trigger K.u[t]} :: K'.h < t <= K.h ==> !(sk.pre[K.u[t]] <= Inc(code))
  {
    ghost var next := Inc(code);
    forall t | 0 <= t <= K.h ensures K.u[t] < |sk.pre| { assert Level(tables, sk, K, t, code); }
    K' := K;
    Matches(tables, sk, K, code, K.h);
    while i % Pow2(K'.w) != K'.x[K'.h]
      invariant K' == K.(h := K'.h, w := K'.w) && 0 <= K'.h <= K.h
      invariant K'.w == |sk.pre[K.u[K'.h]]|
      invariant i % Pow2(K'.w) == K'.x[K'.h] <==> sk.pre[K.u[K'.h]] <= next
      invariant forall t {:trigger K.u[t]} :: K'.h < t <= K.h ==> !(sk.pre[K.u[t]] <= next)
      decreases K'.h
    {
      StackStep(tables, sk, K, code, K'.h);
      K' := K'.(h := K'.h - 1, w := K'.w - K'.lx[K'.h]);
      Matches(tables, sk, K, code, K'.h);
    }
    assert Level(tables, sk, K, K'.h, code);
  }

  /** How many bits lead from one table of the stack to the next. */
  lemma StackStep(tables: seq<seq<Huft>>, sk: Sketch, K: Levels, code: seq<bool>, t: nat)
    requires Shape(tables, sk) && Stack(tables, sk, K, code) && 0 < t <= K.h
    ensures K.u[t] < |sk.pre| && K.u[t - 1] < |sk.pre| && K.lx[t] <= |sk.pre[K.u[t]]|
    ensures |sk.pre[K.u[t - 1]]| == |sk.pre[K.u[t]]| - K.lx[t]
  {
    assert Level(tables, sk, K, t, code);
    assert Linked(tables, sk, K, t - 1) && Level(tables, sk, K, t - 1, code);
  }

  /** The masked code equals the saved pattern exactly if it leads to that table. */
  lemma Matches(tables: seq<seq<Huft>>, sk: Sketch, K: Levels, code: seq<bool>, t: nat)
    requires Shape(tables, sk) && Stack(tables, sk, K, code) && t <= K.h
    ensures K.u[t] < |sk.pre|
    ensures Val(Inc(code)) % Pow2(|sk.pre[K.u[t]]|) == K.x[t] <==> sk.pre[K.u[t]] <= Inc(code)
    ensures t == 0 ==> sk.pre[K.u[t]] == []
  {
    assert Level(tables, sk, K, t, code);
    var q, next := sk.pre[K.u[t]], Inc(code);
    ValSplit(next, |q|);
    if Val(next[..|q|]) == Val(q) { ValInjective(next[..|q|], q); }
    if q <= next { assert next[..|q|] == q; }
  }

  /** The state of the program between two codes of `k` bits, of which `a` are left;
      at the end the tables are complete. */
  ghost predicate Between(A: Alphabet, slack: nat, c: seq<nat>, tables: seq<seq<Huft>>, sk: Sketch, K: Levels,
                          k: nat, k0: nat, g: nat, m: nat, a: nat, i: nat, v: seq<nat>, p: nat, q: nat, r: Huft,
                          code: seq<bool>, end: bool)
  {
    && Plan(A, slack, c, k0, g, m) && k0 <= k <= g
    && Extents(slack, tables, sk, K, k, k0, g)
    && Built(A, slack, tables, sk, code, end)
    && (m == g && A.Eob() == BMAX && tables != [] ==> K.lx[1] == g)
    && (if end then a == 0 && k == g && tables != []
        else
          && |code| == k && i == Val(code)
          && Ready(A, slack, tables, sk, K, code)
          && 0 <= Behind(A.b, k, code) == c[k] - a
          && p == NextValue(A.b, k, Behind(A.b, k, code))
          && (g == 1 && p > 0 ==> p <= |v| && v[p - 1] < |A.b| && r.v == N(A.Base(v[p - 1])))
          && (K.h == -1 ==> k == k0 && a == c[k])
          && (K.Reach() < k || (K.h >= 0 && q == K.u[K.h])))
  }

  /** The entry for the code at hand (lines 1243-1255). A spare code keeps the value
      of the entry before it. */
  method MakeEntry(A: Alphabet, v: seq<nat>, n: nat, p: nat, b: nat, r0: Huft) returns (r: Huft, p': nat)
    requires A.Valid() && |v| == 288 && n <= 288 && (p < n ==> v[p] < |A.b|)
    ensures p >= n ==> r == Huft(b, 99, r0.v) && p' == p
    ensures p < n ==> r == Huft(b, A.Kind(v[p]), N(A.Base(v[p]))) && p' == p + 1
  {
    p' := p;
    if p >= n {
      r := Huft(b, 99, r0.v);
    } else if v[p] < A.s {
      r := Huft(b, if v[p] < 256 then 16 else 15, N(v[p]));
      p' := p + 1;
    } else {
      r := Huft(b, A.e[v[p] - A.s], N(A.d[v[p] - A.s]));
      p' := p + 1;
    }
  }

  lemma CurrentTable(A: Alphabet, slack: nat, tables: seq<seq<Huft>>, sk: Sketch, K: Levels, code: seq<bool>)
    requires A.Valid() && Ready(A, slack, tables, sk, K, code) && K.h >= 0 && K.Reach() >= |code|
    ensures K.u[K.h] < |tables| && |tables[K.u[K.h]]| == Pow2(K.lx[K.h + 1])
    ensures K.w == |sk.pre[K.u[K.h]]| < |code| && K.lx[K.h + 1] == sk.bits[K.u[K.h]]
  {
    assert Level(tables, sk, K, K.h, code);
  }

  /** Past the last value are exactly the spare codes. */
  lemma ValueHere(b: seq<nat>, c: seq<nat>, k: nat, k0: nat, g: nat, done: nat, a: nat, p: nat, n: nat)
    requires FirstTable(b, c, k0, g) && k0 <= k <= g && n == Off(b, g) + Count(b, g)
    requires done + (a + 1) == c[k] && p == NextValue(b, k, done)
    ensures p < n <==> done < Count(b, k)
    ensures p >= n ==> k == g && p == n
    ensures NextValue(b, k, done + 1) == if p < n then p + 1 else p
  {
    if k < g {
      OffMonotone(b, k, g);
      assert c[k] == Count(b, k);
    }
  }

  /** The entry made is right for every stream that starts with the code. */
  lemma EntryHere(A: Alphabet, slack: nat, v: seq<nat>, n: nat, k: nat, g: nat, sk: Sketch, id: nat, code: seq<bool>,
                  p: nat, r0: Huft, r: Huft)
    requires A.Valid() && !Oversubscribed(A.b) && IsMaxLen(A.b, g) && |code| == k <= g
    requires Sorted(A.b, v, |A.b|) && |v| == 288 && n == Off(A.b, g) + Count(A.b, g) <= 288
    requires id < |sk.pre| == |sk.bits| && |sk.pre[id]| < k && |sk.pre[id]| + sk.bits[id] <= k + slack
    requires p < n <==> Behind(A.b, k, code) < Count(A.b, k)
    requires p < n ==> v[p] < |A.b| && A.b[v[p]] == k && Codeword(A.b, v[p]) == code
    requires p < n ==> r == Huft(k - |sk.pre[id]|, A.Kind(v[p]), N(A.Base(v[p])))
    requires p >= n ==> k == g && r == Huft(k - |sk.pre[id]|, 99, r0.v) && p == n
    requires p >= n && g == 1 && p > 0 ==> v[p - 1] < |A.b| && r0.v == N(A.Base(v[p - 1]))
    requires p >= n && g == 1 ==> Count(A.b, 1) <= 1
    ensures forall s {:trigger EntryOK(A, slack, sk, id, r, s)} :: code <= s ==> EntryOK(A, slack, sk, id, r, s)
  {
    if p < n {
      RealEntry(A, slack, sk, id, r, code, v[p]);
    } else {
      if g == 1 {
        forall sym | 0 <= sym < |A.b| && A.b[sym] > 0 ensures r.v == N(A.Base(sym)) {
          SingleSymbol(A.b, v, sym);
        }
      }
      SpareEntry(A, slack, sk, id, r, code, g);
    }
  }

  /** The program's index and step, in terms of the code's last bits. */
  lemma SplitCode(code: seq<bool>, w: nat)
    requires w <= |code|
    ensures Val(code) / Pow2(w) == Val(code[w..]) && |code[w..]| == |code| - w
  {
    ValSplit(code, w);
  }

  /** Whether there is a next code. */
  lemma NextCodeHere(A: Alphabet, slack: nat, c: seq<nat>, k: nat, k0: nat, g: nat, m: nat, code: seq<bool>, a: nat, p: nat)
    requires Plan(A, slack, c, k0, g, m) && k0 <= k <= g && |code| == k
    requires 0 <= Behind(A.b, k, code) == c[k] - (a + 1)
    requires p == NextValue(A.b, k, Behind(A.b, k, code) + 1)
    ensures AllOnes(code) ==> a == 0 && k == g
    ensures !AllOnes(code) ==> 0 <= Behind(A.b, k, Inc(code)) == c[k] - a
    ensures !AllOnes(code) ==> p == NextValue(A.b, k, Behind(A.b, k, Inc(code)))
  {
    IncBig(code);
    if !AllOnes(code) { assert Behind(A.b, k, Inc(code)) == Behind(A.b, k, code) + 1; }
    if k < g { assert Room(A.b, k) && c[k] == Count(A.b, k); }
  }

  /** Make the entry of the code and write it (lines 1243-1260). */
  method WriteCode(A: Alphabet, ghost slack: nat, v: seq<nat>, n: nat, k: nat, g: nat, i: nat, p0: nat, q: nat, r0: Huft,
                   tables: seq<seq<Huft>>, K: Levels, ghost sk: Sketch, ghost code: seq<bool>)
    returns (tables': seq<seq<Huft>>, p: nat, r: Huft)
    requires A.Valid() && !Oversubscribed(A.b) && IsMaxLen(A.b, g) && |code| == k <= g && i == Val(code)
    requires Sorted(A.b, v, |A.b|) && |v| == 288 && n == Off(A.b, g) + Count(A.b, g) <= 288
    requires Ready(A, slack, tables, sk, K, code) && K.h >= 0 && q == K.u[K.h] < |tables| && K.Reach() >= k
    requires K.w + sk.bits[q] <= k + slack
    requires 0 <= Behind(A.b, k, code) && p0 == NextValue(A.b, k, Behind(A.b, k, code))
    requires p0 < n <==> Behind(A.b, k, code) < Count(A.b, k)
    requires p0 >= n ==> k == g && p0 == n
    requires g == 1 && p0 > 0 ==> p0 <= 288 && v[p0 - 1] < |A.b| && r0.v == N(A.Base(v[p0 - 1]))
    requires p0 >= n && g == 1 ==> Count(A.b, 1) <= 1
    ensures Built(A, slack, tables', sk, Inc(code), AllOnes(code))
    ensures |tables'| == |tables| && tables' == tables[q := tables'[q]]
    ensures p == if p0 < n then p0 + 1 else p0
    ensures g == 1 && p > 0 ==> p <= 288 && v[p - 1] < |A.b| && r.v == N(A.Base(v[p - 1]))
  {
    CurrentTable(A, slack, tables, sk, K, code);
    if p0 < n { NextSymbol(A.b, v, k, code); }
    r, p := MakeEntry(A, v, n, p0, k - K.w, r0);
    EntryHere(A, slack, v, n, k, g, sk, q, code, p0, r0, r);
    SplitCode(code, K.w);
    var table := FillTable(tables[q], i / Pow2(K.w), Pow2(k - K.w), r, K.lx[K.h + 1], code[K.w..]);
    tables' := tables[q := table];
    FillEntries(A, slack, tables, tables', sk, K, code, r);
  }

  /** Enter one code and move on to the next (lines 1191-1271). */
  method EnterCode(A: Alphabet, ghost slack: nat, c: seq<nat>, v: seq<nat>, n: nat, k: nat, k0: nat, g: nat, m: nat, a: nat,
                   tables0: seq<seq<Huft>>, K0: Levels, i0: nat, p0: nat, q0: nat, r0: Huft,
                   ghost sk0: Sketch, ghost code: seq<bool>)
    returns (tables: seq<seq<Huft>>, K: Levels, i: nat, p: nat, q: nat, r: Huft,
             ghost sk: Sketch, ghost code': seq<bool>, ghost end: bool)
    requires Between(A, slack, c, tables0, sk0, K0, k, k0, g, m, a + 1, i0, v, p0, q0, r0, code, false)
    requires IsMaxLen(A.b, g) && |v| == 288 && Sorted(A.b, v, |A.b|) && n == Off(A.b, g) + Count(A.b, g) <= 288
    ensures Between(A, slack, c, tables, sk, K, k, k0, g, m, a, i, v, p, q, r, code', end)
  {
    tables, K, q, r, sk := OpenTables(A, slack, c, k, k0, g, m, a, i0, tables0, K0, q0, r0, sk0, code);
    CurrentTable(A, slack, tables, sk, K, code);
    ValueHere(A.b, c, k, k0, g, Behind(A.b, k, code), a, p0, n);
    if g == 1 && p0 >= n { SpareAtOne(A.b, c, k0, Behind(A.b, k, code), a); }
    ghost var tables1 := tables;
    tables, p, r := WriteCode(A, slack, v, n, k, g, i0, p0, q, r, tables, K, sk, code);
    ghost var K1 := K;
    i, K := NextStack(K, i0, k, tables1, tables, sk, code);
    code', end := Inc(code), AllOnes(code);
    Entered(A, slack, c, k, k0, g, m, a, tables1, tables, sk, K1, K, i, v, p, q, r, code);
  }

  /** The state between two codes is reached again. */
  lemma Entered(A: Alphabet, slack: nat, c: seq<nat>, k: nat, k0: nat, g: nat, m: nat, a: nat,
                tables: seq<seq<Huft>>, tables': seq<seq<Huft>>, sk: Sketch, K: Levels, K': Levels,
                i: nat, v: seq<nat>, p: nat, q: nat, r: Huft, code: seq<bool>)
    requires Plan(A, slack, c, k0, g, m) && k0 <= k <= g && |code| == k && |v| == 288
    requires 0 <= Behind(A.b, k, code) == c[k] - (a + 1)
    requires p == NextValue(A.b, k, Behind(A.b, k, code) + 1)
    requires g == 1 && p > 0 ==> p <= 288 && v[p - 1] < |A.b| && r.v == N(A.Base(v[p - 1]))
    requires Extents(slack, tables, sk, K, k, k0, g) && K.h >= 0 && q == K.u[K.h] < |tables'| == |tables| && K.Reach() >= k
    requires forall t :: K.Reach() <= t < |code| ==> !code[t]
    requires m == g && A.Eob() == BMAX ==> K.lx[1] == g
    requires Built(A, slack, tables', sk, Inc(code), AllOnes(code))
    requires i == Val(Inc(code)) && Advanced(tables', sk, K, K', code)
    ensures Between(A, slack, c, tables', sk, K', k, k0, g, m, a, i, v, p, q, r, Inc(code), AllOnes(code))
  {
    NextCodeHere(A, slack, c, k, k0, g, m, code, a, p);
    ExtentsKept(slack, tables, tables', sk, K, K', k, k0, g);
    if !AllOnes(code) { AdvancedReady(A, slack, tables', sk, K, K', code); }
  }

  lemma ExtentsKept(slack: nat, tables: seq<seq<Huft>>, tables': seq<seq<Huft>>, sk: Sketch, K: Levels, K': Levels, k: nat, k0: nat, g: nat)
    requires Extents(slack, tables, sk, K, k, k0, g) && |tables'| == |tables| && Shape(tables', sk)
    requires K' == K.(h := K'.h, w := K'.w) && K'.h >= 0 && K'.Valid()
    ensures Extents(slack, tables', sk, K', k, k0, g)
  {
  }

  lemma AdvancedReady(A: Alphabet, slack: nat, tables: seq<seq<Huft>>, sk: Sketch, K: Levels, K': Levels, code: seq<bool>)
    requires A.Valid() && Built(A, slack, tables, sk, Inc(code), false) && !AllOnes(code)
    requires K.Valid() && K.h >= 0 && K.Reach() >= |code| && Advanced(tables, sk, K, K', code)
    ensures Ready(A, slack, tables, sk, K', Inc(code)) && (K'.h == K.h || K'.Reach() < |code|)
  {
  }

  /** The stack after finished tables have been left. */
  ghost predicate Advanced(tables: seq<seq<Huft>>, sk: Sketch, K: Levels, K': Levels, code: seq<bool>)
  {
    && K' == K.(h := K'.h, w := K'.w) && 0 <= K'.h <= K.h && K'.Valid() && (K'.h == K.h ==> K'.w == K.w)
    && (!AllOnes(code) ==> Shape(tables, sk) && Stack(tables, sk, K', Inc(code)))
    && (!AllOnes(code) && K'.h < K.h ==> K'.Reach() < |code| && forall t :: K'.Reach() <= t < |code| ==> !Inc(code)[t])
  }

  /** Increment the code and back over the tables that are done (lines 1262-1270). */
  method NextStack(K0: Levels, i0: nat, k: nat, ghost tables0: seq<seq<Huft>>, ghost tables: seq<seq<Huft>>,
                   ghost sk: Sketch, ghost code: seq<bool>)
    returns (i: nat, K: Levels)
    requires |code| == k >= 1 && i0 == Val(code) && K0.h >= 0
    requires Shape(tables0, sk) && Shape(tables, sk) && Stack(tables0, sk, K0, code)
    requires K0.u[K0.h] < |tables0| && tables == tables0[K0.u[K0.h] := tables[K0.u[K0.h]]]
    ensures i == Val(Inc(code)) && Advanced(tables, sk, K0, K, code)
  {
    i := BackwardIncrement(i0, k, code);
    K := BackOver(K0, i, tables0, sk, code);
    if !AllOnes(code) { BackUp(tables0, tables, sk, K0, K, code); }
  }

  /** With codes of one bit only, a spare code means a single symbol. */
  lemma SpareAtOne(b: seq<nat>, c: seq<nat>, k0: nat, done: nat, a: nat)
    requires FirstTable(b, c, k0, 1)
    requires Count(b, 1) <= done == c[1] - (a + 1)
    ensures Count(b, 1) <= 1
  {
    assert Pow2(1) == 2 * Pow2(0) == 2;
  }

  // ----- the whole of huft_build -----

  /** One table of `m` bits and no links; with a single code, both of its entries carry
      the value of that symbol. */
  ghost predicate OneLevel(A: Alphabet, tables: seq<seq<Huft>>, m: nat)
    requires A.Valid()
  {
    && tables != [] && |tables[0]| == Pow2(m)
    && forall p: seq<bool> {:trigger Val(p)} :: |p| == m ==> Flat(A, tables[0][Val(p)], p)
  }

  ghost predicate Flat(A: Alphabet, ent: Huft, p: seq<bool>)
    requires A.Valid()
  {
    && (Complete(A.b) ==> exists sym: nat :: Decodes(A.b, p, sym) && IsLeaf(A, ent, sym, 0))
    && (forall sym: nat :: Sole(A.b, sym) ==> ent.b == 1 && ent.v == N(A.Base(sym)))
  }

  lemma OneLevelBuilt(A: Alphabet, slack: nat, tables: seq<seq<Huft>>, sk: Sketch, K: Levels, code: seq<bool>,
                      k: nat, k0: nat, g: nat)
    requires A.Valid() && IsMaxLen(A.b, g) && tables != []
    requires Built(A, slack, tables, sk, code, true) && Extents(slack, tables, sk, K, k, k0, g) && K.lx[1] == g
    ensures OneLevel(A, tables, g)
  {
    forall p: seq<bool> {:trigger Val(p)} | |p| == g ensures Flat(A, tables[0][Val(p)], p) {
      assert sk.pre[0] + p == p;
      assert EntryOK(A, slack, sk, 0, Slot(tables, 0, p), p);
      FlatEntry(A, slack, sk, Slot(tables, 0, p), p, g);
    }
  }

  lemma FlatEntry(A: Alphabet, slack: nat, sk: Sketch, ent: Huft, p: seq<bool>, g: nat)
    requires A.Valid() && IsMaxLen(A.b, g) && EntryOK(A, slack, sk, 0, ent, p) && |p| == g
    requires |sk.pre| > 0 && sk.pre[0] == [] && forall id :: 0 <= id < |sk.pre| ==> |sk.pre[id]| < g
    ensures Flat(A, ent, p)
  {
    if sym: nat :| SymbolEntry(A, slack, sk, 0, ent, p, sym) {
      assert Decodes(A.b, p, sym) && IsLeaf(A, ent, sym, 0);
    } else {
      assert IsInvalid(A, ent, p);
      forall sym: nat | Sole(A.b, sym) ensures ent.b == 1 && ent.v == N(A.Base(sym)) {
        assert A.b[sym] in A.b;
        assert IsMaxLen(A.b, 1);
      }
    }
  }

  lemma {:induction false} BigZeros(n: nat)
    ensures Big(Zeros(n)) == 0 && Val(Zeros(n)) == 0
  {
    ValZeros(n);
    if n > 0 {
      BigZeros(n - 1);
      assert Zeros(n)[..n - 1] == Zeros(n - 1);
    }
  }

  /** Nothing is built before the first code. */
  lemma StartBetween(A: Alphabet, slack: nat, c: seq<nat>, K: Levels, k0: nat, g: nat, m: nat, v: seq<nat>, q: nat, r: Huft)
    requires Plan(A, slack, c, k0, g, m) && c[k0] > 0
    requires K.Valid() && K.h == -1 && K.w == 0
    requires forall len :: 1 <= len < k0 ==> c[len] == 0
    ensures Between(A, slack, c, [], Sketch([], []), K, k0, k0, g, m, c[k0], 0, v, 0, q, r, Zeros(k0), false)
  {
    BigZeros(k0);
    forall len | 1 <= len < k0 ensures Count(A.b, len) == 0 { assert c[len] == 0; }
    OffZero(A.b, k0);
  }

  lemma {:induction false} OffZero(b: seq<nat>, len: nat)
    requires forall i :: 1 <= i < len ==> Count(b, i) == 0
    ensures Off(b, len) == 0
  {
    if len > 1 { OffZero(b, len - 1); }
  }

  /** All codes of one length are entered; those of the next follow on. */
  lemma NextLength(A: Alphabet, slack: nat, c: seq<nat>, tables: seq<seq<Huft>>, sk: Sketch, K: Levels,
                   k: nat, k0: nat, g: nat, m: nat, i: nat, v: seq<nat>, p: nat, q: nat, r: Huft, code: seq<bool>, end: bool)
    requires Between(A, slack, c, tables, sk, K, k, k0, g, m, 0, i, v, p, q, r, code, end) && c[k0] > 0
    ensures k == g ==> end
    ensures k < g ==> Between(A, slack, c, tables, sk, K, k + 1, k0, g, m, c[k + 1], i, v, p, q, r, code + [false], false)
  {
    if k < g {
      assert c[k] == Count(A.b, k);
      Lengthen(A, slack, tables, sk, K, code);
      var code' := code + [false];
      assert code'[..k] == code;
      ValAppend(code, false);
    }
  }

  lemma MakePlan(A: Alphabet, slack: nat, c: seq<nat>, spare: seq<nat>, k0: nat, g: nat, m: nat, y: nat)
    requires A.Valid() && !Oversubscribed(A.b) && 1 <= k0 <= m <= g <= BMAX && IsMaxLen(A.b, g)
    requires |c| == BMAX + 1 && forall len {:trigger c[len]} :: 0 <= len <= BMAX ==> c[len] == Count(A.b, len)
    requires c[k0] > 0 && c[g] > 0 && forall len :: 1 <= len < k0 ==> c[len] == 0
    requires y == Pow2(g) - EndCode(A.b, g) && spare == c[g := c[g] + y]
    requires slack >= 8 && (m <= slack + 1 || m == k0)
    ensures Plan(A, slack, spare, k0, g, m) && spare[k0] > 0
    ensures forall len :: 1 <= len < k0 ==> spare[len] == 0
  {
    forall len | 1 <= len < k0 ensures Count(A.b, len) == 0 { assert c[len] == 0; }
    NoShortCodes(A.b, k0);
    assert Fits(A.b, g) && c[g] == Count(A.b, g);
    forall len | k0 <= len < g ensures Room(A.b, len) { RoomLeft(A.b, g, len); }
    if |A.b| > 256 {
      CountPositive(A.b, A.b[256]);
      assert A.b[256] in A.b;
      assert c[A.b[256]] == Count(A.b, A.b[256]);
    }
  }

  /** What the finished tables are good for. */
  lemma Finish(A: Alphabet, slack: nat, c: seq<nat>, tables: seq<seq<Huft>>, sk: Sketch, K: Levels, k0: nat, g: nat, m: nat,
               i: nat, v: seq<nat>, p: nat, q: nat, r: Huft, code: seq<bool>, y: nat)
    requires Between(A, slack, c, tables, sk, K, g, k0, g, m, 0, i, v, p, q, r, code, true)
    requires IsMaxLen(A.b, g) && y == Pow2(g) - EndCode(A.b, g)
    ensures |K.lx| == 17 && 1 <= K.lx[1] <= BMAX && Realizes(A, slack, tables, K.lx[1])
    ensures Complete(A.b) <==> y == 0
    ensures K.lx[1] == g ==> OneLevel(A, tables, g)
    ensures m == g && A.Eob() == BMAX ==> K.lx[1] == g
  {
    hide Realizes, OneLevel;
    BuiltRealizes(A, slack, tables, sk, code);
    if K.lx[1] == g { OneLevelBuilt(A, slack, tables, sk, K, code, g, k0, g); }
  }

  /** The loop over code lengths (lines 1177-1276). */
  method BuildTables(A: Alphabet, ghost slack: nat, c: seq<nat>, v: seq<nat>, n: nat, k0: nat, g: nat, m: nat, ghost y: nat)
    returns (tables: seq<seq<Huft>>, bl: nat)
    requires Plan(A, slack, c, k0, g, m) && c[k0] > 0 && forall len :: 1 <= len < k0 ==> c[len] == 0
    requires IsMaxLen(A.b, g) && y == Pow2(g) - EndCode(A.b, g)
    requires |v| == 288 && Sorted(A.b, v, |A.b|) && n == Off(A.b, g) + Count(A.b, g) <= 288
    ensures 1 <= bl <= BMAX && Realizes(A, slack, tables, bl)
    ensures Complete(A.b) <==> y == 0
    ensures bl == g ==> OneLevel(A, tables, g)
    ensures m == g && A.Eob() == BMAX ==> bl == g
  {
    hide Realizes, OneLevel, Complete, IsMaxLen, Sorted, Between;
    var K := Levels(seq(16, _ => 0), seq(17, _ => 0), seq(17, _ => 0), -1, 0);
    var i: nat, p: nat, q: nat, r := 0, 0, 0, Huft(0, 0, N(0));
    tables := [];
    var k := k0;
    ghost var sk, code, end := Sketch([], []), Zeros(k0), false;
    StartBetween(A, slack, c, K, k0, g, m, v, q, r);
    while k <= g
      invariant k0 <= k <= g + 1
      invariant k <= g ==> Between(A, slack, c, tables, sk, K, k, k0, g, m, c[k], i, v, p, q, r, code, false)
      invariant k > g ==> Between(A, slack, c, tables, sk, K, g, k0, g, m, 0, i, v, p, q, r, code, true)
    {
      tables, K, i, p, q, r, sk, code, end :=
        EnterLength(A, slack, c, v, n, k, k0, g, m, tables, K, i, p, q, r, sk, code);
      NextLength(A, slack, c, tables, sk, K, k, k0, g, m, i, v, p, q, r, code, end);
      if k < g { code := code + [false]; }
      k := k + 1;
    }
    Finish(A, slack, c, tables, sk, K, k0, g, m, i, v, p, q, r, code, y);
    bl := K.lx[1];
  }

  /** All codes of one length (line 1189). */
  method EnterLength(A: Alphabet, ghost slack: nat, c: seq<nat>, v: seq<nat>, n: nat, k: nat, k0: nat, g: nat, m: nat,
                     tables0: seq<seq<Huft>>, K0: Levels, i0: nat, p0: nat, q0: nat, r0: Huft,
                     ghost sk0: Sketch, ghost code0: seq<bool>)
    returns (tables: seq<seq<Huft>>, K: Levels, i: nat, p: nat, q: nat, r: Huft,
             ghost sk: Sketch, ghost code: seq<bool>, ghost end: bool)
    requires k < |c| && Between(A, slack, c, tables0, sk0, K0, k, k0, g, m, c[k], i0, v, p0, q0, r0, code0, false)
    requires IsMaxLen(A.b, g) && |v| == 288 && Sorted(A.b, v, |A.b|) && n == Off(A.b, g) + Count(A.b, g) <= 288
    ensures Between(A, slack, c, tables, sk, K, k, k0, g, m, 0, i, v, p, q, r, code, end)
  {
    tables, K, i, p, q, r, sk, code, end := tables0, K0, i0, p0, q0, r0, sk0, code0, false;
    var a := c[k];
    while a != 0
      invariant Between(A, slack, c, tables, sk, K, k, k0, g, m, a, i, v, p, q, r, code, end)
      invariant end ==> a == 0
    {
      a := a - 1;
      tables, K, i, p, q, r, sk, code, end :=
        EnterCode(A, slack, c, v, n, k, k0, g, m, a, tables, K, i, p, q, r, sk, code);
    }
  }

  /** huft_build: make the tables that decode a set of codes. The result is 0, or 1 for
      an incomplete set (the tables are made all the same), or 2 for lengths that ask
      for too many codes; `m` is the number of bits that index the first table.
      Allocation is assumed to succeed. */
  method HuftBuild(A: Alphabet, m0: nat) returns (ret: nat, tables: seq<seq<Huft>>, m: nat)
    requires A.Valid()
    ensures ret == 2 <==> Oversubscribed(A.b)
    ensures ret == 1 <==> !Oversubscribed(A.b) && !AllZero(A.b) && !Complete(A.b) && !IsMaxLen(A.b, 1)
    ensures ret <= 2
    ensures m == 0 <==> AllZero(A.b)
    ensures ret != 2 && m != 0 ==> m <= BMAX && Realizes(A, Slack(m0), tables, m)
    ensures ret != 2 && m != 0 && A.Eob() == BMAX && (forall i :: 0 <= i < |A.b| ==> A.b[i] <= m0) ==>
              IsMaxLen(A.b, m) && OneLevel(A, tables, m)
  {
    var c := CountLengths(A.b);
    AllZeroCount(A.b);
    if c[0] == |A.b| {
      AllZeroFits(A.b);
      return 0, [], 0;
    }
    var k0, g := Range(A.b, c);
    m := m0;
    if m < k0 { m := k0; }
    if m > g { m := g; }
    var y := Spare(A.b, c, k0, g);
    if y < 0 { return 2, [], m; }
    var spare := c[g := c[g] + y];
    MakePlan(A, Slack(m0), c, spare, k0, g, m, y);
    OffBound(A.b, g);
    var offsets := Offsets(A.b, spare, g);
    var v, x := SortValues(A.b, offsets, g);
    tables, m := BuildTables(A, Slack(m0), spare, v, x[g], k0, g, m, y);
    ret := if y != 0 && g != 1 then 1 else 0;
  }
}
