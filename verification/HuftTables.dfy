/** The multi-level decoding tables of Inflate.c: what a table entry means, how a
    lookup walks from table to table, and the invariant under which huft_build
    fills them.

    A table that the program allocates is an element of `tables`; a pointer to it
    is its index. Entries not yet written are arbitrary. */
module HuftTables {
  import opened Bits
  import opened Huffman

  /** The union of a value and a pointer to another table. */
  datatype Link = N(n: nat) | T(t: nat)

  datatype Huft = Huft(b: nat, e: nat, v: Link)

  /** The arguments of huft_build: code lengths, number of simple values, and the
      base values and extra bits of the others. */
  datatype Alphabet = Alphabet(b: seq<nat>, s: nat, d: seq<nat>, e: seq<nat>) {
    predicate Valid() {
      && 1 <= |b| <= 288
      && Bounded(b)
      && (s < |b| ==> |b| - s <= |d| && |b| - s <= |e|)
      && (forall i :: 0 <= i < |e| ==> e[i] < 15 || e[i] == 99)
    }

    /** The length of the end-of-block code, if there is one. */
    function Eob(): nat { if |b| > 256 then b[256] else BMAX }

    function Kind(sym: nat): nat
      requires Valid() && sym < |b|
    {
      if sym < s then (if sym < 256 then 16 else 15) else e[sym - s]
    }

    function Base(sym: nat): nat
      requires Valid() && sym < |b|
    {
      if sym < s then sym else d[sym - s]
    }
  }

  /** For every table, the bits read before it and the bits that index it. */
  datatype Sketch = Sketch(pre: seq<seq<bool>>, bits: seq<nat>)

  /** `ent`, found after `w` bits, stands for symbol `sym`. */
  ghost predicate IsLeaf(A: Alphabet, ent: Huft, sym: nat, w: nat)
    requires A.Valid()
  {
    && sym < |A.b| && w < A.b[sym]
    && ent == Huft(A.b[sym] - w, A.Kind(sym), N(A.Base(sym)))
  }

  ghost predicate IsLink(sk: Sketch, id: nat, ent: Huft, s: seq<bool>) {
    && ent.v.T? && id < ent.v.t < |sk.pre| && ent.v.t < |sk.bits| && id < |sk.bits|
    && sk.pre[ent.v.t] == s
    && ent.b == sk.bits[id]
    && ent.e == 16 + sk.bits[ent.v.t]
  }

  /** Table `id` reads at most `slack` bits past a code that ends `n` bits into it. */
  ghost predicate SymbolEntry(A: Alphabet, slack: nat, sk: Sketch, id: nat, ent: Huft, s: seq<bool>, sym: nat)
    requires A.Valid()
  {
    && id < |sk.pre| && id < |sk.bits|
    && IsLeaf(A, ent, sym, |sk.pre[id]|)
    && Codeword(A.b, sym) <= s
    && sk.bits[id] <= slack + ent.b
  }

  ghost predicate IsInvalid(A: Alphabet, ent: Huft, s: seq<bool>)
    requires A.Valid()
  {
    && ent.e == 99 && !Complete(A.b)
    && (forall sym :: 0 <= sym < |A.b| && A.b[sym] > 0 ==> Before(Codeword(A.b, sym), s))
    && (IsMaxLen(A.b, 1) ==> Stale(A, ent))
  }

  /** An invalid entry keeps the value of the entry made before it, which matters
      when there is a single code, of one bit. */
  ghost predicate Stale(A: Alphabet, ent: Huft)
    requires A.Valid()
  {
    ent.b == 1 && forall sym :: 0 <= sym < |A.b| && A.b[sym] > 0 ==> ent.v == N(A.Base(sym))
  }

  /** `ent` is the right entry of table `id` for streams that start with `s`. */
  ghost predicate EntryOK(A: Alphabet, slack: nat, sk: Sketch, id: nat, ent: Huft, s: seq<bool>)
    requires A.Valid()
  {
    || IsLink(sk, id, ent, s)
    || (exists sym: nat :: SymbolEntry(A, slack, sk, id, ent, s, sym))
    || IsInvalid(A, ent, s)
  }

  ghost predicate Shape(tables: seq<seq<Huft>>, sk: Sketch) {
    && |tables| == |sk.pre| == |sk.bits|
    && (forall id :: 0 <= id < |tables| ==> 1 <= sk.bits[id] <= 16 && |tables[id]| == Pow2(sk.bits[id]))
    && (|tables| > 0 ==> sk.pre[0] == [])
  }

  function Slot(tables: seq<seq<Huft>>, id: nat, p: seq<bool>): Huft
    requires id < |tables| && |tables[id]| == Pow2(|p|)
  {
    tables[id][Val(p)]
  }

  /** Every pattern before the current code, or all of them at the end. */
  ghost predicate Done(s: seq<bool>, code: seq<bool>, end: bool) { end || Before(s, code) }

  ghost predicate Entries(A: Alphabet, slack: nat, tables: seq<seq<Huft>>, sk: Sketch, code: seq<bool>, end: bool)
    requires A.Valid() && Shape(tables, sk)
  {
    forall id: nat, p: seq<bool> {:trigger Slot(tables, id, p)} ::
      id < |tables| && |p| == sk.bits[id] && Done(sk.pre[id] + p, code, end)
      ==> EntryOK(A, slack, sk, id, Slot(tables, id, p), sk.pre[id] + p)
  }

  /** No table starts beyond the end of a code, and those that start before the end
      of the end-of-block code do not reach past it. */
  ghost predicate Cuts(A: Alphabet, sk: Sketch) {
    && |sk.pre| == |sk.bits|
    && (forall id, sym: nat :: 0 <= id < |sk.pre| ==> !Decodes(A.b, sk.pre[id], sym))
    && (forall id :: 0 <= id < |sk.pre| && |sk.pre[id]| < A.Eob() ==> |sk.pre[id]| + sk.bits[id] <= A.Eob())
  }

  ghost predicate Built(A: Alphabet, slack: nat, tables: seq<seq<Huft>>, sk: Sketch, code: seq<bool>, end: bool)
    requires A.Valid()
  {
    && Shape(tables, sk)
    && Entries(A, slack, tables, sk, code, end)
    && Cuts(A, sk)
  }

  /** The stack of tables that are still being filled, outermost first: `u[..h + 1]`
      are the tables, `lx[t + 1]` is the number of bits that index the one at level
      `t`, `x[t]` the code bits that lead to it, and `w` bits lead to the last. */
  datatype Levels = Levels(u: seq<nat>, lx: seq<nat>, x: seq<nat>, h: int, w: nat) {
    predicate Valid() {
      |u| == 16 && |lx| == 17 && |x| == 17 && lx[0] == 0 && -1 <= h < 16 && h <= w
    }

    /** How many code bits the tables open so far cover. */
    function Reach(): nat
      requires Valid()
    {
      w + lx[h + 1]
    }

    ghost predicate Has(id: nat)
      requires Valid()
    {
      exists t :: 0 <= t <= h && u[t] == id
    }

    function Push(id: nat, n: nat, pattern: nat): Levels
      requires Valid() && h < 15
    {
      Levels(u[h + 1 := id], lx[h + 2 := n], x[h + 1 := pattern], h + 1, Reach())
    }
  }

  ghost predicate Level(tables: seq<seq<Huft>>, sk: Sketch, K: Levels, t: nat, code: seq<bool>)
    requires Shape(tables, sk) && K.Valid() && t < 16
  {
    && K.u[t] < |tables|
    && sk.pre[K.u[t]] <= code
    && t <= |sk.pre[K.u[t]]| < |code|
    && K.x[t] == Val(sk.pre[K.u[t]])
    && K.lx[t + 1] == sk.bits[K.u[t]]
  }

  /** The table at level `t` leads to the one at level `t + 1`. */
  ghost predicate Linked(tables: seq<seq<Huft>>, sk: Sketch, K: Levels, t: nat)
    requires Shape(tables, sk) && K.Valid() && t < 15
  {
    var id, id' := K.u[t], K.u[t + 1];
    && id < id' < |tables|
    && sk.pre[id] <= sk.pre[id']
    && |sk.pre[id']| == |sk.pre[id]| + sk.bits[id]
    && IsLink(sk, id, Slot(tables, id, sk.pre[id'][|sk.pre[id]|..]), sk.pre[id'])
  }

  ghost predicate Stack(tables: seq<seq<Huft>>, sk: Sketch, K: Levels, code: seq<bool>)
    requires Shape(tables, sk)
  {
    && K.Valid()
    && (K.h == -1 ==> K.w == 0 && tables == [])
    && (K.h >= 0 ==> K.u[0] == 0 && K.u[K.h] < |tables| && K.w == |sk.pre[K.u[K.h]]|)
    && (forall t :: 0 <= t <= K.h ==> Level(tables, sk, K, t, code))
    && (forall t :: 0 <= t < K.h ==> Linked(tables, sk, K, t))
    && (forall id :: 0 <= id < |tables| ==> K.Has(id) || Before(sk.pre[id], code))
  }

  /** Deeper tables are younger and start later. */
  lemma {:induction false} Chain(tables: seq<seq<Huft>>, sk: Sketch, K: Levels, code: seq<bool>, t: nat, t': nat)
    requires Shape(tables, sk) && Stack(tables, sk, K, code) && t <= t' <= K.h
    ensures K.u[t] < |tables| && K.u[t'] < |tables|
    ensures sk.pre[K.u[t]] <= sk.pre[K.u[t']] && (t < t' ==> K.u[t] < K.u[t'])
    decreases t' - t
  {
    assert Level(tables, sk, K, t, code) && Level(tables, sk, K, t', code);
    if t < t' {
      assert Linked(tables, sk, K, t);
      Chain(tables, sk, K, code, t + 1, t');
    }
  }

  // ----- opening a table -----

  function Grow(sk: Sketch, p: seq<bool>, n: nat): Sketch { Sketch(sk.pre + [p], sk.bits + [n]) }

  lemma EntryGrows(A: Alphabet, slack: nat, sk: Sketch, p: seq<bool>, n: nat, id: nat, ent: Huft, s: seq<bool>)
    requires A.Valid() && id < |sk.pre| == |sk.bits| && EntryOK(A, slack, sk, id, ent, s)
    ensures EntryOK(A, slack, Grow(sk, p, n), id, ent, s)
  {
    if sym: nat :| SymbolEntry(A, slack, sk, id, ent, s, sym) {
      assert SymbolEntry(A, slack, Grow(sk, p, n), id, ent, s, sym);
    }
  }

  /** A pattern under a new prefix is not done. */
  lemma NotDone(q: seq<bool>, p: seq<bool>, code: seq<bool>)
    requires q <= code && forall t :: |q| <= t < |code| ==> !code[t]
    ensures !Before(q + p, code)
  {
    ZeroExtension(q + p, q, code);
    if Before(q + p, q) { BeforeExtends(q + p, q, q + p, q + p); }
  }

  lemma NotBeforePrefix(q: seq<bool>, code: seq<bool>)
    requires q <= code
    ensures !Before(q, code)
  {
    if Before(q, code) { BeforeExtends(q, code, q, code); }
  }

  /** The tables after a blank one of `n` bits, for the next bits of `code`, has been
      allocated and connected to the last one. */
  ghost predicate Opened(tables: seq<seq<Huft>>, tables': seq<seq<Huft>>, K: Levels, code: seq<bool>,
                         n: nat, blank: seq<Huft>)
    requires K.Valid() && K.Reach() < |code|
  {
    if K.h == -1 then
      tables' == tables + [blank]
    else
      var id, l := K.u[K.h], K.lx[K.h + 1];
      && id < |tables| && |tables[id]| == Pow2(l)
      && tables' == tables[id := tables[id][Val(code[K.w..K.Reach()]) := Huft(l, 16 + n, T(|tables|))]] + [blank]
  }

  lemma OpenEntries(A: Alphabet, slack: nat, tables: seq<seq<Huft>>, tables': seq<seq<Huft>>, sk: Sketch,
                    K: Levels, code: seq<bool>, n: nat, blank: seq<Huft>)
    requires A.Valid() && Built(A, slack, tables, sk, code, false) && Stack(tables, sk, K, code)
    requires K.h < 15 && K.Reach() < |code| && forall t :: K.Reach() <= t < |code| ==> !code[t]
    requires 1 <= n <= 16 && |blank| == Pow2(n) && Opened(tables, tables', K, code, n, blank)
    ensures Shape(tables', Grow(sk, code[..K.Reach()], n))
    ensures Entries(A, slack, tables', Grow(sk, code[..K.Reach()], n), code, false)
  {
    var q := code[..K.Reach()];
    var sk' := Grow(sk, q, n);
    if K.h >= 0 { assert Level(tables, sk, K, K.h, code); }
    assert Shape(tables', sk');
    forall id: nat, p: seq<bool> | id < |tables'| && |p| == sk'.bits[id] && Done(sk'.pre[id] + p, code, false)
      ensures EntryOK(A, slack, sk', id, Slot(tables', id, p), sk'.pre[id] + p)
    {
      if id == |tables| {
        NotDone(q, p, code);
      } else {
        KeptSlot(tables, tables', sk, K, code, n, blank, id, p);
        EntryGrows(A, slack, sk, q, n, id, Slot(tables, id, p), sk.pre[id] + p);
      }
    }
  }

  /** Connecting the new table changes no entry that is done. */
  lemma KeptSlot(tables: seq<seq<Huft>>, tables': seq<seq<Huft>>, sk: Sketch,
                 K: Levels, code: seq<bool>, n: nat, blank: seq<Huft>, id: nat, p: seq<bool>)
    requires Shape(tables, sk) && Stack(tables, sk, K, code) && K.Reach() < |code|
    requires Opened(tables, tables', K, code, n, blank)
    requires id < |tables| && |p| == sk.bits[id] && Before(sk.pre[id] + p, code)
    ensures |tables'| > id && |tables'[id]| == Pow2(|p|) && Slot(tables', id, p) == Slot(tables, id, p)
  {
    var q, tail := code[..K.Reach()], code[K.w..K.Reach()];
    if id == K.u[K.h] {
      assert Level(tables, sk, K, K.h, code);
      NotBeforePrefix(q, code);
      assert sk.pre[id] + tail == q;
      if Val(p) == Val(tail) { ValInjective(p, tail); }
    }
  }

  lemma OpenCuts(A: Alphabet, sk: Sketch, code: seq<bool>, w': nat, n: nat)
    requires A.Valid() && Cuts(A, sk) && !Oversubscribed(A.b)
    requires w' < |code| && Big(code) >= NextCode(A.b, |code|)
    requires w' < A.Eob() ==> w' + n <= A.Eob()
    ensures Cuts(A, Grow(sk, code[..w'], n))
  {
    var sk' := Grow(sk, code[..w'], n);
    forall id, sym: nat | 0 <= id < |sk'.pre| ensures !Decodes(A.b, sk'.pre[id], sym) {
      if id == |sk.pre| && sym < |A.b| && 0 < A.b[sym] <= w' {
        CodeBefore(A.b, sym, code);
        BeforeExtends(Codeword(A.b, sym), code, Codeword(A.b, sym), code);
      }
    }
  }

  lemma OpenStack(tables: seq<seq<Huft>>, tables': seq<seq<Huft>>, sk: Sketch,
                  K: Levels, code: seq<bool>, n: nat, blank: seq<Huft>)
    requires Shape(tables, sk) && Stack(tables, sk, K, code)
    requires K.h < 15 && K.Reach() < |code|
    requires 1 <= n <= 16 && |blank| == Pow2(n) && Opened(tables, tables', K, code, n, blank)
    requires Shape(tables', Grow(sk, code[..K.Reach()], n))
    ensures Stack(tables', Grow(sk, code[..K.Reach()], n), K.Push(|tables|, n, Val(code[..K.Reach()])), code)
  {
    hide Level, Linked, Before, Val, Opened;
    OpenLevels(tables, tables', sk, K, code, n, blank);
    OpenLinks(tables, tables', sk, K, code, n, blank);
    OpenPlaces(tables, tables', sk, K, code, n, blank);
  }

  lemma OpenLevels(tables: seq<seq<Huft>>, tables': seq<seq<Huft>>, sk: Sketch,
                  K: Levels, code: seq<bool>, n: nat, blank: seq<Huft>)
    requires Shape(tables, sk) && Stack(tables, sk, K, code)
    requires K.h < 15 && K.Reach() < |code|
    requires 1 <= n <= 16 && |blank| == Pow2(n) && Opened(tables, tables', K, code, n, blank)
    requires Shape(tables', Grow(sk, code[..K.Reach()], n))
    ensures var sk', K' := Grow(sk, code[..K.Reach()], n), K.Push(|tables|, n, Val(code[..K.Reach()]));
            K'.Valid() && forall t :: 0 <= t <= K'.h ==> Level(tables', sk', K', t, code)
  {
    hide Linked, Before, Val;
    var q := code[..K.Reach()];
    var sk', K' := Grow(sk, q, n), K.Push(|tables|, n, Val(q));
    if K.h >= 0 { assert Level(tables, sk, K, K.h, code); }
    forall t | 0 <= t <= K'.h ensures Level(tables', sk', K', t, code) {
      if t <= K.h { assert Level(tables, sk, K, t, code); }
    }
  }

  lemma OpenLinks(tables: seq<seq<Huft>>, tables': seq<seq<Huft>>, sk: Sketch,
                  K: Levels, code: seq<bool>, n: nat, blank: seq<Huft>)
    requires Shape(tables, sk) && Stack(tables, sk, K, code)
    requires K.h < 15 && K.Reach() < |code|
    requires 1 <= n <= 16 && |blank| == Pow2(n) && Opened(tables, tables', K, code, n, blank)
    requires Shape(tables', Grow(sk, code[..K.Reach()], n))
    ensures var sk', K' := Grow(sk, code[..K.Reach()], n), K.Push(|tables|, n, Val(code[..K.Reach()]));
            K'.Valid() && forall t :: 0 <= t < K'.h ==> Linked(tables', sk', K', t)
  {
    hide Before;
    var q := code[..K.Reach()];
    var sk', K' := Grow(sk, q, n), K.Push(|tables|, n, Val(q));
    if K.h >= 0 { assert Level(tables, sk, K, K.h, code); }
    forall t | 0 <= t < K'.h ensures Linked(tables', sk', K', t) {
      if t < K.h {
        assert Linked(tables, sk, K, t);
        Chain(tables, sk, K, code, t, K.h);
      } else {
        assert q[K.w..] == code[K.w..K.Reach()];
      }
    }
  }

  lemma OpenPlaces(tables: seq<seq<Huft>>, tables': seq<seq<Huft>>, sk: Sketch,
                  K: Levels, code: seq<bool>, n: nat, blank: seq<Huft>)
    requires Shape(tables, sk) && Stack(tables, sk, K, code)
    requires K.h < 15 && K.Reach() < |code|
    requires 1 <= n <= 16 && |blank| == Pow2(n) && Opened(tables, tables', K, code, n, blank)
    requires Shape(tables', Grow(sk, code[..K.Reach()], n))
    ensures var sk', K' := Grow(sk, code[..K.Reach()], n), K.Push(|tables|, n, Val(code[..K.Reach()]));
            K'.Valid() && K'.u[K'.h] < |tables'| && K'.w == |sk'.pre[K'.u[K'.h]]| && K'.u[0] == 0
            && forall id :: 0 <= id < |tables'| ==> K'.Has(id) || Before(sk'.pre[id], code)
  {
    hide Linked, Level, Before, Val;
    var q := code[..K.Reach()];
    var sk', K' := Grow(sk, q, n), K.Push(|tables|, n, Val(q));
    forall id | 0 <= id < |tables'| ensures K'.Has(id) || Before(sk'.pre[id], code) {
      if id == |tables| {
        assert K'.u[K'.h] == id;
      } else if K.Has(id) {
        var t :| 0 <= t <= K.h && K.u[t] == id;
        assert K'.u[t] == id;
      }
    }
  }

  // ----- writing the entries of a code and moving on to the next -----

  /** `table'` is `table` with the entries for patterns that start with `tail`
      replaced by `r`. */
  ghost predicate Filled(table: seq<Huft>, table': seq<Huft>, n: nat, tail: seq<bool>, r: Huft) {
    && |table'| == |table| == Pow2(n)
    && forall p: seq<bool> {:trigger Val(p)} :: |p| == n ==> table'[Val(p)] == if tail <= p then r else table[Val(p)]
  }

  ghost predicate FillStep(A: Alphabet, slack: nat, tables: seq<seq<Huft>>, tables': seq<seq<Huft>>, sk: Sketch,
                           K: Levels, code: seq<bool>, r: Huft)
    requires A.Valid() && Shape(tables, sk) && Stack(tables, sk, K, code) && K.h >= 0
  {
    var id := K.u[K.h];
    && K.w < |code| <= K.Reach()
    && |tables'| == |tables| && tables' == tables[id := tables'[id]]
    && Filled(tables[id], tables'[id], K.lx[K.h + 1], code[K.w..], r)
    && (forall s {:trigger EntryOK(A, slack, sk, id, r, s)} :: code <= s ==> EntryOK(A, slack, sk, id, r, s))
  }

  lemma FillEntries(A: Alphabet, slack: nat, tables: seq<seq<Huft>>, tables': seq<seq<Huft>>, sk: Sketch,
                    K: Levels, code: seq<bool>, r: Huft)
    requires A.Valid() && Built(A, slack, tables, sk, code, false) && Stack(tables, sk, K, code) && K.h >= 0
    requires FillStep(A, slack, tables, tables', sk, K, code, r)
    ensures Built(A, slack, tables', sk, Inc(code), AllOnes(code))
  {
    assert Level(tables, sk, K, K.h, code);
    forall id: nat, p: seq<bool> |
        id < |tables'| && |p| == sk.bits[id] && Done(sk.pre[id] + p, Inc(code), AllOnes(code))
      ensures EntryOK(A, slack, sk, id, Slot(tables', id, p), sk.pre[id] + p)
    {
      FillEntry(A, slack, tables, tables', sk, K, code, r, id, p);
    }
  }

  lemma FillEntry(A: Alphabet, slack: nat, tables: seq<seq<Huft>>, tables': seq<seq<Huft>>, sk: Sketch,
                  K: Levels, code: seq<bool>, r: Huft, id: nat, p: seq<bool>)
    requires A.Valid() && Built(A, slack, tables, sk, code, false) && Stack(tables, sk, K, code) && K.h >= 0
    requires FillStep(A, slack, tables, tables', sk, K, code, r) && Shape(tables', sk)
    requires id < |tables'| && |p| == sk.bits[id] && Done(sk.pre[id] + p, Inc(code), AllOnes(code))
    ensures EntryOK(A, slack, sk, id, Slot(tables', id, p), sk.pre[id] + p)
  {
    var s := sk.pre[id] + p;
    if AllOnes(code) { LastOrder(code, s); } else { IncOrder(code, s); }
    if Before(s, code) {
      OldEntry(A, slack, tables, tables', sk, K, code, r, id, p);
    } else {
      NewEntry(A, slack, tables, tables', sk, K, code, r, id, p);
    }
  }

  /** An entry done before is not overwritten. */
  lemma OldEntry(A: Alphabet, slack: nat, tables: seq<seq<Huft>>, tables': seq<seq<Huft>>, sk: Sketch,
                 K: Levels, code: seq<bool>, r: Huft, id: nat, p: seq<bool>)
    requires A.Valid() && Built(A, slack, tables, sk, code, false) && Stack(tables, sk, K, code) && K.h >= 0
    requires FillStep(A, slack, tables, tables', sk, K, code, r) && Shape(tables', sk)
    requires id < |tables'| && |p| == sk.bits[id] && Before(sk.pre[id] + p, code)
    ensures EntryOK(A, slack, sk, id, Slot(tables', id, p), sk.pre[id] + p)
  {
    var s := sk.pre[id] + p;
    assert Level(tables, sk, K, K.h, code);
    BeforeExtends(s, code, s, code);
    if id == K.u[K.h] {
      assert code == sk.pre[id] + code[K.w..];
      assert !(code[K.w..] <= p);
    }
    assert Slot(tables', id, p) == Slot(tables, id, p);
  }

  /** An entry done with this code was just written, or links to a table that is. */
  lemma NewEntry(A: Alphabet, slack: nat, tables: seq<seq<Huft>>, tables': seq<seq<Huft>>, sk: Sketch,
                 K: Levels, code: seq<bool>, r: Huft, id: nat, p: seq<bool>)
    requires A.Valid() && Built(A, slack, tables, sk, code, false) && Stack(tables, sk, K, code) && K.h >= 0
    requires FillStep(A, slack, tables, tables', sk, K, code, r) && Shape(tables', sk)
    requires id < |tables'| && |p| == sk.bits[id]
    requires code <= sk.pre[id] + p || sk.pre[id] + p <= code
    ensures EntryOK(A, slack, sk, id, Slot(tables', id, p), sk.pre[id] + p)
  {
    var s := sk.pre[id] + p;
    if Before(sk.pre[id], code) { BeforeExtends(sk.pre[id], code, s, code); }
    var t :| 0 <= t <= K.h && K.u[t] == id;
    assert Level(tables, sk, K, t, code);
    if t < K.h {
      LinkKept(tables, tables', sk, K, code, s, t);
      assert p == s[|sk.pre[id]|..];
    } else {
      NewLast(A, slack, tables, tables', sk, K, code, r, id, p);
    }
  }

  /** The entries of the last table on the stack. */
  lemma NewLast(A: Alphabet, slack: nat, tables: seq<seq<Huft>>, tables': seq<seq<Huft>>, sk: Sketch,
                K: Levels, code: seq<bool>, r: Huft, id: nat, p: seq<bool>)
    requires A.Valid() && Built(A, slack, tables, sk, code, false) && Stack(tables, sk, K, code) && K.h >= 0
    requires FillStep(A, slack, tables, tables', sk, K, code, r) && Shape(tables', sk)
    requires id < |tables'| && |p| == sk.bits[id] && id == K.u[K.h]
    requires code <= sk.pre[id] + p || sk.pre[id] + p <= code
    ensures EntryOK(A, slack, sk, id, Slot(tables', id, p), sk.pre[id] + p)
  {
    hide EntryOK, Entries, Cuts, Linked;
    var s := sk.pre[id] + p;
    assert Level(tables, sk, K, K.h, code);
    assert code <= s;
    assert code == sk.pre[id] + code[K.w..];
    assert code[K.w..] <= p;
    assert EntryOK(A, slack, sk, id, r, s);
  }

  /** The code that leads to an open table is not finished before that table. */
  lemma LinkKept(tables: seq<seq<Huft>>, tables': seq<seq<Huft>>, sk: Sketch,
                 K: Levels, code: seq<bool>, s: seq<bool>, t: nat)
    requires Shape(tables, sk) && Shape(tables', sk) && Stack(tables, sk, K, code)
    requires t < K.h && K.u[K.h] < |tables| && tables' == tables[K.u[K.h] := tables'[K.u[K.h]]]
    requires K.u[t] < |tables| && |s| == |sk.pre[K.u[t]]| + sk.bits[K.u[t]] && (s <= code || code <= s)
    ensures sk.pre[K.u[t]] <= s && IsLink(sk, K.u[t], Slot(tables', K.u[t], s[|sk.pre[K.u[t]]|..]), s)
  {
    assert Linked(tables, sk, K, t);
    assert Level(tables, sk, K, t + 1, code);
    Chain(tables, sk, K, code, t, K.h);
    assert s == sk.pre[K.u[t + 1]];
  }

  /** Backing up over the tables that the next code has left. */
  lemma BackUp(tables: seq<seq<Huft>>, tables': seq<seq<Huft>>, sk: Sketch, K: Levels, K': Levels, code: seq<bool>)
    requires Shape(tables, sk) && Shape(tables', sk)
    requires Stack(tables, sk, K, code) && 0 <= K'.h <= K.h && K.u[K.h] < |tables|
    requires K' == K.(h := K'.h, w := K'.w)
    requires tables' == tables[K.u[K.h] := tables'[K.u[K.h]]]
    requires code != [] && !AllOnes(code)
    requires forall t :: 0 <= t <= K.h ==> K.u[t] < |sk.pre|
    requires K'.w == |sk.pre[K.u[K'.h]]| && sk.pre[K.u[K'.h]] <= Inc(code)
    requires forall t {:trigger K.u[t]} :: K'.h < t <= K.h ==> !(sk.pre[K.u[t]] <= Inc(code))
    ensures Stack(tables', sk, K', Inc(code))
    ensures K'.h < K.h ==> K'.Reach() < |code| && forall t :: K'.Reach() <= t < |code| ==> !Inc(code)[t]
  {
    hide Level, Linked, Inc, Before, AllOnes;
    LevelDepth(tables, sk, K, code, K'.h);
    BackUpLevels(tables, tables', sk, K, K', code);
    BackUpLinks(tables, tables', sk, K, K', code);
    forall id | 0 <= id < |tables'| ensures K'.Has(id) || Before(sk.pre[id], Inc(code)) {
      LeftTable(tables, sk, K, K', code, id);
    }
    if K'.h < K.h { BackUpReach(tables, sk, K, K', code); }
  }

  lemma LevelDepth(tables: seq<seq<Huft>>, sk: Sketch, K: Levels, code: seq<bool>, t: nat)
    requires Shape(tables, sk) && Stack(tables, sk, K, code) && t <= K.h
    ensures K.u[t] < |tables| && t <= |sk.pre[K.u[t]]|
  {
    assert Level(tables, sk, K, t, code);
  }

  lemma BackUpReach(tables: seq<seq<Huft>>, sk: Sketch, K: Levels, K': Levels, code: seq<bool>)
    requires Shape(tables, sk) && Stack(tables, sk, K, code)
    requires K.Valid() && 0 <= K'.h < K.h && K' == K.(h := K'.h, w := K'.w) && K'.Valid() && !AllOnes(code)
    requires forall t :: 0 <= t <= K.h ==> K.u[t] < |sk.pre|
    requires K'.w == |sk.pre[K.u[K'.h]]|
    requires forall t {:trigger K.u[t]} :: K'.h < t <= K.h ==> !(sk.pre[K.u[t]] <= Inc(code))
    ensures K'.Reach() < |code| && forall t :: K'.Reach() <= t < |code| ==> !Inc(code)[t]
  {
    hide Stack, Shape, AllOnes, Inc;
    assert !(sk.pre[K.u[K'.h + 1]] <= Inc(code));
    LeftReach(tables, sk, K, K'.h, code);
  }

  /** The levels that are left lead to the next code. */
  lemma BackUpLevels(tables: seq<seq<Huft>>, tables': seq<seq<Huft>>, sk: Sketch, K: Levels, K': Levels, code: seq<bool>)
    requires Shape(tables, sk) && Shape(tables', sk) && Stack(tables, sk, K, code)
    requires 0 <= K'.h <= K.h && K' == K.(h := K'.h, w := K'.w) && K'.Valid()
    requires K.u[K'.h] < |sk.pre| && sk.pre[K.u[K'.h]] <= Inc(code)
    ensures forall t :: 0 <= t <= K'.h ==> Level(tables', sk, K', t, Inc(code))
  {
    hide Linked, Inc;
    forall t | 0 <= t <= K'.h ensures Level(tables', sk, K', t, Inc(code)) {
      assert Level(tables, sk, K, t, code);
      Chain(tables, sk, K, code, t, K'.h);
    }
  }

  lemma BackUpLinks(tables: seq<seq<Huft>>, tables': seq<seq<Huft>>, sk: Sketch, K: Levels, K': Levels, code: seq<bool>)
    requires Shape(tables, sk) && Shape(tables', sk) && Stack(tables, sk, K, code)
    requires 0 <= K'.h <= K.h && K' == K.(h := K'.h, w := K'.w) && K'.Valid() && K.u[K.h] < |tables|
    requires tables' == tables[K.u[K.h] := tables'[K.u[K.h]]]
    ensures forall t :: 0 <= t < K'.h ==> Linked(tables', sk, K', t)
  {
    hide Level, Linked, Stack;
    forall t | 0 <= t < K'.h ensures Linked(tables', sk, K', t) {
      LinkStays(tables, tables', sk, K, K', code, t);
    }
  }

  /** Filling the last table changes no link to an earlier one. */
  lemma LinkStays(tables: seq<seq<Huft>>, tables': seq<seq<Huft>>, sk: Sketch, K: Levels, K': Levels,
                  code: seq<bool>, t: nat)
    requires Shape(tables, sk) && Shape(tables', sk) && Stack(tables, sk, K, code) && t < K'.h <= K.h
    requires K'.Valid() && K'.u == K.u && K.u[K.h] < |tables|
    requires tables' == tables[K.u[K.h] := tables'[K.u[K.h]]]
    ensures Linked(tables', sk, K', t)
  {
    assert Linked(tables, sk, K, t);
    Chain(tables, sk, K, code, t, K.h);
  }

  /** A table is still on the stack or all its patterns are before the next code. */
  lemma LeftTable(tables: seq<seq<Huft>>, sk: Sketch, K: Levels, K': Levels, code: seq<bool>, id: nat)
    requires Shape(tables, sk) && Stack(tables, sk, K, code) && 0 <= K'.h <= K.h && id < |tables|
    requires K' == K.(h := K'.h, w := K'.w) && K'.Valid() && !AllOnes(code)
    requires forall t :: 0 <= t <= K.h ==> K.u[t] < |sk.pre|
    requires forall t {:trigger K.u[t]} :: K'.h < t <= K.h ==> !(sk.pre[K.u[t]] <= Inc(code))
    ensures K'.Has(id) || Before(sk.pre[id], Inc(code))
  {
    if Before(sk.pre[id], code) {
      IncOrder(code, sk.pre[id]);
    } else {
      var t :| 0 <= t <= K.h && K.u[t] == id;
      if t > K'.h {
        assert Level(tables, sk, K, t, code);
        LeftBehind(sk.pre[id], code);
      } else {
        assert K'.u[t] == id;
      }
    }
  }

  /** After a table has been left, the next code is zero from the end of the last one on. */
  lemma LeftReach(tables: seq<seq<Huft>>, sk: Sketch, K: Levels, h: nat, code: seq<bool>)
    requires Shape(tables, sk) && Stack(tables, sk, K, code) && h < K.h && !AllOnes(code)
    requires K.u[h] < |sk.pre| && K.u[h + 1] < |sk.pre| && !(sk.pre[K.u[h + 1]] <= Inc(code))
    ensures |sk.pre[K.u[h]]| + K.lx[h + 1] < |code|
    ensures forall t :: |sk.pre[K.u[h]]| + K.lx[h + 1] <= t < |code| ==> !Inc(code)[t]
  {
    NextTable(tables, sk, K, code, h);
    LeftBehind(sk.pre[K.u[h + 1]], code);
  }

  /** A table of the stack starts where the one before it ends. */
  lemma NextTable(tables: seq<seq<Huft>>, sk: Sketch, K: Levels, code: seq<bool>, h: nat)
    requires Shape(tables, sk) && Stack(tables, sk, K, code) && h < K.h
    ensures K.u[h] < |sk.pre| && K.u[h + 1] < |sk.pre|
    ensures |sk.pre[K.u[h]]| + K.lx[h + 1] == |sk.pre[K.u[h + 1]]| < |code| && sk.pre[K.u[h + 1]] <= code
  {
    assert Linked(tables, sk, K, h);
    assert Level(tables, sk, K, h, code);
    assert Level(tables, sk, K, h + 1, code);
  }

  /** A prefix of this code that the next one does not share is done, and the next
      one is zero after it. */
  lemma LeftBehind(q: seq<bool>, code: seq<bool>)
    requires !AllOnes(code) && q <= code && !(q <= Inc(code))
    ensures Before(q, Inc(code))
    ensures forall v :: |q| <= v < |code| ==> !Inc(code)[v]
  {
    var t := IncShape(code);
    Parts(q, code, Inc(code), t);
  }

  /** Where two strings part is where a prefix of the first alone parts from the second. */
  lemma Parts(q: seq<bool>, s: seq<bool>, next: seq<bool>, t: nat)
    requires q <= s && !(q <= next) && DiffAt(s, next, t)
    ensures t < |q| && DiffAt(q, next, t)
  {
    SharedPrefix(q, s, next, t);
    assert q[..t] == s[..t];
  }

  lemma SharedPrefix(q: seq<bool>, s: seq<bool>, next: seq<bool>, t: nat)
    requires q <= s && DiffAt(s, next, t)
    ensures |q| <= t ==> q <= next
  {
    if |q| <= t { assert q == s[..t][..|q|] == next[..t][..|q|] == next[..|q|]; }
  }

  /** Codes of the next length start with a zero more. */
  lemma Lengthen(A: Alphabet, slack: nat, tables: seq<seq<Huft>>, sk: Sketch, K: Levels, code: seq<bool>)
    requires A.Valid() && Built(A, slack, tables, sk, code, false) && Stack(tables, sk, K, code)
    ensures Built(A, slack, tables, sk, code + [false], false)
    ensures Stack(tables, sk, K, code + [false])
  {
    var code' := code + [false];
    forall s ensures Before(s, code') <==> Before(s, code) { ZeroExtension(s, code, code'); }
    forall t | 0 <= t <= K.h ensures Level(tables, sk, K, t, code') {
      assert Level(tables, sk, K, t, code);
    }
  }
}
