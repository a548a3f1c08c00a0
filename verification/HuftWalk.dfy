/** Looking up the next symbol of a bit stream in a set of tables, and what the
    tables must do to decode an alphabet. */
module HuftWalk {
  import opened Bits
  import opened Huffman
  import opened HuftTables

  /** `Starved`: the walk asked for more bits than the stream has. `Hit`: it ended at
      `entry` in a table that starts `skip` bits into the stream. */
  datatype Lookup = Starved | Broken | Hit(entry: Huft, skip: nat)

  /** Whether an entry leads to another table. */
  predicate Leads(ent: Huft) { ent.e > 16 && ent.e != 99 }

  /** The walk from table `id`, indexed by the `n` bits after the first `skip`. */
  function Walk(tables: seq<seq<Huft>>, id: nat, n: nat, skip: nat, stream: seq<bool>): Lookup
    decreases |tables| - id
  {
    if id >= |tables| then Broken
    else if |stream| < skip + n then Starved
    else
      var index := Val(stream[skip..skip + n]);
      if index >= |tables[id]| then Broken
      else
        var ent := tables[id][index];
        if !Leads(ent) then (if ent.e == 99 || ent.b <= n then Hit(ent, skip) else Broken)
        else if ent.v.T? && id < ent.v.t && ent.b <= n && ent.e <= 16 + BMAX then
          Walk(tables, ent.v.t, ent.e - 16, skip + ent.b, stream)
        else Broken
  }

  /** What one lookup owes to the prefix code of the alphabet. */
  ghost predicate Right(A: Alphabet, slack: nat, stream: seq<bool>, r: Lookup)
    requires A.Valid()
  {
    && r != Broken
    // The entry found stands for the symbol that the stream starts with.
    && (r.Hit? ==> forall sym: nat :: Decodes(A.b, stream, sym) ==> IsLeaf(A, r.entry, sym, r.skip))
    && (r.Hit? && (forall sym: nat :: !Decodes(A.b, stream, sym)) ==> r.entry.e == 99)
    // No more than `slack` bits beyond a symbol are asked for, and none beyond the
    // end-of-block symbol.
    && (r.Starved? ==> forall sym: nat :: Decodes(A.b, stream, sym) ==>
                         sym != 256 && |stream| < A.b[sym] + slack)
  }

  ghost predicate Realizes(A: Alphabet, slack: nat, tables: seq<seq<Huft>>, bl: nat)
    requires A.Valid()
  {
    forall stream {:trigger Walk(tables, 0, bl, 0, stream)} ::
      Right(A, slack, stream, Walk(tables, 0, bl, 0, stream))
  }

  lemma {:induction false} WalkRight(A: Alphabet, slack: nat, tables: seq<seq<Huft>>, sk: Sketch,
                                     code: seq<bool>, id: nat, stream: seq<bool>)
    requires A.Valid() && !Oversubscribed(A.b) && Built(A, slack, tables, sk, code, true)
    requires id < |tables| && sk.pre[id] <= stream
    ensures Right(A, slack, stream, Walk(tables, id, sk.bits[id], |sk.pre[id]|, stream))
    decreases |tables| - id
  {
    var skip, n := |sk.pre[id]|, sk.bits[id];
    if |stream| < skip + n {
      forall sym: nat | Decodes(A.b, stream, sym) ensures sym != 256 && |stream| < A.b[sym] + slack {
        StarvedLate(A, slack, tables, sk, code, id, stream, sym);
      }
    } else {
      var p := stream[skip..skip + n];
      var s, ent := sk.pre[id] + p, Slot(tables, id, p);
      assert s == stream[..skip + n];
      assert EntryOK(A, slack, sk, id, ent, s);
      if IsLink(sk, id, ent, s) {
        WalkRight(A, slack, tables, sk, code, ent.v.t, stream);
      } else {
        HitRight(A, slack, sk, id, ent, s, stream);
      }
    }
  }

  lemma HitRight(A: Alphabet, slack: nat, sk: Sketch, id: nat, ent: Huft, s: seq<bool>, stream: seq<bool>)
    requires A.Valid() && !Oversubscribed(A.b) && id < |sk.pre| && s <= stream
    requires EntryOK(A, slack, sk, id, ent, s) && !IsLink(sk, id, ent, s)
    ensures !Leads(ent) && (ent.e == 99 || ent.b + |sk.pre[id]| <= |s|)
    ensures Right(A, slack, stream, Hit(ent, |sk.pre[id]|))
  {
    if sym: nat :| SymbolEntry(A, slack, sk, id, ent, s, sym) {
      assert Decodes(A.b, stream, sym);
      forall sym': nat | Decodes(A.b, stream, sym') ensures sym' == sym {
        DecodesOnce(A.b, stream, sym, sym');
      }
    } else {
      forall sym: nat | Decodes(A.b, stream, sym) ensures false {
        BeforeExtends(Codeword(A.b, sym), s, stream, stream);
      }
    }
  }

  /** A walk that runs out of bits is about to pass the symbol's last one. */
  lemma StarvedLate(A: Alphabet, slack: nat, tables: seq<seq<Huft>>, sk: Sketch,
                    code: seq<bool>, id: nat, stream: seq<bool>, sym: nat)
    requires A.Valid() && !Oversubscribed(A.b) && Built(A, slack, tables, sk, code, true)
    requires id < |tables| && sk.pre[id] <= stream && |stream| < |sk.pre[id]| + sk.bits[id]
    requires Decodes(A.b, stream, sym)
    ensures sym != 256 && |stream| < A.b[sym] + slack
  {
    var skip, n := |sk.pre[id]|, sk.bits[id];
    assert !Decodes(A.b, sk.pre[id], sym);
    DecodesBeyond(A.b, sk.pre[id], stream, sym);
    var full := stream + Zeros(skip + n - |stream|);
    var p := full[skip..];
    assert full == sk.pre[id] + p;
    var ent := Slot(tables, id, p);
    assert Decodes(A.b, full, sym);
    assert EntryOK(A, slack, sk, id, ent, full);
    assert forall t :: 0 <= t < |sk.pre| ==> !Decodes(A.b, sk.pre[t], sym);
    if sym': nat :| SymbolEntry(A, slack, sk, id, ent, full, sym') {
      DecodesOnce(A.b, full, sym, sym');
    } else if IsInvalid(A, ent, full) {
      BeforeExtends(Codeword(A.b, sym), full, full, full);
    }
  }

  lemma DecodesBeyond(b: seq<nat>, s: seq<bool>, stream: seq<bool>, sym: nat)
    requires s <= stream && Decodes(b, stream, sym) && !Decodes(b, s, sym)
    ensures |s| < b[sym]
  {
    assert s == stream[..|s|];
  }

  lemma BuiltRealizes(A: Alphabet, slack: nat, tables: seq<seq<Huft>>, sk: Sketch, code: seq<bool>)
    requires A.Valid() && !Oversubscribed(A.b) && Built(A, slack, tables, sk, code, true)
    requires tables != []
    ensures Realizes(A, slack, tables, sk.bits[0])
  {
    forall stream ensures Right(A, slack, stream, Walk(tables, 0, sk.bits[0], 0, stream)) {
      WalkRight(A, slack, tables, sk, code, 0, stream);
    }
  }

  /** A valid entry found stands for the next symbol. */
  lemma HitSymbol(A: Alphabet, slack: nat, stream: seq<bool>, t: Huft, skip: nat) returns (sym: nat)
    requires A.Valid() && Right(A, slack, stream, Hit(t, skip)) && t.e != 99
    ensures Decodes(A.b, stream, sym) && IsLeaf(A, t, sym, skip)
  {
    sym :| Decodes(A.b, stream, sym);
  }

  /** The walk has come to entry `t` of table `id`. */
  ghost predicate At(tables: seq<seq<Huft>>, id: nat, n: nat, skip: nat, stream: seq<bool>, t: Huft) {
    && id < |tables| && skip + n <= |stream|
    && Val(stream[skip..skip + n]) < |tables[id]|
    && t == tables[id][Val(stream[skip..skip + n])]
  }

  lemma AtTable(tables: seq<seq<Huft>>, id: nat, n: nat, skip: nat, stream: seq<bool>, t: Huft)
    requires At(tables, id, n, skip, stream, t)
    ensures id < |tables|
  {
  }

  /** One step of a walk that does not break. */
  lemma WalkStep(tables: seq<seq<Huft>>, id: nat, n: nat, skip: nat, stream: seq<bool>, t: Huft)
    requires Walk(tables, id, n, skip, stream) != Broken && At(tables, id, n, skip, stream, t)
    ensures Leads(t) ==> t.v.T? && id < t.v.t && t.b <= n && t.e <= 16 + BMAX
    ensures Leads(t) ==> Walk(tables, id, n, skip, stream) == Walk(tables, t.v.t, t.e - 16, skip + t.b, stream)
    ensures !Leads(t) ==> Walk(tables, id, n, skip, stream) == Hit(t, skip) && (t.e == 99 || t.b <= n)
  {
  }

  /** The reason why a lookup may fail: the stream starts with no usable symbol, or
      ends within `slack` bits of the symbol, which is not the end-of-block one. */
  ghost predicate MayFail(A: Alphabet, slack: nat, stream: seq<bool>)
    requires A.Valid()
  {
    forall s: nat :: Decodes(A.b, stream, s) ==> A.Kind(s) == 99 || (s != 256 && |stream| < A.b[s] + slack)
  }

  lemma MissFails(A: Alphabet, slack: nat, stream: seq<bool>, r: Lookup)
    requires A.Valid() && Right(A, slack, stream, r)
    requires r.Starved? || (r.Hit? && r.entry.e == 99)
    ensures MayFail(A, slack, stream)
  {
  }
}
