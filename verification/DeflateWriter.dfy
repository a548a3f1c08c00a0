/** A writer of the DEFLATE format, from the formulas and numbers of RFC 1951, and a proof
    that what it writes is read back. It shares no table with the parser. */
module DeflateWriter {
  import opened Bits
  import opened Division
  import opened Huffman
  import opened Deflate
  import opened DeflateLimits

  // ----- lengths and distances (section 3.2.5) -----

  /** The place of the highest bit. */
  function Log(x: nat): (r: nat)
    requires x >= 1
    ensures Pow2(r) <= x < Pow2(r + 1)
  {
    if x < 2 then 0 else 1 + Log(x / 2)
  }

  /** The extra bits of a length: eight lengths have none, then their number grows by one
      with every four codes; the greatest length has a code of its own. */
  function LengthExtra(len: nat): nat { if len < 7 || len == 258 then 0 else Log(len - 3) - 2 }

  function LengthCode(len: nat): nat
    requires len >= 3
  {
    if len == 258 then 285 else 257 + 4 * LengthExtra(len) + (len - 3) / Pow2(LengthExtra(len))
  }

  function LengthValue(len: nat): nat
    requires len >= 3
  {
    if len == 258 then 0 else (len - 3) % Pow2(LengthExtra(len))
  }

  /** The extra bits of a distance: four distances have none, then their number grows by one
      with every two codes. */
  function DistanceExtra(d: nat): nat { if d < 3 then 0 else Log(d - 1) - 1 }

  function DistanceCode(d: nat): nat
    requires d >= 1
  {
    2 * DistanceExtra(d) + (d - 1) / Pow2(DistanceExtra(d))
  }

  function DistanceValue(d: nat): nat
    requires d >= 1
  {
    (d - 1) % Pow2(DistanceExtra(d))
  }

  /** The ranges of lengths follow one after the other, without a gap, from 3 to 257;
      length 258 has the last code. */
  lemma LengthRanges()
    ensures |CPLENS| == |CPLEXT| == 31 && CPLENS[0] == 3 && CPLENS[28] == 258 && CPLEXT[28] == 0
    ensures forall i :: 0 <= i < 27 ==> CPLENS[i + 1] == CPLENS[i] + Pow2(CPLEXT[i])
    ensures CPLENS[27] + Pow2(CPLEXT[27]) - 1 == 258
    ensures forall i :: 0 <= i < 28 ==> CPLEXT[i] == if i < 8 then 0 else (i - 4) / 4
  {
    Powers();
  }

  /** So do the ranges of distances, from 1 to 32768. */
  lemma DistanceRanges()
    ensures |CPDIST| == |CPDEXT| == 30 && CPDIST[0] == 1
    ensures forall i :: 0 <= i < 29 ==> CPDIST[i + 1] == CPDIST[i] + Pow2(CPDEXT[i])
    ensures CPDIST[29] + Pow2(CPDEXT[29]) - 1 == 32768
    ensures forall i :: 0 <= i < 30 ==> CPDEXT[i] == if i < 4 then 0 else (i - 2) / 2
  {
    Powers();
  }

  /** The lengths of the code length codes come in this order: the repeat symbols, zero, and
      then outwards from eight. */
  lemma LengthOrder()
    ensures |BORDER| == 19 && BORDER[..4] == [16, 17, 18, 0]
    ensures forall i :: 0 <= i < 8 ==> BORDER[4 + 2 * i] == 8 + i
    ensures forall i :: 0 <= i < 7 ==> BORDER[5 + 2 * i] == 7 - i
  {
  }

  function LengthBase(i: nat): nat
    requires i < 31
  {
    CPLENS[i]
  }

  function LengthBits(i: nat): nat
    requires i < 31
  {
    CPLEXT[i]
  }

  function DistanceBase(i: nat): nat
    requires i < 30
  {
    CPDIST[i]
  }

  function DistanceBits(i: nat): nat
    requires i < 30
  {
    CPDEXT[i]
  }

  lemma NextLength(i: nat)
    requires i < 28
    ensures LengthBase(0) == 3 && LengthBits(i) == if i < 8 then 0 else (i - 4) / 4
    ensures i < 27 ==> LengthBase(i + 1) == LengthBase(i) + Pow2(LengthBits(i))
  {
    LengthRanges();
  }

  lemma NextDistance(i: nat)
    requires i < 30
    ensures DistanceBase(0) == 1 && DistanceBits(i) == if i < 4 then 0 else (i - 2) / 2
    ensures i < 29 ==> DistanceBase(i + 1) == DistanceBase(i) + Pow2(DistanceBits(i))
  {
    DistanceRanges();
  }

  lemma Double(e: nat)
    ensures Pow2(e + 1) == 2 * Pow2(e) && Pow2(0) == 1
  {
  }

  lemma Times(q: nat, p: nat)
    requires q >= 1
    ensures q * p == (q - 1) * p + p
  {
  }

  lemma {:induction false} LengthStart(e: nat, q: nat)
    requires if e == 0 then q < 8 else e <= 5 && 4 <= q < 8
    ensures LengthBits(4 * e + q) == e && LengthBase(4 * e + q) == 3 + q * Pow2(e)
  {
    hide LengthBase, LengthBits, Pow2;
    NextLength(4 * e + q);
    if q == 0 {
      assert 0 * Pow2(e) == 0;
    } else if e == 0 || q > 4 {
      LengthStart(e, q - 1);
      NextLength(4 * e + q - 1);
      Times(q, Pow2(e));
    } else {
      LengthStart(e - 1, 7);
      NextLength(4 * e + q - 1);
      Double(e - 1);
    }
  }

  lemma {:induction false} DistanceStart(e: nat, q: nat)
    requires if e == 0 then q < 4 else e <= 13 && 2 <= q < 4
    ensures DistanceBits(2 * e + q) == e && DistanceBase(2 * e + q) == 1 + q * Pow2(e)
  {
    hide DistanceBase, DistanceBits, Pow2;
    NextDistance(2 * e + q);
    if q == 0 {
      assert 0 * Pow2(e) == 0;
    } else if e == 0 || q > 2 {
      DistanceStart(e, q - 1);
      NextDistance(2 * e + q - 1);
      Times(q, Pow2(e));
    } else {
      DistanceStart(e - 1, 3);
      NextDistance(2 * e + q - 1);
      Double(e - 1);
    }
  }

  /** A number with its highest bit at `e + k` is between 2^k and 2^(k + 1) in units of 2^e. */
  lemma Leading(x: nat, e: nat, k: nat)
    requires Pow2(e + k) <= x < Pow2(e + k + 1)
    ensures Pow2(k) <= x / Pow2(e) < Pow2(k + 1)
  {
    Pow2Add(e, k);
    Pow2Add(e, k + 1);
    Between(x, Pow2(e), Pow2(k), Pow2(k + 1));
  }

  lemma Between(x: nat, p: nat, a: nat, b: nat)
    requires p > 0 && p * a <= x < p * b
    ensures a <= x / p < b
  {
    Floor(x, p);
    MulCancel(a, x / p, p);
    MulCancel(x / p, b - 1, p);
  }

  lemma {:induction false} LogBelow(x: nat, n: nat)
    requires 1 <= x < Pow2(n)
    ensures Log(x) < n
  {
    if Log(x) >= n { Pow2Monotone(n, Log(x)); }
  }

  lemma {:induction false} LogAbove(x: nat, n: nat)
    requires x >= Pow2(n)
    ensures Log(x) >= n
  {
    if Log(x) < n { Pow2Monotone(Log(x) + 1, n); }
  }

  /** Each length from 3 to 258 is that of its code and extra bits. */
  lemma LengthIs(len: nat)
    requires 3 <= len <= 258
    ensures var i := LengthCode(len) - 257;
            && 0 <= i < 29 && CPLEXT[i] == LengthExtra(len) && LengthValue(len) < Pow2(LengthExtra(len))
            && CPLENS[i] + LengthValue(len) == len
  {
    if len == 258 { LengthRanges(); } else { LengthPlace(len); }
  }

  lemma LengthPlace(len: nat)
    requires 3 <= len < 258
    ensures var i := LengthCode(len) - 257;
            && 0 <= i < 28 && LengthBits(i) == LengthExtra(len) && LengthValue(len) < Pow2(LengthExtra(len))
            && LengthBase(i) + LengthValue(len) == len
  {
    hide LengthBase, LengthBits, Pow2, Log;
    Powers();
    var x, e := len - 3, LengthExtra(len);
    if len >= 7 {
      LogAbove(x, 2);
      LogBelow(x, 8);
      Leading(x, e, 2);
    }
    LengthStart(e, x / Pow2(e));
    Floor(x, Pow2(e));
  }

  /** Each distance from 1 to 32768 is that of its code and extra bits. */
  lemma DistanceIs(d: nat)
    requires 1 <= d <= 32768
    ensures var i := DistanceCode(d);
            && i < 30 && CPDEXT[i] == DistanceExtra(d) && DistanceValue(d) < Pow2(DistanceExtra(d))
            && CPDIST[i] + DistanceValue(d) == d
  {
    DistancePlace(d);
  }

  lemma DistancePlace(d: nat)
    requires 1 <= d <= 32768
    ensures var i := DistanceCode(d);
            && i < 30 && DistanceBits(i) == DistanceExtra(d) && DistanceValue(d) < Pow2(DistanceExtra(d))
            && DistanceBase(i) + DistanceValue(d) == d
  {
    hide DistanceBase, DistanceBits, Pow2, Log;
    Powers();
    var x, e := d - 1, DistanceExtra(d);
    if d >= 3 {
      LogAbove(x, 1);
      Pow2Fifteen();
      LogBelow(x, 15);
      Leading(x, e, 1);
    }
    DistanceStart(e, x / Pow2(e));
    Floor(x, Pow2(e));
  }

  lemma Pow2Fifteen()
    ensures Pow2(14) == 16384 && Pow2(15) == 32768
  {
    Powers();
    assert Pow2(14) == 2 * Pow2(13) && Pow2(15) == 2 * Pow2(14);
  }

  // ----- literals and matches under given codes -----

  predicate Coded(b: seq<nat>, sym: nat) { sym < |b| && b[sym] > 0 }

  /** The codes have symbols for the token. */
  predicate Writable(ll: seq<nat>, dl: seq<nat>, t: Token) {
    match t
    case Literal(b) => Coded(ll, b as nat)
    case Match(len, d) =>
      3 <= len <= 258 && 1 <= d <= 32768 && Coded(ll, LengthCode(len)) && Coded(dl, DistanceCode(d))
  }

  predicate AllWritable(ll: seq<nat>, dl: seq<nat>, ts: seq<Token>) {
    Coded(ll, 256) && forall t :: t in ts ==> Writable(ll, dl, t)
  }

  function TokenBits(ll: seq<nat>, dl: seq<nat>, t: Token, rest: seq<bool>): seq<bool>
    requires Writable(ll, dl, t)
  {
    match t
    case Literal(b) => Codeword(ll, b as nat) + rest
    case Match(len, d) =>
      Codeword(ll, LengthCode(len)) + (BitsLow(LengthValue(len), LengthExtra(len))
      + (Codeword(dl, DistanceCode(d)) + (BitsLow(DistanceValue(d), DistanceExtra(d)) + rest)))
  }

  /** All tokens and the end of the block. */
  function TokensBits(ll: seq<nat>, dl: seq<nat>, ts: seq<Token>, rest: seq<bool>): seq<bool>
    requires AllWritable(ll, dl, ts)
  {
    if ts == [] then Codeword(ll, 256) + rest
    else TokenBits(ll, dl, ts[0], TokensBits(ll, dl, ts[1..], rest))
  }

  lemma SymbolRead(b: seq<nat>, sym: nat, rest: seq<bool>)
    requires Decodable(b) && Coded(b, sym)
    ensures Symbol(b, Codeword(b, sym) + rest) == Got(sym, rest)
  {
    var s := Codeword(b, sym);
    assert Decodes(b, s + rest, sym);
    SymbolIs(b, s + rest, sym);
    assert (s + rest)[|s|..] == rest;
  }

  lemma TokenRead(ll: seq<nat>, dl: seq<nat>, t: Token, rest: seq<bool>)
    requires Decodable(ll) && Decodable(dl) && Writable(ll, dl, t)
    ensures NextItem(ll, dl, TokenBits(ll, dl, t, rest)) == Got(Tok(t), rest)
  {
    hide Symbol, Codeword, Decodable, MatchAfter;
    if t.Literal? {
      SymbolRead(ll, t.b as nat, rest);
    } else {
      var after := BitsLow(LengthValue(t.len), LengthExtra(t.len))
                   + (Codeword(dl, DistanceCode(t.dist)) + (BitsLow(DistanceValue(t.dist), DistanceExtra(t.dist)) + rest));
      SymbolRead(ll, LengthCode(t.len), after);
      LengthIs(t.len);
      MatchRead(dl, t.len, t.dist, rest);
    }
  }

  lemma MatchRead(dl: seq<nat>, len: nat, d: nat, rest: seq<bool>)
    requires Decodable(dl) && 3 <= len <= 258 && 1 <= d <= 32768 && Coded(dl, DistanceCode(d)) && LengthCode(len) >= 257
    ensures MatchAfter(dl, LengthCode(len),
                       BitsLow(LengthValue(len), LengthExtra(len))
                       + (Codeword(dl, DistanceCode(d)) + (BitsLow(DistanceValue(d), DistanceExtra(d)) + rest)))
            == Got(Match(len, d), rest)
  {
    hide Number, Symbol, Codeword, Decodable, BitsLow, LengthCode, LengthExtra, LengthValue, DistanceCode, DistanceExtra, DistanceValue;
    var more := BitsLow(DistanceValue(d), DistanceExtra(d)) + rest;
    LengthIs(len);
    NumberBits(LengthValue(len), LengthExtra(len), Codeword(dl, DistanceCode(d)) + more);
    SymbolRead(dl, DistanceCode(d), more);
    DistanceIs(d);
    NumberBits(DistanceValue(d), DistanceExtra(d), rest);
  }

  /** What is written is read. */
  lemma {:induction false} TokensRead(ll: seq<nat>, dl: seq<nat>, ts: seq<Token>, rest: seq<bool>, acc: seq<Token>)
    requires Decodable(ll) && Decodable(dl) && AllWritable(ll, dl, ts)
    ensures Codes(ll, dl, TokensBits(ll, dl, ts, rest), acc) == Got(acc + ts, rest)
    decreases |ts|
  {
    hide TokenBits, Codeword, Decodable, Writable;
    if ts == [] {
      SymbolRead(ll, 256, rest);
      assert acc + [] == acc;
    } else {
      TokenRead(ll, dl, ts[0], TokensBits(ll, dl, ts[1..], rest));
      TokensRead(ll, dl, ts[1..], rest, acc + [ts[0]]);
      assert acc + [ts[0]] + ts[1..] == acc + ts;
    }
  }

  // ----- the fixed codes (section 3.2.6) -----

  /** The code of a symbol as a number, and its length. */
  function FixedNumber(sym: nat): nat {
    if sym < 144 then 0x30 + sym else if sym < 256 then 0x190 + (sym - 144) else if sym < 280 then sym - 256 else 0xC0 + (sym - 280)
  }

  function FixedLength(sym: nat): nat {
    if sym < 144 then 8 else if sym < 256 then 9 else if sym < 280 then 7 else 8
  }

  /** The canonical codes for the fixed lengths are the codes in the table of the RFC; the
      distance codes are the numbers of the symbols. */
  lemma FixedWords(sym: nat)
    requires sym < 288
    ensures |FixedLiterals()| == 288 && |FixedDistances()| == 30
    ensures FixedLiterals()[sym] == FixedLength(sym) && Codeword(FixedLiterals(), sym) == BigBits(FixedNumber(sym), FixedLength(sym))
    ensures sym < 30 ==> FixedDistances()[sym] == 5 && Codeword(FixedDistances(), sym) == BigBits(sym, 5)
  {
    hide NextCode, Count, BigBits;
    FixedFirst();
    FixedRank(sym);
  }

  lemma FixedFirst()
    ensures NextCode(FixedLiterals(), 7) == 0 && NextCode(FixedLiterals(), 8) == 0x30 && NextCode(FixedLiterals(), 9) == 0x190
    ensures NextCode(FixedDistances(), 5) == 0
  {
    FixedNext();
    forall i | 1 <= i < 7 ensures Count(FixedLiterals(), i) == 0 { FixedCounts(i); }
    NoShortCodes(FixedLiterals(), 7);
    forall i | 1 <= i < 5 ensures Count(FixedDistances(), i) == 0 { FixedCounts(i); }
    NoShortCodes(FixedDistances(), 5);
  }

  /** How many symbols of the same length come before. */
  lemma FixedRank(sym: nat)
    requires sym < 288
    ensures |FixedLiterals()| == 288 && |FixedDistances()| == 30
    ensures Rank(FixedLiterals(), sym) == FixedNumber(sym) - (if FixedLength(sym) == 8 then 0x30 else if FixedLength(sym) == 9 then 0x190 else 0)
    ensures sym < 30 ==> Rank(FixedDistances(), sym) == sym
  {
    var a, b, c := Repeat(8, 144), Repeat(9, 112), Repeat(7, 24);
    var l, len := FixedLiterals()[..sym], FixedLength(sym);
    assert FixedLiterals()[sym] == len;
    CountRepeat(8, 144, len);
    CountRepeat(9, 112, len);
    CountRepeat(7, 24, len);
    if sym < 144 {
      assert l == Repeat(8, sym);
      CountRepeat(8, sym, len);
    } else if sym < 256 {
      assert l == a + Repeat(9, sym - 144);
      CountRepeat(9, sym - 144, len);
      CountConcat(a, Repeat(9, sym - 144), len);
    } else if sym < 280 {
      assert l == a + b + Repeat(7, sym - 256);
      CountRepeat(7, sym - 256, len);
      CountConcat(a + b, Repeat(7, sym - 256), len);
      CountConcat(a, b, len);
    } else {
      assert l == a + b + c + Repeat(8, sym - 280);
      CountRepeat(8, sym - 280, len);
      CountConcat(a + b + c, Repeat(8, sym - 280), len);
      CountConcat(a + b, c, len);
      CountConcat(a, b, len);
    }
    if sym < 30 {
      assert FixedDistances()[..sym] == Repeat(5, sym);
      CountRepeat(5, sym, 5);
    }
  }

  predicate Sized(t: Token) { t.Match? ==> 3 <= t.len <= 258 && 1 <= t.dist <= 32768 }

  /** A token under the fixed codes, by the table of the RFC. */
  function FixedToken(t: Token, rest: seq<bool>): seq<bool>
    requires Sized(t)
  {
    match t
    case Literal(b) => BigBits(FixedNumber(b as nat), FixedLength(b as nat)) + rest
    case Match(len, d) =>
      BigBits(FixedNumber(LengthCode(len)), FixedLength(LengthCode(len))) + (BitsLow(LengthValue(len), LengthExtra(len))
      + (BigBits(DistanceCode(d), 5) + (BitsLow(DistanceValue(d), DistanceExtra(d)) + rest)))
  }

  function FixedTokens(ts: seq<Token>, rest: seq<bool>): seq<bool>
    requires forall t :: t in ts ==> Sized(t)
  {
    if ts == [] then BigBits(0, 7) + rest else FixedToken(ts[0], FixedTokens(ts[1..], rest))
  }

  lemma FixedTokenWritable(t: Token, rest: seq<bool>)
    requires Sized(t)
    ensures Writable(FixedLiterals(), FixedDistances(), t)
    ensures TokenBits(FixedLiterals(), FixedDistances(), t, rest) == FixedToken(t, rest)
  {
    hide Codeword, BigBits, BitsLow, FixedLiterals, FixedDistances;
    if t.Literal? {
      FixedWords(t.b as nat);
    } else {
      LengthIs(t.len);
      DistanceIs(t.dist);
      FixedWords(LengthCode(t.len));
      FixedWords(DistanceCode(t.dist));
    }
  }

  lemma {:induction false} FixedTokensRead(ts: seq<Token>, rest: seq<bool>, acc: seq<Token>)
    requires forall t :: t in ts ==> Sized(t)
    ensures Codes(FixedLiterals(), FixedDistances(), FixedTokens(ts, rest), acc) == Got(acc + ts, rest)
  {
    hide Codes, FixedLiterals, FixedDistances;
    FixedCodes();
    FixedTokensBits(ts, rest);
    TokensRead(FixedLiterals(), FixedDistances(), ts, rest, acc);
  }

  lemma {:induction false} FixedTokensBits(ts: seq<Token>, rest: seq<bool>)
    requires forall t :: t in ts ==> Sized(t)
    ensures AllWritable(FixedLiterals(), FixedDistances(), ts)
    ensures TokensBits(FixedLiterals(), FixedDistances(), ts, rest) == FixedTokens(ts, rest)
  {
    hide Codeword, BigBits, TokenBits, FixedToken, FixedLiterals, FixedDistances;
    FixedWords(256);
    if ts != [] {
      FixedTokensBits(ts[1..], rest);
      FixedTokenWritable(ts[0], FixedTokens(ts[1..], rest));
      assert ts == [ts[0]] + ts[1..];
    }
  }
}
