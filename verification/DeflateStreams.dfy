/** Whole DEFLATE streams of stored, fixed and dynamic blocks, as RFC 1951 says how to write
    them, and what they are read as. */
module DeflateStreams {
  import opened Bits
  import opened Huffman
  import opened Deflate
  import opened DeflateLimits
  import opened DeflateWriter

  // ----- the code lengths of a dynamic block (section 3.2.7) -----

  /** The place of the `j`th code length code: the repeat symbols, zero, and then outwards
      from eight. */
  function OrderAt(j: nat): nat
    requires j < 19
  {
    if j < 3 then 16 + j else if j == 3 then 0 else if j % 2 == 0 then 8 + (j - 4) / 2 else 7 - (j - 5) / 2
  }

  lemma OrderIs(j: nat)
    requires j < 19
    ensures BORDER[j] == OrderAt(j) < 19
  {
    LengthOrder();
    if j < 4 {
      assert BORDER[j] == BORDER[..4][j];
    } else if j % 2 == 0 {
      assert j == 4 + 2 * ((j - 4) / 2);
    } else {
      assert j == 5 + 2 * ((j - 5) / 2);
    }
  }

  function OrderBits(b: seq<nat>, j: nat, nb: nat): seq<bool>
    requires j <= nb <= 19 == |b|
    decreases nb - j
  {
    if j == nb then [] else BitsLow(b[OrderAt(j)], 3) + OrderBits(b, j + 1, nb)
  }

  lemma {:induction false} OrderSame(b: seq<nat>, j: nat, nb: nat)
    requires j <= nb <= 19 == |b|
    ensures OrderBits(b, j, nb) == LengthsBits(b, j, nb)
    decreases nb - j
  {
    if j < nb {
      OrderIs(j);
      OrderSame(b, j + 1, nb);
    }
  }

  /** A length as such, the last one again three to six times, or 3 to 138 zeros. */
  datatype Run = Plain(v: nat) | Again(n: nat) | None(n: nat)

  predicate RunFits(r: Run, acc: seq<nat>) {
    match r
    case Plain(v) => v < 16
    case Again(n) => 3 <= n <= 6 && acc != []
    case None(n) => 3 <= n <= 138
  }

  /** The lengths that a run stands for after the lengths `acc`. */
  function RunLengths(r: Run, acc: seq<nat>): seq<nat>
    requires RunFits(r, acc)
  {
    match r
    case Plain(v) => [v]
    case Again(n) => seq(n, _ => acc[|acc| - 1])
    case None(n) => seq(n, _ => 0)
  }

  function RunSymbol(r: Run): nat {
    match r
    case Plain(v) => v
    case Again(_) => 16
    case None(n) => if n < 11 then 17 else 18
  }

  /** A run under the code `bl`. */
  function RunBits(bl: seq<nat>, r: Run, rest: seq<bool>): seq<bool>
    requires RunSymbol(r) < |bl| && (r.None? || r.Again? ==> r.n >= 3)
  {
    Codeword(bl, RunSymbol(r))
    + match r
      case Plain(_) => rest
      case Again(n) => BitsLow(n - 3, 2) + rest
      case None(n) => if n < 11 then BitsLow(n - 3, 3) + rest else BitsLow(n - 11, 7) + rest
  }

  predicate RunsFit(bl: seq<nat>, runs: seq<Run>, acc: seq<nat>) {
    runs == [] || (RunFits(runs[0], acc) && Coded(bl, RunSymbol(runs[0])) && RunsFit(bl, runs[1..], acc + RunLengths(runs[0], acc)))
  }

  function RunsLengths(bl: seq<nat>, runs: seq<Run>, acc: seq<nat>): seq<nat>
    requires RunsFit(bl, runs, acc)
  {
    if runs == [] then acc else RunsLengths(bl, runs[1..], acc + RunLengths(runs[0], acc))
  }

  function RunsBits(bl: seq<nat>, runs: seq<Run>, acc: seq<nat>): seq<bool>
    requires RunsFit(bl, runs, acc)
  {
    if runs == [] then [] else RunBits(bl, runs[0], RunsBits(bl, runs[1..], acc + RunLengths(runs[0], acc)))
  }

  /** The code for code lengths can be read without exceptions. */
  predicate Clear(bl: seq<nat>) { |bl| == 19 && (forall i :: 0 <= i < 19 ==> bl[i] < 8) && Decodable(bl) && Complete(bl) }

  lemma ClearUsable(bl: seq<nat>)
    requires Clear(bl)
    ensures Usable(bl) && forall sym: nat :: !Sole(bl, sym)
  {
    var g :| g in bl && IsMaxLen(bl, g) && EndCode(bl, g) == Pow2(g);
    CompleteNotZero(bl, g);
    forall sym: nat ensures !Sole(bl, sym) { CompleteNotSole(bl, g, sym); }
  }

  lemma CompleteNotZero(b: seq<nat>, g: nat)
    requires |b| > 1 && IsMaxLen(b, g) && EndCode(b, g) == Pow2(g)
    ensures !AllZero(b)
  {
    if AllZero(b) { CountZeros(b); }
  }

  lemma {:induction false} CountZeros(b: seq<nat>)
    requires AllZero(b)
    ensures Count(b, 0) == |b|
  {
    if b != [] { CountZeros(b[..|b| - 1]); }
  }

  lemma CompleteNotSole(b: seq<nat>, g: nat, sym: nat)
    requires IsMaxLen(b, g) && EndCode(b, g) == Pow2(g)
    ensures !Sole(b, sym)
  {
    if Sole(b, sym) {
      SoleCount(b, sym);
      Powers();
    }
  }

  lemma SoleCount(b: seq<nat>, sym: nat)
    requires Sole(b, sym)
    ensures Count(b, 1) == 1
  {
    var l, r := b[..sym], b[sym + 1..];
    assert b == l + [1] + r;
    CountPositive(l, 1);
    CountPositive(r, 1);
    OneCount();
    CountConcat(l, [1], 1);
    CountConcat(l + [1], r, 1);
  }

  function LastOf(acc: seq<nat>): nat { if acc == [] then 0 else acc[|acc| - 1] }

  lemma RunRead(bl: seq<nat>, n: nat, r: Run, rest: seq<bool>, acc: seq<nat>)
    requires Clear(bl) && RunFits(r, acc) && Coded(bl, RunSymbol(r)) && |acc| + |RunLengths(r, acc)| <= n
    ensures var acc' := acc + RunLengths(r, acc);
            Lengths(bl, n, LastOf(acc), RunBits(bl, r, rest), acc) == Lengths(bl, n, LastOf(acc'), rest, acc')
  {
    hide Number, Symbol, Codeword, BitsLow, Usable, Decodable, Complete;
    ClearUsable(bl);
    Powers();
    match r {
      case Plain(v) =>
        SymbolRead(bl, v, rest);
      case Again(c) =>
        SymbolRead(bl, 16, BitsLow(c - 3, 2) + rest);
        NumberBits(c - 3, 2, rest);
        assert RunLengths(r, acc) == Repeat(LastOf(acc), c);
      case None(c) =>
        assert RunLengths(r, acc) == Repeat(0, c);
        if c < 11 {
          SymbolRead(bl, 17, BitsLow(c - 3, 3) + rest);
          NumberBits(c - 3, 3, rest);
        } else {
          SymbolRead(bl, 18, BitsLow(c - 11, 7) + rest);
          NumberBits(c - 11, 7, rest);
        }
    }
  }

  lemma {:induction false} RunsGrow(bl: seq<nat>, runs: seq<Run>, acc: seq<nat>)
    requires RunsFit(bl, runs, acc)
    ensures |acc| + |runs| <= |RunsLengths(bl, runs, acc)|
    decreases |runs|
  {
    if runs != [] { RunsGrow(bl, runs[1..], acc + RunLengths(runs[0], acc)); }
  }

  lemma {:induction false} RunsRead(bl: seq<nat>, n: nat, runs: seq<Run>, rest: seq<bool>, acc: seq<nat>)
    requires Clear(bl) && RunsFit(bl, runs, acc) && |RunsLengths(bl, runs, acc)| == n
    ensures Lengths(bl, n, LastOf(acc), RunsBits(bl, runs, acc) + rest, acc) == Got(RunsLengths(bl, runs, acc), rest)
    decreases |runs|
  {
    hide RunBits, Lengths, Decodable, Complete;
    if runs == [] {
      assert [] + rest == rest;
      LengthsDone(bl, n, LastOf(acc), rest, acc);
    } else {
      var acc' := acc + RunLengths(runs[0], acc);
      RunsGrow(bl, runs[1..], acc');
      RunRead(bl, n, runs[0], RunsBits(bl, runs[1..], acc') + rest, acc);
      RunAppend(bl, runs[0], RunsBits(bl, runs[1..], acc'), rest);
      RunsRead(bl, n, runs[1..], rest, acc');
    }
  }

  lemma LengthsDone(bl: seq<nat>, n: nat, last: nat, rest: seq<bool>, acc: seq<nat>)
    requires |bl| == 19 && |acc| >= n
    ensures Lengths(bl, n, last, rest, acc) == Got(acc, rest)
  {
  }

  lemma RunAppend(bl: seq<nat>, r: Run, a: seq<bool>, b: seq<bool>)
    requires RunSymbol(r) < |bl| && (r.None? || r.Again? ==> r.n >= 3)
    ensures RunBits(bl, r, a) + b == RunBits(bl, r, a + b)
  {
    hide BitsLow, Codeword;
    var w := Codeword(bl, RunSymbol(r));
    match r {
      case Plain(_) => assert w + a + b == w + (a + b);
      case Again(n) => assert w + (BitsLow(n - 3, 2) + a) + b == w + (BitsLow(n - 3, 2) + (a + b));
      case None(n) =>
        if n < 11 {
          assert w + (BitsLow(n - 3, 3) + a) + b == w + (BitsLow(n - 3, 3) + (a + b));
        } else {
          assert w + (BitsLow(n - 11, 7) + a) + b == w + (BitsLow(n - 11, 7) + (a + b));
        }
    }
  }

  /** The codes of a dynamic block and how they are written: the code `bl` with its first
      `nb` lengths, and runs under it. */
  datatype Coding = Coding(ll: seq<nat>, dl: seq<nat>, bl: seq<nat>, nb: nat, runs: seq<Run>)

  predicate CodingFits(c: Coding) {
    && 257 <= |c.ll| <= 286 && 1 <= |c.dl| <= 32 && Usable(c.ll) && UsableDistances(c.dl)
    && Clear(c.bl) && 4 <= c.nb <= 19 && (forall j :: c.nb <= j < 19 ==> c.bl[OrderAt(j)] == 0)
    && RunsFit(c.bl, c.runs, []) && RunsLengths(c.bl, c.runs, []) == c.ll + c.dl
  }

  function CodingBits(c: Coding): seq<bool>
    requires CodingFits(c)
  {
    BitsLow(|c.ll| - 257, 5) + (BitsLow(|c.dl| - 1, 5) + (BitsLow(c.nb - 4, 4)
    + (OrderBits(c.bl, 0, c.nb) + RunsBits(c.bl, c.runs, []))))
  }

  lemma CodingRead(k: Rules, c: Coding, rest: seq<bool>)
    requires CodingFits(c) && (k.InflateC? ==> |c.dl| <= 30)
    ensures Header(k, CodingBits(c) + rest) == Got((c.ll, c.dl), rest)
  {
    hide Header, CodeLengthCode, Lengths, Usable, UsableDistances, RunsFit, RunsLengths, RunsBits, OrderBits, BitsLow;
    var more := RunsBits(c.bl, c.runs, []) + rest;
    CodingStart(k, c, rest);
    ClearUsable(c.bl);
    RunsRead(c.bl, |c.ll| + |c.dl|, c.runs, rest, []);
    HeaderGot(k, CodingBits(c) + rest, |c.ll|, |c.dl|, c.bl, more, c.ll + c.dl, rest);
    assert (c.ll + c.dl)[..|c.ll|] == c.ll && (c.ll + c.dl)[|c.ll|..] == c.dl;
  }

  lemma CodingStart(k: Rules, c: Coding, rest: seq<bool>)
    requires CodingFits(c) && (k.InflateC? ==> |c.dl| <= 30)
    ensures CodeLengthCode(k, CodingBits(c) + rest) == Got((|c.ll|, |c.dl|, c.bl), RunsBits(c.bl, c.runs, []) + rest)
  {
    hide Sizes, CodeLengthLengths, BitsLow, Usable, UsableDistances, RunsFit, RunsLengths, RunsBits;
    hide OrderBits, LengthsBits, Decodable, Complete;
    var x, y, z := BitsLow(|c.ll| - 257, 5), BitsLow(|c.dl| - 1, 5), BitsLow(c.nb - 4, 4);
    var o, r := OrderBits(c.bl, 0, c.nb), RunsBits(c.bl, c.runs, []);
    assert CodingBits(c) + rest == x + (y + (z + (o + (r + rest))));
    SizesRead(|c.ll| - 257, |c.dl| - 1, c.nb - 4, o + (r + rest));
    ListRead(c, r + rest);
  }

  lemma ListRead(c: Coding, rest: seq<bool>)
    requires CodingFits(c)
    ensures CodeLengthLengths(c.nb, 0, OrderBits(c.bl, 0, c.nb) + rest, Repeat(0, 19)) == Got(c.bl, rest)
  {
    OrderSame(c.bl, 0, c.nb);
    NothingRead(c.bl);
    forall i | c.nb <= i < 19 ensures Ordered(c.bl, i) == 0 { OrderIs(i); }
    LengthsRead(c.bl, 0, c.nb, Repeat(0, 19), rest);
  }

  // ----- blocks (sections 3.2.3 and 3.2.4) -----

  datatype Piece =
    | StoredPiece(bytes: seq<byte>)
    | FixedPiece(ts: seq<Token>)
    | DynamicPiece(codes: Coding, ts: seq<Token>)

  predicate PieceFits(p: Piece) {
    match p
    case StoredPiece(bytes) => |bytes| <= 65535
    case FixedPiece(ts) => forall t :: t in ts ==> Sized(t)
    case DynamicPiece(c, ts) => CodingFits(c) && AllWritable(c.ll, c.dl, ts)
  }

  function PieceTokens(p: Piece): seq<Token> {
    match p
    case StoredPiece(bytes) => seq(|bytes|, i requires 0 <= i < |bytes| => Literal(bytes[i]))
    case FixedPiece(ts) => ts
    case DynamicPiece(_, ts) => ts
  }

  /** How many bits are missing to the next byte. */
  function Missing(at: nat): nat { (8 - at % 8) % 8 }

  /** A block that starts at bit `at` of the stream: the mark of the last one, the type, low
      bit first, and the rest. */
  function PieceBits(at: nat, p: Piece, final: bool): seq<bool>
    requires PieceFits(p)
  {
    [final]
    + (match p case StoredPiece(_) => [false, false] case FixedPiece(_) => [true, false] case DynamicPiece(_, _) => [false, true])
    + BodyBits(at, p)
  }

  function BodyBits(at: nat, p: Piece): seq<bool>
    requires PieceFits(p)
  {
    match p
    case StoredPiece(bytes) =>
      Zeros(Missing(at + 3)) + (BitsLow(|bytes|, 16) + (BitsLow(65535 - |bytes|, 16) + BitsOf(bytes)))
    case FixedPiece(ts) => FixedTokens(ts, [])
    case DynamicPiece(c, ts) => CodingBits(c) + TokensBits(c.ll, c.dl, ts, [])
  }

  /** All blocks from bit `at` on, of which only the last is marked as such, and zeros to
      the end of a byte. */
  function StreamBits(at: nat, ps: seq<Piece>): seq<bool>
    requires forall p :: p in ps ==> PieceFits(p)
    decreases |ps|
  {
    if ps == [] then Zeros(Missing(at))
    else PieceBits(at, ps[0], |ps| == 1) + StreamBits(at + |PieceBits(at, ps[0], |ps| == 1)|, ps[1..])
  }

  function StreamTokens(ps: seq<Piece>): seq<Token> { if ps == [] then [] else PieceTokens(ps[0]) + StreamTokens(ps[1..]) }

  lemma {:induction false} StreamWhole(at: nat, ps: seq<Piece>)
    requires forall p :: p in ps ==> PieceFits(p)
    ensures (at + |StreamBits(at, ps)|) % 8 == 0
    decreases |ps|
  {
    hide PieceBits, PieceFits;
    if ps != [] { StreamWhole(at + |PieceBits(at, ps[0], |ps| == 1)|, ps[1..]); }
  }

  lemma HeadRead(e: bool, t0: bool, t1: bool, rest: seq<bool>)
    ensures Number(1, [e] + [t0, t1] + rest) == Got(Bit(e), [t0, t1] + rest)
    ensures Number(2, [t0, t1] + rest) == Got(Bit(t0) + 2 * Bit(t1), rest)
  {
    var s := [e] + [t0, t1] + rest;
    assert s[..1] == [e] && s[1..] == [t0, t1] + rest;
    ValSingle(e);
    assert ([t0, t1] + rest)[..2] == [t0, t1] && ([t0, t1] + rest)[2..] == rest && [t0, t1][1..] == [t1];
    ValSingle(t1);
  }

  lemma PieceRead(k: Rules, at: nat, p: Piece, final: bool, rest: seq<bool>, acc: seq<Token>)
    requires PieceFits(p) && (at + |PieceBits(at, p, final)| + |rest|) % 8 == 0
    requires k.InflateC? && p.DynamicPiece? ==> Within(|p.codes.ll|, p.codes.dl)
    ensures OneBlock(k, PieceBits(at, p, final) + rest, acc) == Got((Bit(final), acc + PieceTokens(p)), rest)
  {
    hide Block, Number, BodyBits;
    var body := BodyBits(at, p) + rest;
    BodyRead(k, at, p, rest, acc);
    match p {
      case StoredPiece(_) =>
        assert PieceBits(at, p, final) + rest == [final] + [false, false] + body;
        HeadRead(final, false, false, body);
      case FixedPiece(_) =>
        assert PieceBits(at, p, final) + rest == [final] + [true, false] + body;
        HeadRead(final, true, false, body);
      case DynamicPiece(_, _) =>
        assert PieceBits(at, p, final) + rest == [final] + [false, true] + body;
        HeadRead(final, false, true, body);
    }
  }

  lemma BodyRead(k: Rules, at: nat, p: Piece, rest: seq<bool>, acc: seq<Token>)
    requires PieceFits(p) && (at + 3 + |BodyBits(at, p)| + |rest|) % 8 == 0
    requires k.InflateC? && p.DynamicPiece? ==> Within(|p.codes.ll|, p.codes.dl)
    ensures Block(k, if p.StoredPiece? then 0 else if p.FixedPiece? then 1 else 2, BodyBits(at, p) + rest, acc)
            == Got(acc + PieceTokens(p), rest)
  {
    hide Block, Stored, Codes, Dynamic, CodingBits, TokensBits, FixedTokens, FixedLiterals, FixedDistances, CodingFits, AllWritable, Within, Sized;
    var body := BodyBits(at, p) + rest;
    match p {
      case StoredPiece(bytes) =>
        StoredRead(at, bytes, rest, acc);
        BlockIs(k, 0, body, acc);
      case FixedPiece(ts) =>
        FixedAppend(ts, rest);
        FixedTokensRead(ts, rest, acc);
        BlockIs(k, 1, body, acc);
      case DynamicPiece(c, ts) =>
        assert body == CodingBits(c) + (TokensBits(c.ll, c.dl, ts, []) + rest);
        DynamicRead(k, c, ts, rest, acc);
        BlockIs(k, 2, body, acc);
    }
  }

  lemma BlockIs(k: Rules, t: nat, bits: seq<bool>, acc: seq<Token>)
    ensures t == 0 ==> Block(k, t, bits, acc) == Stored(bits, acc)
    ensures t == 1 ==> Block(k, t, bits, acc) == Codes(FixedLiterals(), FixedDistances(), bits, acc)
    ensures t == 2 ==> Block(k, t, bits, acc) == Dynamic(k, bits, acc)
  {
  }

  // ----- the three types of blocks -----

  lemma StoredRead(at: nat, bytes: seq<byte>, rest: seq<bool>, acc: seq<Token>)
    requires |bytes| <= 65535 && (at + 3 + |BodyBits(at, StoredPiece(bytes))| + |rest|) % 8 == 0
    ensures Stored(BodyBits(at, StoredPiece(bytes)) + rest, acc) == Got(acc + PieceTokens(StoredPiece(bytes)), rest)
  {
    hide Number, BitsLow, BitsOf;
    var pad, n, c, data := Zeros(Missing(at + 3)), BitsLow(|bytes|, 16), BitsLow(65535 - |bytes|, 16), BitsOf(bytes) + rest;
    var bits := BodyBits(at, StoredPiece(bytes)) + rest;
    assert bits == pad + (n + (c + data));
    Aligned(at + 3, |n + (c + data)|);
    assert |bits| % 8 == |pad|;
    assert bits[|pad|..] == n + (c + data);
    Powers();
    NumberBits(|bytes|, 16, c + data);
    NumberBits(65535 - |bytes|, 16, data);
    BytesRead(bytes, rest, acc);
  }

  lemma Aligned(at: nat, n: nat)
    requires (at + Missing(at) + n) % 8 == 0
    ensures (Missing(at) + n) % 8 == Missing(at)
  {
  }

  lemma {:induction false} BytesRead(bytes: seq<byte>, rest: seq<bool>, acc: seq<Token>)
    ensures Bytes(|bytes|, BitsOf(bytes) + rest, acc) == Got(acc + PieceTokens(StoredPiece(bytes)), rest)
    decreases |bytes|
  {
    hide ByteBits;
    if bytes == [] {
      assert [] + rest == rest && acc + PieceTokens(StoredPiece([])) == acc;
    } else {
      var s, b := BitsOf(bytes) + rest, ByteBits(bytes[0]);
      var tail := BitsOf(bytes[1..]) + rest;
      assert s == b + tail;
      assert s[..8] == b && s[8..] == tail;
      ValByte(bytes[0]);
      BytesRead(bytes[1..], rest, acc + [Literal(bytes[0])]);
      assert acc + PieceTokens(StoredPiece(bytes)) == acc + [Literal(bytes[0])] + PieceTokens(StoredPiece(bytes[1..]));
    }
  }

  lemma {:induction false} FixedAppend(ts: seq<Token>, rest: seq<bool>)
    requires forall t :: t in ts ==> Sized(t)
    ensures FixedTokens(ts, []) + rest == FixedTokens(ts, rest)
  {
    hide FixedNumber, FixedLength, BitsLow, BigBits, LengthCode, LengthValue, LengthExtra, DistanceCode, DistanceValue, DistanceExtra;
    if ts == [] {
      assert BigBits(0, 7) + [] + rest == BigBits(0, 7) + rest;
    } else {
      FixedAppend(ts[1..], rest);
      FixedTokenAppend(ts[0], FixedTokens(ts[1..], []), rest);
    }
  }

  lemma FixedTokenAppend(t: Token, a: seq<bool>, b: seq<bool>)
    requires Sized(t)
    ensures FixedToken(t, a) + b == FixedToken(t, a + b)
  {
    hide Codeword, FixedLiterals, FixedDistances, FixedToken, TokenBits;
    FixedTokenWritable(t, a);
    FixedTokenWritable(t, a + b);
    TokenAppend(FixedLiterals(), FixedDistances(), t, a, b);
  }

  lemma TokenAppend(ll: seq<nat>, dl: seq<nat>, t: Token, a: seq<bool>, b: seq<bool>)
    requires Writable(ll, dl, t)
    ensures TokenBits(ll, dl, t, a) + b == TokenBits(ll, dl, t, a + b)
  {
    hide Codeword, BitsLow, LengthCode, LengthValue, LengthExtra, DistanceCode, DistanceValue, DistanceExtra;
    if t.Literal? {
      assert Codeword(ll, t.b as nat) + a + b == Codeword(ll, t.b as nat) + (a + b);
    } else {
      MatchAppend(Codeword(ll, LengthCode(t.len)), BitsLow(LengthValue(t.len), LengthExtra(t.len)),
                  Codeword(dl, DistanceCode(t.dist)), BitsLow(DistanceValue(t.dist), DistanceExtra(t.dist)), a, b);
    }
  }

  lemma MatchAppend(w: seq<bool>, x: seq<bool>, y: seq<bool>, z: seq<bool>, a: seq<bool>, b: seq<bool>)
    ensures w + (x + (y + (z + a))) + b == w + (x + (y + (z + (a + b))))
  {
  }

  lemma {:induction false} TokensAppend(ll: seq<nat>, dl: seq<nat>, ts: seq<Token>, rest: seq<bool>)
    requires AllWritable(ll, dl, ts)
    ensures TokensBits(ll, dl, ts, []) + rest == TokensBits(ll, dl, ts, rest)
  {
    hide Codeword, TokenBits, Writable;
    if ts == [] {
      assert Codeword(ll, 256) + [] + rest == Codeword(ll, 256) + rest;
    } else {
      TokensAppend(ll, dl, ts[1..], rest);
      TokenAppend(ll, dl, ts[0], TokensBits(ll, dl, ts[1..], []), rest);
    }
  }

  lemma DynamicRead(k: Rules, c: Coding, ts: seq<Token>, rest: seq<bool>, acc: seq<Token>)
    requires CodingFits(c) && AllWritable(c.ll, c.dl, ts) && (k.InflateC? ==> Within(|c.ll|, c.dl))
    ensures Dynamic(k, CodingBits(c) + (TokensBits(c.ll, c.dl, ts, []) + rest), acc) == Got(acc + ts, rest)
  {
    hide Header, CodingBits, TokensBits, Codes, RunsFit, RunsLengths, Clear, Writable;
    TokensAppend(c.ll, c.dl, ts, rest);
    CodingRead(k, c, TokensBits(c.ll, c.dl, ts, rest));
    HeaderBounded(k, CodingBits(c) + TokensBits(c.ll, c.dl, ts, rest));
    if AllZero(c.dl) { AllZeroFits(c.dl); }
    TokensRead(c.ll, c.dl, ts, rest, acc);
  }

  lemma HeaderBounded(k: Rules, bits: seq<bool>)
    requires Header(k, bits).Got?
    ensures Bounded(Header(k, bits).val.0) && Bounded(Header(k, bits).val.1)
  {
  }

  // ----- the stream -----

  predicate AllFit(ps: seq<Piece>) { forall p :: p in ps ==> PieceFits(p) }

  /** A stream written by the RFC is read as its tokens: by the rules of the RFC, and by
      those of Inflate.c if the code lengths are within its limits. */
  lemma {:induction false} StreamRead(k: Rules, at: nat, ps: seq<Piece>, acc: seq<Token>)
    requires ps != [] && AllFit(ps)
    requires k.InflateC? ==> forall p :: p in ps && p.DynamicPiece? ==> Within(|p.codes.ll|, p.codes.dl)
    ensures Blocks(k, StreamBits(at, ps), acc).Got? && Blocks(k, StreamBits(at, ps), acc).val == acc + StreamTokens(ps)
    decreases |ps|
  {
    hide OneBlock, PieceBits, PieceFits, PieceTokens, Within;
    var head := PieceBits(at, ps[0], |ps| == 1);
    var rest := StreamBits(at + |head|, ps[1..]);
    StreamWhole(at + |head|, ps[1..]);
    PieceRead(k, at, ps[0], |ps| == 1, rest, acc);
    if |ps| == 1 {
      assert StreamTokens(ps) == PieceTokens(ps[0]);
    } else {
      StreamRead(k, at + |head|, ps[1..], acc + PieceTokens(ps[0]));
      assert acc + PieceTokens(ps[0]) + StreamTokens(ps[1..]) == acc + StreamTokens(ps);
    }
  }

  /** The bytes of a stream, each first bit least significant. */
  function StreamBytes(bits: seq<bool>): (r: seq<byte>)
    requires |bits| % 8 == 0
    ensures |r| == |bits| / 8
  {
    if bits == [] then [] else ByteBelow(bits[..8]); [Val(bits[..8]) as byte] + StreamBytes(bits[8..])
  }

  lemma ByteBelow(s: seq<bool>)
    requires |s| == 8
    ensures Val(s) < 256
  {
    Powers();
  }

  lemma {:induction false} StreamBitsOf(bits: seq<bool>)
    requires |bits| % 8 == 0
    ensures BitsOf(StreamBytes(bits)) == bits
    decreases |bits|
  {
    if bits != [] {
      ByteBelow(bits[..8]);
      StreamBitsOf(bits[8..]);
      ValByte(Val(bits[..8]) as byte);
      ValInjective(ByteBits(Val(bits[..8]) as byte), bits[..8]);
      assert StreamBytes(bits)[1..] == StreamBytes(bits[8..]);
      assert bits == bits[..8] + bits[8..];
    }
  }
}
