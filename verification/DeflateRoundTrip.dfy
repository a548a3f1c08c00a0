/** What the decoder of Inflate.c makes of streams that are written as RFC 1951 says. */
module DeflateRoundTrip {
  import opened Bits
  import opened Huffman
  import opened Deflate
  import opened DeflateLimits
  import opened DeflateWriter
  import opened DeflateStreams
  import opened Window
  import opened Inflate

  // ----- what literals and matches mean, byte by byte -----

  /** A match repeats the bytes `dist` before it, also those that it adds itself. */
  lemma {:induction false} CopyAt(h: seq<byte>, dist: nat, n: nat, i: nat)
    requires 1 <= dist <= |h| && i < |h| + n
    ensures Copy(h, dist, n)[i] == if i < |h| then h[i] else Copy(h, dist, n)[i - dist]
    decreases n
  {
    if n > 0 {
      var g := h + [h[|h| - dist]];
      CopyAt(g, dist, n - 1, i);
      if i == |h| { CopyAt(g, dist, n - 1, i - dist); }
    }
  }

  /** Where token `i` starts, and what it stands for. */
  lemma {:induction false} ExpandAt(ts: seq<Token>, i: nat)
    requires InReach(0, ts) && i < |ts|
    ensures var out, at := Expand([], ts), Size(ts[..i]);
            && |out| == Size(ts) && Size(ts[..0]) == 0
            && Size(ts[..i + 1]) == at + (if ts[i].Literal? then 1 else ts[i].len) <= |out|
            && (ts[i].Literal? ==> out[at] == ts[i].b)
            && (ts[i].Match? ==> 1 <= ts[i].dist <= at && forall j :: at <= j < at + ts[i].len ==> out[j] == out[j - ts[i].dist])
    decreases |ts|
  {
    if i < |ts| - 1 {
      var init := ts[..|ts| - 1];
      ExpandAt(init, i);
      assert init[..i] == ts[..i] && init[..i + 1] == ts[..i + 1];
      assert Expand([], init) <= Expand([], ts);
    } else {
      LastAt(ts);
    }
  }

  lemma LastAt(ts: seq<Token>)
    requires InReach(0, ts) && ts != []
    ensures var out, i := Expand([], ts), |ts| - 1;
            var at := Size(ts[..i]);
            && Size(ts[..i + 1]) == at + (if ts[i].Literal? then 1 else ts[i].len) <= |out|
            && (ts[i].Literal? ==> out[at] == ts[i].b)
            && (ts[i].Match? ==> 1 <= ts[i].dist <= at && forall j :: at <= j < at + ts[i].len ==> out[j] == out[j - ts[i].dist])
  {
    var init, t := ts[..|ts| - 1], ts[|ts| - 1];
    var r := Expand([], init);
    assert ts[..|ts|] == ts;
    if t.Match? {
      forall j | |r| <= j < |r| + t.len ensures Copy(r, t.dist, t.len)[j] == Copy(r, t.dist, t.len)[j - t.dist] {
        CopyAt(r, t.dist, t.len, j);
      }
    }
  }

  // ----- the limits of the program -----

  predicate PieceWithin(p: Piece) { p.DynamicPiece? ==> Within(|p.codes.ll|, p.codes.dl) }

  lemma PieceTaken(at: nat, p: Piece, final: bool, rest: seq<bool>)
    requires PieceFits(p)
    ensures BlockWithin(PieceBits(at, p, final) + rest) == PieceWithin(p)
  {
    hide CodingBits, TokensBits, Header, Number, BodyBits, Within;
    var body := BodyBits(at, p) + rest;
    match p {
      case StoredPiece(_) =>
        assert PieceBits(at, p, final) + rest == [final] + [false, false] + body;
        HeadRead(final, false, false, body);
      case FixedPiece(_) =>
        assert PieceBits(at, p, final) + rest == [final] + [true, false] + body;
        HeadRead(final, true, false, body);
      case DynamicPiece(c, ts) =>
        assert PieceBits(at, p, final) + rest == [final] + [false, true] + body;
        HeadRead(final, false, true, body);
        BodyHeader(at, p, rest);
    }
  }

  lemma BodyHeader(at: nat, p: Piece, rest: seq<bool>)
    requires PieceFits(p) && p.DynamicPiece?
    ensures Header(Rfc1951, BodyBits(at, p) + rest).Got? && Header(Rfc1951, BodyBits(at, p) + rest).val == (p.codes.ll, p.codes.dl)
  {
    hide CodingBits, TokensBits, Header, CodingFits, AllWritable;
    var more := TokensBits(p.codes.ll, p.codes.dl, p.ts, []) + rest;
    assert BodyBits(at, p) + rest == CodingBits(p.codes) + more;
    CodingRead(Rfc1951, p.codes, more);
  }

  /** A stream is within the limits exactly if the code lengths of all its dynamic blocks are. */
  lemma {:induction false} StreamWithin(at: nat, ps: seq<Piece>, acc: seq<Token>)
    requires ps != [] && AllFit(ps)
    ensures BlocksWithin(StreamBits(at, ps), acc) <==> forall p :: p in ps ==> PieceWithin(p)
    decreases |ps|
  {
    hide OneBlock, PieceBits, PieceFits, PieceTokens, PieceWithin, BlockWithin;
    var head := PieceBits(at, ps[0], |ps| == 1);
    var rest := StreamBits(at + |head|, ps[1..]);
    StreamWhole(at + |head|, ps[1..]);
    PieceRead(Rfc1951, at, ps[0], |ps| == 1, rest, acc);
    PieceTaken(at, ps[0], |ps| == 1, rest);
    assert ps == [ps[0]] + ps[1..];
    if |ps| > 1 { StreamWithin(at + |head|, ps[1..], acc + PieceTokens(ps[0])); }
  }

  // ----- decompressing what was written -----

  /** Any blocks, written and decompressed: the output is what their literals and matches
      stand for, whatever follows in memory and whatever the window held, if all code
      lengths are within the limits, and nothing otherwise. */
  method Decompressed(G: Inflater, ps: seq<Piece>, after: byte) returns (size: nat)
    requires ps != [] && AllFit(ps) && G.FixedOK() && G.slide.Length == WSIZE && InReach(0, StreamTokens(ps))
    modifies G, G.slide
    ensures (forall p :: p in ps ==> PieceWithin(p)) ==> size == |G.out| && G.out == Expand([], StreamTokens(ps))
    ensures !(forall p :: p in ps ==> PieceWithin(p)) ==> size == 0
  {
    hide PieceFits, PieceTokens, PieceWithin, StreamBits, StreamBytes, Blocks, BlocksWithin, Expand, BitsOf;
    StreamWhole(0, ps);
    var data := StreamBytes(StreamBits(0, ps));
    StreamBitsOf(StreamBits(0, ps));
    StreamRead(Rfc1951, 0, ps, []);
    StreamWithin(0, ps, []);
    assert [] + StreamTokens(ps) == StreamTokens(ps);
    assert (data + [after])[..|data|] == data;
    size := G.DecompressDeflatedData(data + [after], |data|);
  }

  /** Bytes written as literals, under the fixed codes or stored, come back. */
  method BytesBack(G: Inflater, bytes: seq<byte>, stored: bool, after: byte) returns (size: nat)
    requires G.FixedOK() && G.slide.Length == WSIZE && (stored ==> |bytes| <= 65535)
    modifies G, G.slide
    ensures size == |bytes| && G.out == bytes
  {
    var ts := PieceTokens(StoredPiece(bytes));
    var p := if stored then StoredPiece(bytes) else FixedPiece(ts);
    assert StreamTokens([p]) == ts + [] == ts;
    LiteralsExpand(bytes);
    size := Decompressed(G, [p], after);
  }

  lemma {:induction false} LiteralsExpand(bytes: seq<byte>)
    ensures InReach(0, PieceTokens(StoredPiece(bytes))) && Expand([], PieceTokens(StoredPiece(bytes))) == bytes
    decreases |bytes|
  {
    var ts := PieceTokens(StoredPiece(bytes));
    if bytes != [] {
      var init := bytes[..|bytes| - 1];
      LiteralsExpand(init);
      assert ts[..|ts| - 1] == PieceTokens(StoredPiece(init));
      assert bytes == init + [bytes[|bytes| - 1]];
    }
  }

  // ----- a stored block in full -----

  /** The bytes of a stream that consists of one stored block: the mark and the type in one
      byte, the length and its complement, low byte first, and the bytes themselves. */
  function StoredStream(bytes: seq<byte>): seq<byte>
    requires |bytes| <= 65535
  {
    var l, h := (|bytes| % 256) as byte, (|bytes| / 256) as byte;
    [1, l, h, 255 - l, 255 - h] + bytes
  }

  lemma StoredIs(bytes: seq<byte>)
    requires |bytes| <= 65535
    ensures StreamBits(0, [StoredPiece(bytes)]) == BitsOf(StoredStream(bytes))
  {
    hide BitsOf, BitsLow, ByteBits, PieceBits, StreamBits;
    var n := |bytes|;
    var l, h := (n % 256) as byte, (n / 256) as byte;
    TwoBytes(n, l, h);
    TwoBytes(65535 - n, 255 - l, 255 - h);
    HeadBytes(1, l, h, 255 - l, 255 - h);
    BitsOfConcat([1, l, h, 255 - l, 255 - h], bytes);
    Regroup(ByteBits(1), ByteBits(l), ByteBits(h), ByteBits(255 - l), ByteBits(255 - h), BitsOf(bytes));
    var p := StoredPiece(bytes);
    StoredPieceBits(bytes);
    OnePiece(p);
  }

  lemma OnePiece(p: Piece)
    requires PieceFits(p) && |PieceBits(0, p, true)| % 8 == 0
    ensures StreamBits(0, [p]) == PieceBits(0, p, true)
  {
    hide PieceBits, PieceFits;
    assert [p][1..] == [];
    assert StreamBits(|PieceBits(0, p, true)|, []) == [];
    assert PieceBits(0, p, true) + [] == PieceBits(0, p, true);
  }

  lemma StoredPieceBits(bytes: seq<byte>)
    requires |bytes| <= 65535
    ensures PieceBits(0, StoredPiece(bytes), true) ==
            ByteBits(1) + (BitsLow(|bytes|, 16) + (BitsLow(65535 - |bytes|, 16) + BitsOf(bytes)))
  {
    hide BitsOf, BitsLow, ByteBits, Zeros, PieceBits, BodyBits;
    MarkByte();
    StoredHead(bytes);
    StoredBody(bytes);
    Grouped([true] + [false, false], Zeros(5), BitsLow(|bytes|, 16) + (BitsLow(65535 - |bytes|, 16) + BitsOf(bytes)));
  }

  lemma StoredHead(bytes: seq<byte>)
    requires |bytes| <= 65535
    ensures PieceBits(0, StoredPiece(bytes), true) == [true] + [false, false] + BodyBits(0, StoredPiece(bytes))
  {
    hide BodyBits;
  }

  lemma StoredBody(bytes: seq<byte>)
    requires |bytes| <= 65535
    ensures BodyBits(0, StoredPiece(bytes)) == Zeros(5) + (BitsLow(|bytes|, 16) + (BitsLow(65535 - |bytes|, 16) + BitsOf(bytes)))
  {
    hide BitsOf, BitsLow, Zeros, Missing, FixedTokens, CodingBits, TokensBits, Sized, CodingFits, AllWritable;
    MissingFive();
  }

  lemma MissingFive()
    ensures Missing(3) == 5
  {
  }

  lemma Grouped(a: seq<bool>, b: seq<bool>, c: seq<bool>)
    ensures a + (b + c) == a + b + c
  {
  }

  lemma Regroup(m: seq<bool>, a: seq<bool>, b: seq<bool>, c: seq<bool>, d: seq<bool>, x: seq<bool>)
    ensures (m + (a + (b + (c + d)))) + x == m + ((a + b) + ((c + d) + x))
  {
  }

  lemma MarkByte()
    ensures ByteBits(1) == [true] + [false, false] + Zeros(5)
  {
    hide ByteBits;
    EightBits(1);
    assert ByteBits(1) == [true, false, false, false, false, false, false, false];
    assert [true] + [false, false] + Zeros(5) == [true, false, false, false, false, false, false, false];
  }

  lemma HeadBytes(a: byte, b: byte, c: byte, d: byte, e: byte)
    ensures BitsOf([a, b, c, d, e]) == ByteBits(a) + (ByteBits(b) + (ByteBits(c) + (ByteBits(d) + ByteBits(e))))
  {
    hide ByteBits;
    assert [a, b, c, d, e][1..] == [b, c, d, e] && [b, c, d, e][1..] == [c, d, e];
    assert [c, d, e][1..] == [d, e] && [d, e][1..] == [e] && [e][1..] == [];
    assert BitsOf([e]) == ByteBits(e) + BitsOf([]) == ByteBits(e);
    assert BitsOf([d, e]) == ByteBits(d) + BitsOf([e]);
    assert BitsOf([c, d, e]) == ByteBits(c) + BitsOf([d, e]);
    assert BitsOf([b, c, d, e]) == ByteBits(b) + BitsOf([c, d, e]);
  }

  /** Sixteen bits are two bytes, low byte first. */
  lemma TwoBytes(v: nat, l: byte, h: byte)
    requires v == l as nat + 256 * (h as nat)
    ensures BitsLow(v, 16) == ByteBits(l) + ByteBits(h)
  {
    hide BitsLow;
    FourMore(v, 16);
    FourMore(v / 16, 12);
    FourMore(v, 8);
    LowEight(v, l);
    assert v / 16 / 16 == h as nat;
  }

  lemma FourMore(v: nat, n: nat)
    requires n >= 4
    ensures BitsLow(v, n) == BitsLow(v, 4) + BitsLow(v / 16, n - 4)
  {
    hide BitsLow;
    LowStep(v, n);
    LowStep(v / 2, n - 1);
    LowStep(v / 4, n - 2);
    LowStep(v / 8, n - 3);
    FourBits(v);
  }

  lemma LowEight(v: nat, l: byte)
    requires v % 256 == l as nat
    ensures BitsLow(v, 8) == ByteBits(l)
  {
    hide BitsLow;
    var m := l as nat;
    FourMore(v, 8);
    FourMore(m, 8);
    HalfBytes(v, m);
    FourSame(v, m);
    FourSame(v / 16, m / 16);
  }

  lemma HalfBytes(v: nat, m: nat)
    requires v % 256 == m
    ensures v % 16 == m % 16 && v / 16 % 16 == m / 16 % 16
  {
    var q := v / 256;
    assert v == 256 * q + m;
    assert v / 16 == 16 * q + m / 16;
  }

  lemma FourSame(v: nat, m: nat)
    requires v % 16 == m % 16
    ensures BitsLow(v, 4) == BitsLow(m, 4)
  {
    hide BitsLow;
    FourBits(v);
    FourBits(m);
    FourOf(v);
    FourOf(m);
  }

  lemma FourOf(v: nat)
    ensures v % 2 == v % 16 % 2 && v / 2 % 2 == v % 16 / 2 % 2 && v / 4 % 2 == v % 16 / 4 % 2 && v / 8 % 2 == v % 16 / 8 % 2
  {
    var q, r := v / 16, v % 16;
    Parts16(q, r);
    OddPart(8 * q, r);
    OddPart(4 * q, r / 2);
    OddPart(2 * q, r / 4);
    OddPart(q, r / 8);
  }

  lemma Parts16(q: nat, r: nat)
    requires r < 16
    ensures (16 * q + r) / 2 == 8 * q + r / 2 && (16 * q + r) / 4 == 4 * q + r / 4 && (16 * q + r) / 8 == 2 * q + r / 8
  {
  }

  lemma OddPart(q: nat, r: nat)
    ensures (2 * q + r) % 2 == r % 2
  {
  }

  /** These bytes, decompressed. */
  method StoredDecompressed(G: Inflater, bytes: seq<byte>, after: byte) returns (size: nat)
    requires G.FixedOK() && G.slide.Length == WSIZE && |bytes| <= 65535
    modifies G, G.slide
    ensures size == |bytes| && G.out == bytes
  {
    hide StreamBits, Blocks, BlocksWithin, BitsOf;
    var data, p := StoredStream(bytes), StoredPiece(bytes);
    StoredIs(bytes);
    LiteralsExpand(bytes);
    StreamRead(Rfc1951, 0, [p], []);
    StreamWithin(0, [p], []);
    assert StreamTokens([p]) == PieceTokens(p) + [] == PieceTokens(p);
    assert [] + StreamTokens([p]) == StreamTokens([p]);
    assert (data + [after])[..|data|] == data;
    size := G.DecompressDeflatedData(data + [after], |data|);
  }

  // ----- one stream in full -----

  /** The four bytes 4B 04 02 00: the letter a, and three more of it. */
  lemma Sample()
    ensures var ts := [Literal(97), Match(3, 1)];
            StreamBits(0, [FixedPiece(ts)]) == BitsOf([0x4B, 0x04, 0x02, 0x00]) && InReach(0, ts) && Expand([], ts) == [97, 97, 97, 97]
  {
    hide BitsOf, StreamBits;
    SampleStream();
    SampleBytes();
    SampleExpand();
    assert SampleTokens() + [false, false] == [true, false, false, true, false] + ([false, false, true, false, false, false, false, false]
           + ([false, true, false, false, false, false, false, false] + [false, false, false, false, false, false, false, false]));
  }

  /** These four bytes, decompressed. */
  method SampleDecompressed(G: Inflater, after: byte) returns (size: nat)
    requires G.FixedOK() && G.slide.Length == WSIZE
    modifies G, G.slide
    ensures size == 4 && G.out == [97, 97, 97, 97]
  {
    hide StreamBits, Blocks, BlocksWithin, BitsOf, FixedTokens;
    var data, p := [0x4B, 0x04, 0x02, 0x00], FixedPiece([Literal(97), Match(3, 1)]);
    Sample();
    SampleReach();
    StreamRead(Rfc1951, 0, [p], []);
    StreamWithin(0, [p], []);
    assert StreamTokens([p]) == PieceTokens(p) + [] == [Literal(97), Match(3, 1)];
    assert [] + StreamTokens([p]) == StreamTokens([p]);
    assert (data + [after])[..4] == data;
    size := G.DecompressDeflatedData(data + [after], 4);
  }

  /** 10010001 for the letter, 0000001 for length 3, 00000 for distance 1, 0000000 for the end. */
  function SampleTokens(): seq<bool> {
    [true, false, false, true, false, false, false, true] + [false, false, false, false, false, false, true]
    + [false, false, false, false, false] + [false, false, false, false, false, false, false]
  }

  lemma SampleWords()
    ensures BigBits(145, 8) == [true, false, false, true, false, false, false, true]
    ensures BigBits(1, 7) == [false, false, false, false, false, false, true]
    ensures BigBits(0, 5) == [false, false, false, false, false]
    ensures BigBits(0, 7) == [false, false, false, false, false, false, false]
  {
    hide BigBits;
    LetterWord();
    LengthWord();
    ZeroWords();
  }

  lemma LetterWord()
    ensures BigBits(145, 8) == [true, false, false, true, false, false, false, true]
  {
    assert BigBits(145 / 16, 4) == [true, false, false, true];
  }

  lemma LengthWord()
    ensures BigBits(1, 7) == [false, false, false, false, false, false, true]
  {
    assert BigBits(1, 4) == [false, false, false, true];
  }

  lemma ZeroWords()
    ensures BigBits(0, 5) == [false, false, false, false, false]
    ensures BigBits(0, 7) == [false, false, false, false, false, false, false]
  {
    assert BigBits(0, 4) == [false, false, false, false];
  }

  lemma SampleFixed()
    ensures FixedTokens([Literal(97), Match(3, 1)], []) == SampleTokens()
  {
    hide BigBits;
    SampleWords();
    var end := BigBits(0, 7) + [];
    assert [Literal(97), Match(3, 1)][1..] == [Match(3, 1)] && [Match(3, 1)][1..] == [];
    assert FixedTokens([], []) == end;
    assert FixedToken(Match(3, 1), end) == BigBits(1, 7) + ([] + (BigBits(0, 5) + ([] + end)));
    assert FixedToken(Literal(97), FixedToken(Match(3, 1), end)) == BigBits(145, 8) + FixedToken(Match(3, 1), end);
  }

  lemma SampleStream()
    ensures StreamBits(0, [FixedPiece([Literal(97), Match(3, 1)])]) == [true] + [true, false] + SampleTokens() + [false, false]
  {
    hide FixedTokens;
    SampleFixed();
    var p := FixedPiece([Literal(97), Match(3, 1)]);
    assert |PieceBits(0, p, true)| == 30;
    assert [p][1..] == [];
    assert StreamBits(30, []) == Zeros(2) == [false, false];
  }

  lemma SampleBytes()
    ensures BitsOf([0x4B, 0x04, 0x02, 0x00]) ==
            [true, true, false, true, false, false, true, false] + ([false, false, true, false, false, false, false, false]
            + ([false, true, false, false, false, false, false, false] + [false, false, false, false, false, false, false, false]))
  {
    hide ByteBits;
    SampleByteBits();
    assert [0x4B as byte, 0x04, 0x02, 0x00][1..] == [0x04, 0x02, 0x00];
    assert [0x04 as byte, 0x02, 0x00][1..] == [0x02, 0x00];
    assert [0x02 as byte, 0x00][1..] == [0x00] && [0x00 as byte][1..] == [];
    assert ByteBits(0) + BitsOf([]) == ByteBits(0);
  }

  lemma SampleByteBits()
    ensures ByteBits(0x4B) == [true, true, false, true, false, false, true, false]
    ensures ByteBits(0x04) == [false, false, true, false, false, false, false, false]
    ensures ByteBits(0x02) == [false, true, false, false, false, false, false, false]
    ensures ByteBits(0x00) == [false, false, false, false, false, false, false, false]
  {
    hide ByteBits;
    FirstBytesBits();
    LastBytesBits();
  }

  lemma FirstBytesBits()
    ensures ByteBits(0x4B) == [true, true, false, true, false, false, true, false]
    ensures ByteBits(0x04) == [false, false, true, false, false, false, false, false]
  {
    hide ByteBits;
    EightBits(0x4B);
    EightBits(0x04);
  }

  lemma LastBytesBits()
    ensures ByteBits(0x02) == [false, true, false, false, false, false, false, false]
    ensures ByteBits(0x00) == [false, false, false, false, false, false, false, false]
  {
    hide ByteBits;
    EightBits(0x02);
    EightBits(0x00);
  }

  /** The bits of a byte, least significant first. */
  lemma EightBits(b: byte)
    ensures var v := b as int;
            ByteBits(b) == [v % 2 == 1, v / 2 % 2 == 1, v / 4 % 2 == 1, v / 8 % 2 == 1, v / 16 % 2 == 1, v / 32 % 2 == 1,
                            v / 64 % 2 == 1, v / 128 % 2 == 1]
  {
    hide BitsLow;
    var v := b as nat;
    FourBits(v);
    FourBits(v / 16);
    HighBits(v);
  }

  lemma FourBits(v: nat)
    ensures BitsLow(v, 4) == [v % 2 == 1, v / 2 % 2 == 1, v / 4 % 2 == 1, v / 8 % 2 == 1]
  {
    assert BitsLow(v, 4) == [v % 2 == 1] + BitsLow(v / 2, 3);
    assert BitsLow(v / 2, 3) == [v / 2 % 2 == 1] + BitsLow(v / 4, 2);
    assert BitsLow(v / 4, 2) == [v / 4 % 2 == 1] + BitsLow(v / 8, 1);
    assert BitsLow(v / 8, 1) == [v / 8 % 2 == 1];
  }

  lemma LowStep(v: nat, n: nat)
    requires n >= 1
    ensures BitsLow(v, n) == [v % 2 == 1] + BitsLow(v / 2, n - 1)
  {
  }

  lemma HighBits(v: nat)
    ensures BitsLow(v, 8) == BitsLow(v, 4) + BitsLow(v / 16, 4)
  {
    hide BitsLow;
    LowStep(v, 8);
    LowStep(v / 2, 7);
    LowStep(v / 4, 6);
    LowStep(v / 8, 5);
    FourBits(v);
  }

  lemma SampleReach()
    ensures InReach(0, [Literal(97)]) && Size([Literal(97)]) == 1
    ensures InReach(0, [Literal(97), Match(3, 1)])
  {
    assert [Literal(97)][..0] == [] && [Literal(97), Match(3, 1)][..1] == [Literal(97)];
  }

  lemma SampleExpand()
    ensures InReach(0, [Literal(97), Match(3, 1)]) && Expand([], [Literal(97), Match(3, 1)]) == [97, 97, 97, 97]
  {
    SampleReach();
    assert [Literal(97), Match(3, 1)][..1] == [Literal(97)] && [Literal(97)][..0] == [];
    assert Expand([], [Literal(97)]) == [97];
    assert Copy([97, 97, 97], 1, 1) == [97, 97, 97, 97];
    assert Copy([97], 1, 3) == Copy([97, 97], 1, 2) == Copy([97, 97, 97], 1, 1);
  }
}
