/** CommandAPDU.cpp: the coding of smart card commands (clause 12.1 of ISO/IEC 7816-3),
    its encoder and its decoder. */
module Apdu {
  type Byte = b: int | 0 <= b < 256

  /** A command: its header, its data and the number of bytes expected in return. */
  datatype Command = Command(cla: Byte, ins: Byte, p1: Byte, p2: Byte, data: seq<Byte>, ne: nat) {
    predicate Valid() { |data| <= 65535 && ne <= 65536 }

    /** Neither length needs the extended form. */
    predicate Fits() { |data| <= 255 && ne <= 256 }

    function Header(): seq<Byte> { [cla, ins, p1, p2] }
  }

  // ----- the coding of the standard -----

  /** A number in two bytes, highest first; 65536 is coded as zero. */
  function Two(n: nat): seq<Byte> { [n / 256 % 256, n % 256] }

  /** A number in one byte; 256 is coded as zero. */
  function One(n: nat): seq<Byte> { [n % 256] }

  /** Cases 1, 2s, 3s and 4s. */
  function Short(c: Command): seq<Byte> {
    c.Header() + (if c.data == [] then [] else One(|c.data|) + c.data) + (if c.ne == 0 then [] else One(c.ne))
  }

  /** Cases 2e, 3e and 4e. */
  function Extended(c: Command): seq<Byte> {
    c.Header() + [0] + (if c.data == [] then [] else Two(|c.data|) + c.data) + (if c.ne == 0 then [] else Two(c.ne))
  }

  predicate IsCoding(apdu: seq<Byte>, c: Command, extended: bool) {
    if extended then c.Valid() && (c.data != [] || c.ne > 0) && apdu == Extended(c)
    else c.Fits() && apdu == Short(c)
  }

  /** The coding that the encoder chooses. */
  function Encode(c: Command): seq<Byte> { if c.Fits() then Short(c) else Extended(c) }

  // ----- the class -----

  class CommandAPDU {
    var apdu: seq<Byte>
    var nc: nat
    var ne: nat
    var dataOffset: nat
    var isExtended: bool
    var parsed: bool

    /** clear (lines 259-265) */
    method Clear()
      modifies `apdu, `nc, `ne, `dataOffset
      ensures apdu == [] && nc == 0 && ne == 0 && dataOffset == 0
    {
      apdu, nc, ne, dataOffset := [], 0, 0, 0;
    }

    /** What a successful analysis or a successful encoding says about the object. */
    predicate Describes(c: Command, extended: bool)
      reads this
    {
      && parsed && isExtended == extended && nc == |c.data| && ne == c.ne
      && dataOffset == (if c.data == [] then 0 else if extended then 7 else 5)
      && dataOffset + nc <= |apdu| && apdu[dataOffset..dataOffset + nc] == c.data
    }

    /** init (lines 119-249) and the constructor that calls it */
    constructor Init(c: Command)
      ensures c.Valid() ==> apdu == Encode(c) && Describes(c, !c.Fits())
      ensures !c.Valid() ==> !parsed && apdu == [] && nc == 0 && ne == 0 && dataOffset == 0
      ensures parsed <==> |c.data| <= 65535 && c.ne <= 65536
      ensures parsed ==> IsCoding(apdu, c, |c.data| > 255 || c.ne > 256)
    {
      apdu, nc, ne, dataOffset, isExtended, parsed := [], 0, 0, 0, false, false;
      new;
      if |c.data| > 65535 || c.ne > 65536 {
        Clear();
        return;
      }
      ne, nc := c.ne, |c.data|;
      if |c.data| == 0 { NoData(c); } else { WithData(c); }
      parsed := true;
    }

    /** Cases 1 and 2 (lines 144-186). */
    method NoData(c: Command)
      requires c.Valid() && c.data == [] && ne == c.ne && dataOffset == 0 && !isExtended
      modifies `apdu, `isExtended
      ensures apdu == Encode(c) && isExtended == !c.Fits()
    {
      if ne == 0 {
        apdu := c.Header();
      } else if ne <= 256 {
        var len := if ne != 256 then ne else 0;
        apdu := c.Header() + [len];
      } else {
        var l1, l2 := 0, 0;
        if ne != 65536 { l1, l2 := ne / 256, ne % 256; }
        apdu := c.Header() + [0, l1, l2];
        isExtended := true;
      }
    }

    /** Cases 3 and 4 (lines 187-246). */
    method WithData(c: Command)
      requires c.Valid() && c.data != [] && ne == c.ne && dataOffset == 0 && !isExtended
      modifies `apdu, `dataOffset, `isExtended
      ensures apdu == Encode(c) && isExtended == !c.Fits() && dataOffset == (if c.Fits() then 5 else 7)
      ensures dataOffset + |c.data| <= |apdu| && apdu[dataOffset..dataOffset + |c.data|] == c.data
    {
      hide Encode;
      var length := |c.data|;
      if c.Fits() { ShortWith(c); } else { ExtendedWith(c); }
      if ne == 0 {
        if length <= 255 {
          apdu := c.Header() + [length] + c.data;
          dataOffset := 5;
        } else {
          apdu := c.Header() + [0, length / 256, length % 256] + c.data;
          dataOffset := 7;
          isExtended := true;
        }
      } else if length <= 255 && ne <= 256 {
        apdu := c.Header() + [length] + c.data + [if ne != 256 then ne else 0];
        dataOffset := 5;
      } else {
        apdu := c.Header() + [0, length / 256, length % 256] + c.data
                + (if ne != 65536 then [ne / 256, ne % 256] else [0, 0]);
        dataOffset := 7;
        isExtended := true;
      }
    }

    /** An object that holds bytes not yet analysed. */
    constructor Blank(bytes: seq<Byte>)
      ensures apdu == bytes && nc == 0 && ne == 0 && dataOffset == 0 && !isExtended && !parsed
    {
      apdu, nc, ne, dataOffset, isExtended, parsed := bytes, 0, 0, 0, false, false;
    }

    /** The command that the fields and bytes describe. */
    function Described(): Command
      requires |apdu| >= 4 && dataOffset + nc <= |apdu|
      reads this
    {
      Command(apdu[0], apdu[1], apdu[2], apdu[3], apdu[dataOffset..dataOffset + nc], ne)
    }

    /** parse up to the label `success` (lines 13-112), on an object as its constructor
        leaves it: the analysis succeeds exactly on the codings of the standard. */
    method Analyse() returns (ok: bool)
      requires nc == 0 && ne == 0 && dataOffset == 0 && !isExtended
      modifies `nc, `ne, `dataOffset, `isExtended, `parsed
      ensures apdu == old(apdu) && parsed == ok
      ensures ok <==> exists c, x :: IsCoding(apdu, c, x)
      ensures ok ==> |apdu| >= 4 && dataOffset + nc <= |apdu|
      ensures ok ==> IsCoding(apdu, Described(), isExtended) && Describes(Described(), isExtended)
      ensures !ok ==> nc == 0 && ne == 0 && dataOffset == 0 && !isExtended
    {
      ok := Cases();
      parsed := ok;
      forall c, x | IsCoding(apdu, c, x) ensures Wellformed(apdu) { CodingWellformed(apdu, c, x); }
    }

    /** What the case analysis leaves when it succeeds. */
    ghost predicate Found()
      reads this
    {
      && |apdu| >= 4 && dataOffset + nc <= |apdu| && dataOffset == (if nc == 0 then 0 else if isExtended then 7 else 5)
      && IsCoding(apdu, Described(), isExtended)
    }

    /** The case analysis: short forms (lines 35-69). */
    method Cases() returns (ok: bool)
      requires nc == 0 && ne == 0 && dataOffset == 0 && !isExtended
      modifies `nc, `ne, `dataOffset, `isExtended
      ensures ok == Wellformed(apdu)
      ensures if ok then Found() else nc == 0 && ne == 0 && dataOffset == 0 && !isExtended
    {
      if |apdu| < 4 { return false; }
      if |apdu| == 4 {
        assert apdu == Short(Described());
        return true;
      }
      var l1: int := apdu[4] as int;
      if |apdu| == 5 {
        ne := if l1 == 0 then 256 else l1;
        assert apdu == Short(Described());
        return true;
      }
      if l1 != 0 {
        if |apdu| == 4 + 1 + l1 {
          nc, dataOffset := l1, 5;
          assert apdu == Short(Described());
          return true;
        } else if |apdu| == 4 + 2 + l1 {
          nc, dataOffset := l1, 5;
          var l2: int := apdu[|apdu| - 1] as int;
          ne := if l2 == 0 then 256 else l2;
          assert apdu == Short(Described());
          return true;
        }
        return false;
      }
      ok := ExtendedCases();
    }

    /** Extended forms (lines 71-109). */
    method ExtendedCases() returns (ok: bool)
      requires nc == 0 && ne == 0 && dataOffset == 0 && !isExtended && |apdu| > 5 && apdu[4] == 0
      modifies `nc, `ne, `dataOffset, `isExtended
      ensures ok == Wellformed(apdu)
      ensures if ok then Found() else nc == 0 && ne == 0 && dataOffset == 0 && !isExtended
    {
      if |apdu| < 7 { return false; }
      var l2: int := Number(apdu[5], apdu[6]);
      if |apdu| == 7 {
        ne := if l2 == 0 then 65536 else l2;
        isExtended := true;
        Case2e(apdu);
        return true;
      }
      if l2 == 0 { return false; }
      if |apdu| == 4 + 3 + l2 {
        nc, dataOffset, isExtended := l2, 7, true;
        Case3e(apdu);
        return true;
      }
      if |apdu| == 4 + 5 + l2 {
        nc, dataOffset, isExtended := l2, 7, true;
        var l3: int := Number(apdu[|apdu| - 2], apdu[|apdu| - 1]);
        ne := if l3 == 0 then 65536 else l3;
        Case4e(apdu);
        return true;
      }
      return false;
    }

    /** parse (lines 13-117): control falls from the label into the failure path, so that
        whatever the analysis found is cleared again. */
    constructor Parse(bytes: seq<Byte>)
      ensures parsed <==> exists c, x :: IsCoding(bytes, c, x)
      ensures apdu == [] && nc == 0 && ne == 0 && dataOffset == 0
    {
      apdu, nc, ne, dataOffset, isExtended, parsed := bytes, 0, 0, 0, false, false;
      new;
      var _ := Analyse();
      Clear();
    }
  }

  // ----- the coding -----

  function Number(high: Byte, low: Byte): nat { high as int * 256 + low as int }

  predicate Wellformed(a: seq<Byte>) {
    || |a| == 4
    || |a| == 5
    || (|a| > 5 && a[4] != 0 && (|a| == 5 + a[4] as int || |a| == 6 + a[4] as int))
    || (|a| >= 7 && a[4] == 0
        && (|a| == 7 || (Number(a[5], a[6]) != 0 && (|a| == 7 + Number(a[5], a[6]) || |a| == 9 + Number(a[5], a[6])))))
  }

  /** The number that a Le field stands for. */
  function FromOne(b: Byte): nat { if b == 0 then 256 else b as int }
  function FromTwo(high: Byte, low: Byte): nat { if Number(high, low) == 0 then 65536 else Number(high, low) }

  /** A coding byte by byte, with lengths of one byte. */
  lemma ShortIs(a: seq<Byte>, c: Command)
    ensures IsCoding(a, c, false) <==>
            && |c.data| <= 255 && c.ne <= 256
            && |a| == 4 + (if c.data == [] then 0 else 1 + |c.data|) + (if c.ne == 0 then 0 else 1)
            && a[0] == c.cla && a[1] == c.ins && a[2] == c.p1 && a[3] == c.p2
            && (c.data != [] ==> a[4] as int == |c.data| && a[5..5 + |c.data|] == c.data)
            && (c.ne > 0 ==> a[|a| - 1] as int == if c.ne == 256 then 0 else c.ne)
  {
    if IsCoding(a, c, false) {
      if c.data != [] { assert a[5..5 + |c.data|] == c.data; }
    }
    var m := 4 + (if c.data == [] then 0 else 1 + |c.data|);
    if c.Fits() && |a| == m + (if c.ne == 0 then 0 else 1) {
      assert a == a[..4] + a[4..m] + a[m..];
      assert a[..4] == c.Header() <==> a[0] == c.cla && a[1] == c.ins && a[2] == c.p1 && a[3] == c.p2;
      if c.data != [] { assert a[4..m] == [a[4]] + a[5..m]; }
    }
  }

  /** A coding byte by byte, with lengths of two bytes, the higher one first. */
  lemma ExtendedIs(a: seq<Byte>, c: Command)
    ensures IsCoding(a, c, true) <==>
            && |c.data| <= 65535 && c.ne <= 65536 && (c.data != [] || c.ne > 0)
            && |a| == 5 + (if c.data == [] then 0 else 2 + |c.data|) + (if c.ne == 0 then 0 else 2)
            && a[0] == c.cla && a[1] == c.ins && a[2] == c.p1 && a[3] == c.p2 && a[4] == 0
            && (c.data != [] ==> a[5] as int * 256 + a[6] as int == |c.data| && a[7..7 + |c.data|] == c.data)
            && (c.ne > 0 ==> a[|a| - 2] as int * 256 + a[|a| - 1] as int == if c.ne == 65536 then 0 else c.ne)
  {
    hide Two, IsCoding;
    if IsCoding(a, c, true) { ExtendedBytes(a, c); }
    if BytesExtended(a, c) { FromBytes(a, c); }
  }

  predicate BytesExtended(a: seq<Byte>, c: Command) {
    && c.Valid() && (c.data != [] || c.ne > 0)
    && |a| == 5 + (if c.data == [] then 0 else 2 + |c.data|) + (if c.ne == 0 then 0 else 2)
    && a[0] == c.cla && a[1] == c.ins && a[2] == c.p1 && a[3] == c.p2 && a[4] == 0
    && (c.data != [] ==> Number(a[5], a[6]) == |c.data| && a[7..7 + |c.data|] == c.data)
    && (c.ne > 0 ==> Number(a[|a| - 2], a[|a| - 1]) == if c.ne == 65536 then 0 else c.ne)
  }

  lemma ExtendedBytes(a: seq<Byte>, c: Command)
    requires IsCoding(a, c, true)
    ensures BytesExtended(a, c)
  {
    hide Number, Two;
    var d := if c.data == [] then [] else Two(|c.data|) + c.data;
    var e := if c.ne == 0 then [] else Two(c.ne);
    assert a == c.Header() + [0] + d + e;
    TwoSize(|c.data|);
    TwoSize(c.ne);
    TwoBack(|c.data|);
    TwoZero(c.ne);
    if c.data != [] { assert a[5] == d[0] && a[6] == d[1] && a[7..7 + |c.data|] == c.data; }
    if c.ne > 0 { assert a[|a| - 2] == e[0] && a[|a| - 1] == e[1]; }
  }

  lemma FromBytes(a: seq<Byte>, c: Command)
    requires BytesExtended(a, c)
    ensures IsCoding(a, c, true)
  {
    hide Number, Two;
    var d := if c.data == [] then [] else Two(|c.data|) + c.data;
    var e := if c.ne == 0 then [] else Two(c.ne);
    var m := 5 + if c.data == [] then 0 else 2 + |c.data|;
    if c.data != [] {
      TwoFrom(a[5], a[6]);
      assert a[5..m] == [a[5], a[6]] + a[7..m];
    }
    if c.ne > 0 {
      TwoFrom(a[m], a[m + 1]);
      TwoLast();
      assert a[m..] == [a[m], a[m + 1]];
    }
    Joined(a, c.Header() + [0], d, e);
  }

  lemma Joined(a: seq<Byte>, h: seq<Byte>, d: seq<Byte>, e: seq<Byte>)
    requires |h| + |d| <= |a| && a[..|h|] == h && a[|h|..|h| + |d|] == d && a[|h| + |d|..] == e
    ensures a == h + d + e
  {
  }

  lemma TwoSize(n: nat)
    ensures |Two(n)| == 2
  {
  }

  lemma TwoZero(n: nat)
    requires n <= 65536
    ensures |Two(n)| == 2 && Number(Two(n)[0], Two(n)[1]) == (if n == 65536 then 0 else n) && Two(65536) == Two(0)
  {
    hide Two, Number;
    TwoSize(n);
    TwoLast();
    TwoBack(n);
  }

  lemma TwoLast()
    ensures Two(65536) == Two(0) == [0, 0] && Number(0, 0) == 0
  {
    assert 65536 / 256 == 256;
  }

  lemma ShortWith(c: Command)
    requires c.Fits() && c.data != []
    ensures Encode(c) == c.Header() + [|c.data|] + c.data + (if c.ne == 0 then [] else if c.ne == 256 then [0] else [c.ne])
  {
  }

  lemma ExtendedWith(c: Command)
    requires c.Valid() && !c.Fits() && c.data != []
    ensures Encode(c) == c.Header() + [0, |c.data| / 256, |c.data| % 256] + c.data
                         + (if c.ne == 0 then [] else if c.ne == 65536 then [0, 0] else [c.ne / 256, c.ne % 256])
  {
  }

  lemma TwoBack(n: nat)
    ensures n <= 65535 ==> Number(Two(n)[0], Two(n)[1]) == n
    ensures 1 <= n <= 65536 ==> FromTwo(Two(n)[0], Two(n)[1]) == n
  {
    var high, low := n / 256, n % 256;
    assert n == 256 * high + low;
    if n <= 65535 {
      assert high % 256 == high;
    } else if n == 65536 {
      assert high == 256 && low == 0;
    }
  }

  lemma TwoFrom(high: Byte, low: Byte)
    ensures Number(high, low) <= 65535 && Two(Number(high, low)) == [high, low]
    ensures 1 <= FromTwo(high, low) <= 65536 && Two(FromTwo(high, low)) == [high, low]
  {
    TwoParts(high as int, low as int);
    if high == 0 && low == 0 { TwoParts(256, 0); }
  }

  lemma TwoParts(h: int, l: int)
    requires 0 <= l < 256
    ensures (256 * h + l) / 256 == h && (256 * h + l) % 256 == l
  {
  }

  lemma Case2e(a: seq<Byte>)
    requires |a| == 7 && a[4] == 0
    ensures IsCoding(a, Command(a[0], a[1], a[2], a[3], [], FromTwo(a[5], a[6])), true)
  {
    TwoFrom(a[5], a[6]);
    assert a == a[..4] + [0] + [] + [a[5], a[6]];
  }

  lemma Case3e(a: seq<Byte>)
    requires |a| > 7 && a[4] == 0 && |a| == 7 + Number(a[5], a[6])
    ensures IsCoding(a, Command(a[0], a[1], a[2], a[3], a[7..], 0), true)
  {
    TwoFrom(a[5], a[6]);
    assert a == a[..4] + [0] + ([a[5], a[6]] + a[7..]) + [];
  }

  lemma Case4e(a: seq<Byte>)
    requires |a| > 9 && a[4] == 0 && |a| == 9 + Number(a[5], a[6])
    ensures IsCoding(a, Command(a[0], a[1], a[2], a[3], a[7..|a| - 2], FromTwo(a[|a| - 2], a[|a| - 1])), true)
  {
    TwoFrom(a[5], a[6]);
    TwoFrom(a[|a| - 2], a[|a| - 1]);
    assert a == a[..4] + [0] + ([a[5], a[6]] + a[7..|a| - 2]) + [a[|a| - 2], a[|a| - 1]];
  }

  lemma Laid(a: seq<Byte>, h: seq<Byte>, l: seq<Byte>, d: seq<Byte>, e: seq<Byte>)
    requires |h| == 4 && |l| == 2 && a == h + [0] + (l + d) + e
    ensures |a| == 7 + |d| + |e| && a[..4] == h && a[4] == 0 && a[5] == l[0] && a[6] == l[1] && a[7..7 + |d|] == d
    ensures |e| == 2 ==> a[|a| - 2] == e[0] && a[|a| - 1] == e[1]
  {
  }

  /** Where the parts of a short coding are. */
  lemma ShortParts(a: seq<Byte>, c: Command)
    requires IsCoding(a, c, false)
    ensures |a| >= 4 && a[..4] == c.Header()
    ensures c.data == [] ==> |a| <= 5 && c.ne == if |a| == 4 then 0 else FromOne(a[4])
    ensures c.data != [] ==> |a| >= 6 && |c.data| == a[4] as int && a[4] != 0
    ensures c.data != [] ==> 5 + |c.data| <= |a| <= 6 + |c.data| && a[5..5 + |c.data|] == c.data
    ensures c.data != [] ==> c.ne == if |a| == 5 + |c.data| then 0 else FromOne(a[|a| - 1])
  {
    var le := if c.ne == 0 then [] else One(c.ne);
    if c.data == [] {
      assert a == c.Header() + le;
    } else {
      assert a == c.Header() + (One(|c.data|) + c.data) + le;
      assert a[4] == One(|c.data|)[0];
    }
  }

  /** Where the parts of an extended coding are. */
  lemma ExtendedParts(a: seq<Byte>, c: Command)
    requires IsCoding(a, c, true)
    ensures |a| >= 7 && a[..4] == c.Header() && a[4] == 0
    ensures c.data == [] ==> |a| == 7 && c.ne == FromTwo(a[5], a[6])
    ensures c.data != [] ==> |c.data| == Number(a[5], a[6]) && |a| > 7
    ensures c.data != [] ==> (|a| == 7 + |c.data| || |a| == 9 + |c.data|) && a[7..7 + |c.data|] == c.data
    ensures c.data != [] ==> c.ne == if |a| == 7 + |c.data| then 0 else FromTwo(a[|a| - 2], a[|a| - 1])
  {
    var le := if c.ne == 0 then [] else Two(c.ne);
    TwoBack(c.ne);
    TwoBack(|c.data|);
    if c.data == [] {
      assert a == c.Header() + [0] + (le + []) + [];
      Laid(a, c.Header(), le, [], []);
    } else {
      Laid(a, c.Header(), Two(|c.data|), c.data, le);
    }
  }

  lemma CodingWellformed(a: seq<Byte>, c: Command, x: bool)
    requires IsCoding(a, c, x)
    ensures Wellformed(a)
  {
    if x { ExtendedParts(a, c); } else { ShortParts(a, c); }
  }

  /** A string of bytes is the coding of one command in one form. */
  lemma CodingUnique(a: seq<Byte>, c: Command, x: bool, c': Command, x': bool)
    requires IsCoding(a, c, x) && IsCoding(a, c', x')
    ensures c == c' && x == x'
  {
    if x { ExtendedParts(a, c); } else { ShortParts(a, c); }
    if x' { ExtendedParts(a, c'); } else { ShortParts(a, c'); }
    assert c.Header()[0] == c'.Header()[0] && c.Header()[1] == c'.Header()[1];
    assert c.Header()[2] == c'.Header()[2] && c.Header()[3] == c'.Header()[3];
    assert c.data == c'.data;
  }

  /** Encoding an accepted string again never lengthens it, and keeps a short form. */
  lemma Reencoded(a: seq<Byte>, c: Command, x: bool)
    requires IsCoding(a, c, x)
    ensures c.Valid() && |Encode(c)| <= |a|
    ensures Encode(c) == a <==> !x || !c.Fits()
  {
  }

  /** The encoder's output is a coding of the command. */
  lemma EncodeIsCoding(c: Command)
    requires c.Valid()
    ensures IsCoding(Encode(c), c, !c.Fits())
  {
  }

  /** Analysing what the encoder wrote gives the same lengths, offset and form. */
  method RoundTrip(c: Command) returns (sent: CommandAPDU, read: CommandAPDU, ok: bool)
    requires c.Valid()
    ensures ok && read.apdu == sent.apdu == Encode(c)
    ensures sent.Describes(c, !c.Fits()) && read.Describes(c, !c.Fits())
  {
    sent := new CommandAPDU.Init(c);
    read := new CommandAPDU.Blank(sent.apdu);
    ok := read.Analyse();
    EncodeIsCoding(c);
    CodingUnique(read.apdu, c, !c.Fits(), read.Described(), read.isExtended);
  }
}
