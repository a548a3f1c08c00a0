/** The two versions of GetCrc32 in Crc.c, of which one works from a table and the
    other bit by bit, and what the checksum they share can tell apart. */
module Crc {
  import opened GfMul
  import GfTables

  // ----- the checksum on bits -----

  /** A 32-bit number, lowest bit first. */
  type Word = w: seq<bool> | |w| == 32 witness seq(32, _ => false)

  function WordOf(w: bv32): Word { Join(LittleBytes(w)) }

  /** The number stored in four bytes, lowest byte first. */
  function Join(s: seq<bv8>): Word
    requires |s| == 4
  {
    seq(32, i requires 0 <= i < 32 => Bit(s[i / 8], 7 - i % 8))
  }

  /** A byte as a number. */
  function Byte(b: bv8): Word { seq(32, i requires 0 <= i < 32 => i < 8 && Bit(b, 7 - i)) }

  function Ones(): Word { seq(32, _ => true) }

  function Add(x: Word, y: Word): Word { seq(32, i requires 0 <= i < 32 => x[i] != y[i]) }

  /** The bits of the polynomial 0xEDB88320. */
  predicate InPolynomial(i: int) {
    i == 5 || i == 8 || i == 9 || i == 15 || i == 19 || i == 20 || i == 21 || i == 23 || i == 24
    || i == 26 || i == 27 || i == 29 || i == 30 || i == 31
  }

  /** One bit leaves the register. */
  function Shift(x: Word): Word {
    seq(32, i requires 0 <= i < 32 => (i < 31 && x[i + 1]) != (x[0] && InPolynomial(i)))
  }

  function Shifts(x: Word, n: nat): Word { if n == 0 then x else Shift(Shifts(x, n - 1)) }

  function Step(r: Word, b: bv8): Word { Shifts(Add(r, Byte(b)), 8) }

  /** The register after `data` has been read. */
  function Register(r: Word, data: seq<bv8>): Word
    decreases |data|
  {
    if data == [] then r else Register(Step(r, data[0]), data[1..])
  }

  function Checksum(data: seq<bv8>): Word { Add(Register(Ones(), data), Ones()) }

  lemma {:induction false} RegisterConcat(r: Word, s: seq<bv8>, t: seq<bv8>)
    ensures Register(r, s + t) == Register(Register(r, s), t)
    decreases |s|
  {
    if s == [] {
      assert s + t == t;
    } else {
      RegisterConcat(Step(r, s[0]), s[1..], t);
      assert (s + t)[1..] == s[1..] + t;
    }
  }

  lemma RegisterNext(r: Word, data: seq<bv8>, i: nat)
    requires i < |data|
    ensures Register(r, data[..i + 1]) == Step(Register(r, data[..i]), data[i])
  {
    var last := [data[i]];
    assert data[..i + 1] == data[..i] + last;
    RegisterConcat(r, data[..i], last);
    assert last[1..] == [];
  }

  // ----- the register is linear and loses nothing -----

  lemma ShiftAdd(x: Word, y: Word)
    ensures Shift(Add(x, y)) == Add(Shift(x), Shift(y))
  {
  }

  lemma {:induction false} ShiftsAdd(x: Word, y: Word, n: nat)
    ensures Shifts(Add(x, y), n) == Add(Shifts(x, n), Shifts(y, n))
  {
    if n > 0 {
      ShiftsAdd(x, y, n - 1);
      ShiftAdd(Shifts(x, n - 1), Shifts(y, n - 1));
    }
  }

  /** The highest bit of the polynomial tells which bit left. */
  lemma ShiftInjective(x: Word, y: Word)
    requires Shift(x) == Shift(y)
    ensures x == y
  {
    assert Shift(x)[31] == x[0] && Shift(y)[31] == y[0];
    forall i | 0 <= i < 32 ensures x[i] == y[i] {
      if i > 0 { assert Shift(x)[i - 1] == Shift(y)[i - 1]; }
    }
  }

  lemma {:induction false} ShiftsInjective(x: Word, y: Word, n: nat)
    requires Shifts(x, n) == Shifts(y, n)
    ensures x == y
  {
    if n > 0 {
      ShiftInjective(Shifts(x, n - 1), Shifts(y, n - 1));
      ShiftsInjective(x, y, n - 1);
    }
  }

  lemma AddCancels(x: Word, y: Word, z: Word)
    requires Add(x, z) == Add(y, z)
    ensures x == y
  {
    forall i | 0 <= i < 32 ensures x[i] == y[i] { assert Add(x, z)[i] == Add(y, z)[i]; }
  }

  lemma {:induction false} RegisterInjective(r: Word, r': Word, data: seq<bv8>)
    requires Register(r, data) == Register(r', data)
    ensures r == r'
    decreases |data|
  {
    if data != [] {
      RegisterInjective(Step(r, data[0]), Step(r', data[0]), data[1..]);
      ShiftsInjective(Add(r, Byte(data[0])), Add(r', Byte(data[0])), 8);
      AddCancels(r, r', Byte(data[0]));
    }
  }

  // ----- up to four bytes at a time -----

  /** Moved down by `k` bits, and up. */
  function Down(x: Word, k: nat): Word { seq(32, i requires 0 <= i < 32 => i + k < 32 && x[i + k]) }
  function Up(x: Word, k: nat): Word { seq(32, i requires 0 <= i < 32 => i >= k && x[i - k]) }

  /** Bits that do not reach the bottom only move down. */
  lemma {:induction false} ShiftsHigh(x: Word, n: nat)
    requires n <= 32 && forall i :: 0 <= i < n ==> !x[i]
    ensures Shifts(x, n) == Down(x, n)
  {
    if n == 0 {
      assert Down(x, 0) == x;
    } else {
      ShiftsHigh(x, n - 1);
      assert !Down(x, n - 1)[0];
      assert Shift(Down(x, n - 1)) == Down(x, n);
    }
  }

  /** The number made of up to four bytes, the first one lowest. */
  function Pack(data: seq<bv8>): Word
    decreases |data|
  {
    if data == [] then seq(32, _ => false) else Add(Byte(data[0]), Up(Pack(data[1..]), 8))
  }

  lemma {:induction false} PackShort(data: seq<bv8>)
    requires |data| <= 4
    ensures forall i :: 8 * |data| <= i < 32 ==> !Pack(data)[i]
    decreases |data|
  {
    if data != [] { PackShort(data[1..]); }
  }

  lemma {:induction false} RegisterPack(r: Word, data: seq<bv8>)
    requires |data| <= 4
    ensures Register(r, data) == Shifts(Add(r, Pack(data)), 8 * |data|)
    decreases |data|
  {
    if data == [] {
      assert Add(r, Pack(data)) == r;
    } else {
      var b, rest := data[0], data[1..];
      RegisterPack(Step(r, b), rest);
      PackShort(rest);
      var p := Pack(rest);
      ShiftsAdd(Add(r, Byte(b)), Up(p, 8), 8);
      ShiftsHigh(Up(p, 8), 8);
      assert Down(Up(p, 8), 8) == p;
      assert Add(Add(r, Byte(b)), Up(p, 8)) == Add(r, Pack(data));
      ShiftsMore(Add(r, Pack(data)), 8, 8 * |rest|);
    }
  }

  lemma {:induction false} ShiftsMore(x: Word, m: nat, n: nat)
    ensures Shifts(Shifts(x, m), n) == Shifts(x, m + n)
  {
    if n > 0 { ShiftsMore(x, m, n - 1); }
  }

  lemma {:induction false} PackInjective(s: seq<bv8>, t: seq<bv8>)
    requires |s| == |t| <= 4 && Pack(s) == Pack(t)
    ensures s == t
    decreases |s|
  {
    if s != [] {
      var p, q := Pack(s[1..]), Pack(t[1..]);
      forall i | 0 <= i < 8 ensures Byte(s[0])[i] == Byte(t[0])[i] {
        assert Pack(s)[i] == Byte(s[0])[i] && Pack(t)[i] == Byte(t[0])[i];
      }
      ByteInjective(s[0], t[0]);
      PackShort(s[1..]);
      PackShort(t[1..]);
      forall i | 0 <= i < 32 ensures p[i] == q[i] {
        if i < 24 { assert Pack(s)[i + 8] == p[i] && Pack(t)[i + 8] == q[i]; }
      }
      PackInjective(s[1..], t[1..]);
      assert s == [s[0]] + s[1..] && t == [t[0]] + t[1..];
    }
  }

  lemma ByteInjective(a: bv8, b: bv8)
    requires forall i :: 0 <= i < 8 ==> Byte(a)[i] == Byte(b)[i]
    ensures a == b
  {
    forall k | 0 <= k < 8 ensures Bit(a, k) == Bit(b, k) { assert Byte(a)[7 - k] == Byte(b)[7 - k]; }
    BitsDetermine(a, b);
  }

  /** Two strings of one length that differ only within four consecutive bytes have
      different checksums. */
  lemma BurstDetected(s: seq<bv8>, t: seq<bv8>, i: nat)
    requires |s| == |t| && s != t
    requires forall k :: 0 <= k < |s| && !(i <= k < i + 4) ==> s[k] == t[k]
    ensures Checksum(s) != Checksum(t)
  {
    if Checksum(s) == Checksum(t) { SameChecksum(s, t, i); }
  }

  lemma SameChecksum(s: seq<bv8>, t: seq<bv8>, i: nat)
    requires |s| == |t| && Checksum(s) == Checksum(t)
    requires forall k :: 0 <= k < |s| && !(i <= k < i + 4) ==> s[k] == t[k]
    ensures s == t
  {
    var a := if i < |s| then i else |s|;
    var b := if i + 4 < |s| then i + 4 else |s|;
    assert s[..a] == t[..a] && s[b..] == t[b..];
    assert s == s[..a] + s[a..b] + s[b..] && t == t[..a] + t[a..b] + t[b..];
    SameParts(s[..a], s[a..b], t[a..b], s[b..]);
  }

  lemma SameParts(p: seq<bv8>, u: seq<bv8>, v: seq<bv8>, q: seq<bv8>)
    requires |u| == |v| <= 4 && Checksum(p + u + q) == Checksum(p + v + q)
    ensures u == v
  {
    hide Register, Add;
    AddCancels(Register(Ones(), p + u + q), Register(Ones(), p + v + q), Ones());
    RegisterConcat(Ones(), p + u, q);
    RegisterConcat(Ones(), p + v, q);
    RegisterInjective(Register(Ones(), p + u), Register(Ones(), p + v), q);
    RegisterConcat(Ones(), p, u);
    RegisterConcat(Ones(), p, v);
    SameWindow(Register(Ones(), p), u, v);
  }

  lemma SameWindow(r: Word, s: seq<bv8>, t: seq<bv8>)
    requires |s| == |t| <= 4 && Register(r, s) == Register(r, t)
    ensures s == t
  {
    RegisterPack(r, s);
    RegisterPack(r, t);
    ShiftsInjective(Add(r, Pack(s)), Add(r, Pack(t)), 8 * |s|);
    forall i | 0 <= i < 32 ensures Pack(s)[i] == Pack(t)[i] { assert Add(r, Pack(s))[i] == Add(r, Pack(t))[i]; }
    PackInjective(s, t);
  }

  // ----- the table -----

  function Pick(i: bv8, a: bv32, b: bv32, c: bv32, d: bv32, e: bv32, f: bv32, g: bv32, h: bv32): bv32 {
    match i & 7 case 0 => a case 1 => b case 2 => c case 3 => d case 4 => e case 5 => f case 6 => g case _ => h
  }

  /** crc_32_tab (lines 21-55) */
  function Table(i: bv8): bv32 {
    if i < 0x08 then Pick(i, 0x00000000, 0x77073096, 0xee0e612c, 0x990951ba,
                             0x076dc419, 0x706af48f, 0xe963a535, 0x9e6495a3)
    else if i < 0x10 then Pick(i, 0x0edb8832, 0x79dcb8a4, 0xe0d5e91e, 0x97d2d988,
                                  0x09b64c2b, 0x7eb17cbd, 0xe7b82d07, 0x90bf1d91)
    else if i < 0x18 then Pick(i, 0x1db71064, 0x6ab020f2, 0xf3b97148, 0x84be41de,
                                  0x1adad47d, 0x6ddde4eb, 0xf4d4b551, 0x83d385c7)
    else if i < 0x20 then Pick(i, 0x136c9856, 0x646ba8c0, 0xfd62f97a, 0x8a65c9ec,
                                  0x14015c4f, 0x63066cd9, 0xfa0f3d63, 0x8d080df5)
    else if i < 0x28 then Pick(i, 0x3b6e20c8, 0x4c69105e, 0xd56041e4, 0xa2677172,
                                  0x3c03e4d1, 0x4b04d447, 0xd20d85fd, 0xa50ab56b)
    else if i < 0x30 then Pick(i, 0x35b5a8fa, 0x42b2986c, 0xdbbbc9d6, 0xacbcf940,
                                  0x32d86ce3, 0x45df5c75, 0xdcd60dcf, 0xabd13d59)
    else if i < 0x38 then Pick(i, 0x26d930ac, 0x51de003a, 0xc8d75180, 0xbfd06116,
                                  0x21b4f4b5, 0x56b3c423, 0xcfba9599, 0xb8bda50f)
    else if i < 0x40 then Pick(i, 0x2802b89e, 0x5f058808, 0xc60cd9b2, 0xb10be924,
                                  0x2f6f7c87, 0x58684c11, 0xc1611dab, 0xb6662d3d)
    else if i < 0x48 then Pick(i, 0x76dc4190, 0x01db7106, 0x98d220bc, 0xefd5102a,
                                  0x71b18589, 0x06b6b51f, 0x9fbfe4a5, 0xe8b8d433)
    else if i < 0x50 then Pick(i, 0x7807c9a2, 0x0f00f934, 0x9609a88e, 0xe10e9818,
                                  0x7f6a0dbb, 0x086d3d2d, 0x91646c97, 0xe6635c01)
    else if i < 0x58 then Pick(i, 0x6b6b51f4, 0x1c6c6162, 0x856530d8, 0xf262004e,
                                  0x6c0695ed, 0x1b01a57b, 0x8208f4c1, 0xf50fc457)
    else if i < 0x60 then Pick(i, 0x65b0d9c6, 0x12b7e950, 0x8bbeb8ea, 0xfcb9887c,
                                  0x62dd1ddf, 0x15da2d49, 0x8cd37cf3, 0xfbd44c65)
    else if i < 0x68 then Pick(i, 0x4db26158, 0x3ab551ce, 0xa3bc0074, 0xd4bb30e2,
                                  0x4adfa541, 0x3dd895d7, 0xa4d1c46d, 0xd3d6f4fb)
    else if i < 0x70 then Pick(i, 0x4369e96a, 0x346ed9fc, 0xad678846, 0xda60b8d0,
                                  0x44042d73, 0x33031de5, 0xaa0a4c5f, 0xdd0d7cc9)
    else if i < 0x78 then Pick(i, 0x5005713c, 0x270241aa, 0xbe0b1010, 0xc90c2086,
                                  0x5768b525, 0x206f85b3, 0xb966d409, 0xce61e49f)
    else if i < 0x80 then Pick(i, 0x5edef90e, 0x29d9c998, 0xb0d09822, 0xc7d7a8b4,
                                  0x59b33d17, 0x2eb40d81, 0xb7bd5c3b, 0xc0ba6cad)
    else if i < 0x88 then Pick(i, 0xedb88320, 0x9abfb3b6, 0x03b6e20c, 0x74b1d29a,
                                  0xead54739, 0x9dd277af, 0x04db2615, 0x73dc1683)
    else if i < 0x90 then Pick(i, 0xe3630b12, 0x94643b84, 0x0d6d6a3e, 0x7a6a5aa8,
                                  0xe40ecf0b, 0x9309ff9d, 0x0a00ae27, 0x7d079eb1)
    else if i < 0x98 then Pick(i, 0xf00f9344, 0x8708a3d2, 0x1e01f268, 0x6906c2fe,
                                  0xf762575d, 0x806567cb, 0x196c3671, 0x6e6b06e7)
    else if i < 0xa0 then Pick(i, 0xfed41b76, 0x89d32be0, 0x10da7a5a, 0x67dd4acc,
                                  0xf9b9df6f, 0x8ebeeff9, 0x17b7be43, 0x60b08ed5)
    else if i < 0xa8 then Pick(i, 0xd6d6a3e8, 0xa1d1937e, 0x38d8c2c4, 0x4fdff252,
                                  0xd1bb67f1, 0xa6bc5767, 0x3fb506dd, 0x48b2364b)
    else if i < 0xb0 then Pick(i, 0xd80d2bda, 0xaf0a1b4c, 0x36034af6, 0x41047a60,
                                  0xdf60efc3, 0xa867df55, 0x316e8eef, 0x4669be79)
    else if i < 0xb8 then Pick(i, 0xcb61b38c, 0xbc66831a, 0x256fd2a0, 0x5268e236,
                                  0xcc0c7795, 0xbb0b4703, 0x220216b9, 0x5505262f)
    else if i < 0xc0 then Pick(i, 0xc5ba3bbe, 0xb2bd0b28, 0x2bb45a92, 0x5cb36a04,
                                  0xc2d7ffa7, 0xb5d0cf31, 0x2cd99e8b, 0x5bdeae1d)
    else if i < 0xc8 then Pick(i, 0x9b64c2b0, 0xec63f226, 0x756aa39c, 0x026d930a,
                                  0x9c0906a9, 0xeb0e363f, 0x72076785, 0x05005713)
    else if i < 0xd0 then Pick(i, 0x95bf4a82, 0xe2b87a14, 0x7bb12bae, 0x0cb61b38,
                                  0x92d28e9b, 0xe5d5be0d, 0x7cdcefb7, 0x0bdbdf21)
    else if i < 0xd8 then Pick(i, 0x86d3d2d4, 0xf1d4e242, 0x68ddb3f8, 0x1fda836e,
                                  0x81be16cd, 0xf6b9265b, 0x6fb077e1, 0x18b74777)
    else if i < 0xe0 then Pick(i, 0x88085ae6, 0xff0f6a70, 0x66063bca, 0x11010b5c,
                                  0x8f659eff, 0xf862ae69, 0x616bffd3, 0x166ccf45)
    else if i < 0xe8 then Pick(i, 0xa00ae278, 0xd70dd2ee, 0x4e048354, 0x3903b3c2,
                                  0xa7672661, 0xd06016f7, 0x4969474d, 0x3e6e77db)
    else if i < 0xf0 then Pick(i, 0xaed16a4a, 0xd9d65adc, 0x40df0b66, 0x37d83bf0,
                                  0xa9bcae53, 0xdebb9ec5, 0x47b2cf7f, 0x30b5ffe9)
    else if i < 0xf8 then Pick(i, 0xbdbdf21c, 0xcabac28a, 0x53b39330, 0x24b4a3a6,
                                  0xbad03605, 0xcdd70693, 0x54de5729, 0x23d967bf)
    else Pick(i, 0xb3667a2e, 0xc4614ab8, 0x5d681b02, 0x2a6f2b94,
                 0xb40bbe37, 0xc30c8ea1, 0x5a05df1b, 0x2d02ef8d)
  }

  function ShiftNumber(r: bv32): bv32 { if r & 1 == 1 then (r >> 1) ^ 0xEDB88320 else r >> 1 }

  function ShiftNumbers(r: bv32, n: nat): bv32
    decreases n
  {
    if n == 0 then r else ShiftNumber(ShiftNumbers(r, n - 1))
  }

  lemma TableEntry(i: bv8)
    ensures Table(i) == ShiftNumbers(i as bv32, 8)
  {
    if i < 4 { EntryBelow4(i); } else if i < 16 { EntryBelow16(i); } else if i < 32 { EntryBelow32(i); }
    else if i < 64 { EntryBelow64(i); } else if i < 96 { EntryBelow96(i); } else if i < 128 { EntryBelow128(i); }
    else if i < 160 { EntryBelow160(i); } else if i < 192 { EntryBelow192(i); } else if i < 224 { EntryBelow224(i); }
    else if i < 240 { EntryBelow240(i); } else if i < 248 { EntryBelow248(i); } else { EntryAbove247(i); }
  }

  lemma EntryBelow4(i: bv8)
    requires i < 4
    ensures Table(i) == ShiftNumbers(i as bv32, 8)
  {
  }

  lemma EntryBelow16(i: bv8)
    requires 4 <= i < 16
    ensures Table(i) == ShiftNumbers(i as bv32, 8)
  {
  }

  lemma EntryBelow32(i: bv8)
    requires 16 <= i < 32
    ensures Table(i) == ShiftNumbers(i as bv32, 8)
  {
  }

  lemma EntryBelow64(i: bv8)
    requires 32 <= i < 64
    ensures Table(i) == ShiftNumbers(i as bv32, 8)
  {
  }

  lemma EntryBelow96(i: bv8)
    requires 64 <= i < 96
    ensures Table(i) == ShiftNumbers(i as bv32, 8)
  {
  }

  lemma EntryBelow128(i: bv8)
    requires 96 <= i < 128
    ensures Table(i) == ShiftNumbers(i as bv32, 8)
  {
  }

  lemma EntryBelow160(i: bv8)
    requires 128 <= i < 160
    ensures Table(i) == ShiftNumbers(i as bv32, 8)
  {
  }

  lemma EntryBelow192(i: bv8)
    requires 160 <= i < 192
    ensures Table(i) == ShiftNumbers(i as bv32, 8)
  {
  }

  lemma EntryBelow224(i: bv8)
    requires 192 <= i < 224
    ensures Table(i) == ShiftNumbers(i as bv32, 8)
  {
  }

  lemma EntryBelow240(i: bv8)
    requires 224 <= i < 240
    ensures Table(i) == ShiftNumbers(i as bv32, 8)
  {
  }

  lemma EntryBelow248(i: bv8)
    requires 240 <= i < 248
    ensures Table(i) == ShiftNumbers(i as bv32, 8)
  {
  }

  lemma EntryAbove247(i: bv8)
    requires i >= 248
    ensures Table(i) == ShiftNumbers(i as bv32, 8)
  {
  }

  // ----- what the machine's operations do to the bits of a number -----

  lemma XorJoin(s: seq<bv8>, t: seq<bv8>, r: seq<bv8>)
    requires |s| == |t| == |r| == 4 && forall j :: 0 <= j < 4 ==> r[j] == GfTables.XorByte(s[j], t[j])
    ensures Join(r) == Add(Join(s), Join(t))
  {
    forall i | 0 <= i < 32 ensures Join(r)[i] == Add(Join(s), Join(t))[i] { XorJoinAt(s, t, r, i); }
  }

  lemma XorJoinAt(s: seq<bv8>, t: seq<bv8>, r: seq<bv8>, i: nat)
    requires |s| == |t| == |r| == 4 && i < 32 && r[i / 8] == GfTables.XorByte(s[i / 8], t[i / 8])
    ensures Join(r)[i] == Add(Join(s), Join(t))[i]
  {
    hide Bit, GfTables.XorByte;
    XoredAt(s[i / 8], t[i / 8], r[i / 8], 7 - i % 8);
  }

  lemma XoredAt(b: bv8, c: bv8, d: bv8, k: nat)
    requires k < 8 && d == GfTables.XorByte(b, c)
    ensures Bit(d, k) <==> Bit(b, k) != Bit(c, k)
  {
    XorBit(b, c, k);
  }

  lemma XorBits(x: bv32, y: bv32)
    ensures WordOf(x ^ y) == Add(WordOf(x), WordOf(y))
  {
    GfTables.XorWordBytes(x, y);
    XorJoin(LittleBytes(x), LittleBytes(y), LittleBytes(x ^ y));
  }

  lemma HalfWord(x: bv32)
    ensures ByteOf(x >> 1, 0) == ShiftByte(ByteOf(x, 0), ByteOf(x, 1)) && ByteOf(x >> 1, 1) == ShiftByte(ByteOf(x, 1), ByteOf(x, 2))
    ensures ByteOf(x >> 1, 2) == ShiftByte(ByteOf(x, 2), ByteOf(x, 3)) && ByteOf(x >> 1, 3) == ShiftByte(ByteOf(x, 3), 0)
  {
  }

  lemma HalfJoin(t: seq<bv8>, r: seq<bv8>)
    requires |t| == 5 && t[4] == 0
    requires r == [ShiftByte(t[0], t[1]), ShiftByte(t[1], t[2]), ShiftByte(t[2], t[3]), ShiftByte(t[3], t[4])]
    ensures Join(r) == Down(Join(t[..4]), 1)
  {
    hide ShiftByte, Bit, Join;
    forall i | 0 <= i < 32 ensures Join(r)[i] == Down(Join(t[..4]), 1)[i] { HalfAt(t, r, i / 8, i % 8); }
  }

  lemma HalfAt(t: seq<bv8>, r: seq<bv8>, j: nat, m: nat)
    requires |t| == 5 && |r| == 4 && j < 4 && m < 8 && t[4] == 0 && r[j] == ShiftByte(t[j], t[j + 1])
    ensures Join(r)[8 * j + m] == (8 * j + m < 31 && Join(t[..4])[8 * j + m + 1])
  {
    hide ShiftByte, Bit, Join;
    ShiftBit(t[j], t[j + 1], r[j], 7 - m);
    JoinAt(r, j, 7 - m);
    if m < 7 {
      JoinAt(t[..4], j, 6 - m);
    } else if j < 3 {
      JoinAt(t[..4], j + 1, 7);
    } else {
      NoBit();
    }
  }

  lemma NoBit()
    ensures !Bit(0, 7)
  {
  }

  lemma HalfBits(x: bv32)
    ensures WordOf(x >> 1) == Down(WordOf(x), 1)
  {
    HalfWord(x);
    HalfJoin(LittleBytes(x) + [0], LittleBytes(x >> 1));
    assert (LittleBytes(x) + [0])[..4] == LittleBytes(x);
  }

  lemma PolynomialBits()
    ensures forall i :: 0 <= i < 32 ==> WordOf(0xEDB88320)[i] == InPolynomial(i)
  {
  }

  lemma LowestBit(x: bv32)
    ensures WordOf(x)[0] <==> x & 1 == 1
  {
  }

  /** The branch of the bit-serial version is a shift of the register. */
  lemma ShiftNumberBits(x: bv32)
    ensures WordOf(ShiftNumber(x)) == Shift(WordOf(x))
  {
    LowestBit(x);
    HalfBits(x);
    if x & 1 == 1 {
      XorBits(x >> 1, 0xEDB88320);
      PolynomialBits();
      ShiftParts(WordOf(x), WordOf(x >> 1), WordOf(0xEDB88320));
    } else {
      ShiftDown(WordOf(x), WordOf(x >> 1));
    }
  }

  lemma ShiftParts(w: Word, h: Word, p: Word)
    requires w[0] && h == Down(w, 1) && forall i :: 0 <= i < 32 ==> p[i] == InPolynomial(i)
    ensures Add(h, p) == Shift(w)
  {
  }

  lemma ShiftDown(w: Word, h: Word)
    requires !w[0] && h == Down(w, 1)
    ensures h == Shift(w)
  {
  }

  lemma {:induction false} ShiftNumbersBits(x: bv32, n: nat)
    ensures WordOf(ShiftNumbers(x, n)) == Shifts(WordOf(x), n)
  {
    if n > 0 {
      ShiftNumbersBits(x, n - 1);
      NextShift(ShiftNumbers(x, n - 1), ShiftNumbers(x, n), Shifts(WordOf(x), n - 1));
    }
  }

  lemma NextShift(x: bv32, y: bv32, w: Word)
    requires WordOf(x) == w && y == ShiftNumber(x)
    ensures WordOf(y) == Shift(w)
  {
    ShiftNumberBits(x);
    SameWord(ShiftNumber(x), y, Shift(w));
  }

  lemma SameWord(x: bv32, y: bv32, w: Word)
    requires x == y && WordOf(x) == w
    ensures WordOf(y) == w
  {
  }

  lemma ByteBits(b: bv8)
    ensures WordOf(b as bv32) == Byte(b)
  {
  }

  lemma LowByte(x: bv32)
    ensures (x & 0xff) as bv8 == ByteOf(x, 0)
  {
  }

  lemma EighthBits(x: bv32)
    ensures WordOf(x >> 8) == Down(WordOf(x), 8)
  {
  }

  lemma WordInjective(x: bv32, y: bv32)
    requires WordOf(x) == WordOf(y)
    ensures x == y
  {
    SameByte(x, y, 0);
    SameByte(x, y, 1);
    SameByte(x, y, 2);
    SameByte(x, y, 3);
    FourBytes(x, y);
  }

  lemma SameByte(x: bv32, y: bv32, j: nat)
    requires j < 4 && WordOf(x) == WordOf(y)
    ensures ByteOf(x, j) == ByteOf(y, j)
  {
    JoinInjective(LittleBytes(x), LittleBytes(y), j);
  }

  lemma JoinInjective(s: seq<bv8>, t: seq<bv8>, j: nat)
    requires |s| == 4 == |t| && Join(s) == Join(t) && j < 4
    ensures s[j] == t[j]
  {
    forall k | 0 <= k < 8 ensures Bit(s[j], k) == Bit(t[j], k) {
      JoinAt(s, j, k);
      JoinAt(t, j, k);
    }
    BitsDetermine(s[j], t[j]);
  }

  lemma JoinAt(s: seq<bv8>, j: nat, k: nat)
    requires |s| == 4 && j < 4 && k < 8
    ensures Join(s)[8 * j + (7 - k)] == Bit(s[j], k)
  {
  }

  lemma FourBytes(x: bv32, y: bv32)
    requires ByteOf(x, 0) == ByteOf(y, 0) && ByteOf(x, 1) == ByteOf(y, 1)
    requires ByteOf(x, 2) == ByteOf(y, 2) && ByteOf(x, 3) == ByteOf(y, 3)
    ensures x == y
  {
  }

  lemma LowBits(x: bv32, i: bv8)
    requires i == (x & 0xff) as bv8
    ensures forall k :: 0 <= k < 8 ==> Byte(i)[k] == WordOf(x)[k]
  {
    LowByte(x);
    forall k | 0 <= k < 8 ensures Byte(i)[k] == WordOf(x)[k] { assert WordOf(x)[k] == Bit(LittleBytes(x)[0], 7 - k); }
  }

  lemma TableBits(i: bv8)
    ensures WordOf(Table(i)) == Shifts(Byte(i), 8)
  {
    ShiftNumbersBits(i as bv32, 8);
    TableEntry(i);
    ByteBits(i);
    SameWord(ShiftNumbers(i as bv32, 8), Table(i), Shifts(Byte(i), 8));
  }

  // ----- the two versions of GetCrc32 -----

  method LookUp(i: bv8) returns (e: bv32)
    ensures WordOf(e) == Shifts(Byte(i), 8)
  {
    e := Table(i);
    TableBits(i);
  }

  method Exclusive(x: bv32, y: bv32) returns (z: bv32)
    ensures WordOf(z) == Add(WordOf(x), WordOf(y))
  {
    z := x ^ y;
    XorBits(x, y);
  }

  method Widen(b: bv8) returns (x: bv32)
    ensures WordOf(x) == Byte(b)
  {
    x := b as bv32;
    ByteBits(b);
  }

  method Narrow(x: bv32) returns (b: bv8)
    ensures forall k :: 0 <= k < 8 ==> Byte(b)[k] == WordOf(x)[k]
  {
    b := (x & 0xff) as bv8;
    LowBits(x, b);
  }

  method Eighth(x: bv32) returns (y: bv32)
    ensures WordOf(y) == Down(WordOf(x), 8)
  {
    y := x >> 8;
    EighthBits(x);
  }

  /** The high bits of the register only move down, and the low ones are looked up. */
  lemma LookedUp(r: Word, b: bv8, i: bv8)
    requires forall k :: 0 <= k < 8 ==> Byte(i)[k] == Add(r, Byte(b))[k]
    ensures Add(Shifts(Byte(i), 8), Down(r, 8)) == Step(r, b)
  {
    var x := Add(r, Byte(b));
    var high: Word := seq(32, k requires 0 <= k < 32 => k >= 8 && x[k]);
    assert x == Add(Byte(i), high);
    ShiftsAdd(Byte(i), high, 8);
    ShiftsHigh(high, 8);
    assert Down(high, 8) == Down(r, 8);
  }

  /** UPDC32 (Crc.h, lines 24-25) */
  method Update(b: bv8, r: bv32) returns (s: bv32)
    ensures WordOf(s) == Step(WordOf(r), b)
  {
    var x := Widen(b);
    x := Exclusive(r, x);
    var i := Narrow(x);
    var e := LookUp(i);
    var high := Eighth(r);
    s := Exclusive(e, high);
    LookedUp(WordOf(r), b, i);
  }

  lemma OnesBits()
    ensures WordOf(0xffffffff) == Ones()
  {
  }

  /** The version with the table (lines 57-67). */
  method GetCrc32(data: seq<bv8>) returns (crc: bv32)
    ensures WordOf(crc) == Checksum(data)
  {
    crc := 0xffffffff;
    OnesBits();
    for i := 0 to |data|
      invariant WordOf(crc) == Register(Ones(), data[..i])
    {
      RegisterNext(Ones(), data, i);
      crc := Update(data[i], crc);
    }
    assert data[..|data|] == data;
    crc := Exclusive(crc, 0xffffffff);
  }

  /** crc32int (lines 69-78): the checksum of an integer as it is stored. */
  method Crc32Int(data: bv32) returns (crc: bv32)
    ensures WordOf(crc) == Checksum(LittleBytes(data))
  {
    hide WordOf, Step, LittleBytes, Add, Ones;
    var d := LittleBytes(data);
    FourLittle(data);
    OnesBits();
    crc := Update(d[0], 0xffffffff);
    RegisterNext(Ones(), d, 0);
    crc := Update(d[1], crc);
    RegisterNext(Ones(), d, 1);
    crc := Update(d[2], crc);
    RegisterNext(Ones(), d, 2);
    crc := Update(d[3], crc);
    RegisterNext(Ones(), d, 3);
    assert d[..4] == d && d[..0] == [];
    crc := Exclusive(crc, 0xffffffff);
  }

  lemma FourLittle(x: bv32)
    ensures |LittleBytes(x)| == 4
  {
  }

  method ShiftRegister(r: bv32) returns (s: bv32)
    ensures WordOf(s) == Shift(WordOf(r))
  {
    s := ShiftNumber(r);
    ShiftNumberBits(r);
  }

  /** The version without a table (lines 104-122). */
  method GetCrc32Small(data: seq<bv8>) returns (crc: bv32)
    ensures WordOf(crc) == Checksum(data)
  {
    crc := 0xffffffff;
    OnesBits();
    for i := 0 to |data|
      invariant WordOf(crc) == Register(Ones(), data[..i])
    {
      RegisterNext(Ones(), data, i);
      var x := Widen(data[i]);
      crc := Exclusive(crc, x);
      ghost var w := WordOf(crc);
      for b := 0 to 8
        invariant WordOf(crc) == Shifts(w, b)
      {
        crc := ShiftRegister(crc);
      }
    }
    assert data[..|data|] == data;
    crc := Exclusive(crc, 0xffffffff);
  }

  /** Both versions agree on every string. */
  method BothVersions(data: seq<bv8>) returns (crc: bv32, small: bv32)
    ensures crc == small
  {
    crc := GetCrc32(data);
    small := GetCrc32Small(data);
    WordInjective(crc, small);
  }

  // ----- the self-test of the version without a table -----

  function TestData(): seq<bv8> { seq(32, i requires 0 <= i < 32 => i as bv8) }

  /** One step of the version with the table. */
  lemma NumberStep(r: bv32, b: bv8, x: bv32, i: bv8, h: bv32, e: bv32, s: bv32)
    requires x == r ^ (b as bv32) && i == (x & 0xff) as bv8 && h == r >> 8 && e == Table(i) && s == h ^ e
    ensures WordOf(s) == Step(WordOf(r), b)
  {
    hide WordOf, ShiftNumbers, Table, Step, Byte, Shifts, Add, Down;
    assert WordOf(x) == Add(WordOf(r), Byte(b)) by {
      ByteBits(b);
      XorBits(r, b as bv32);
    }
    LowBits(x, i);
    assert WordOf(h) == Down(WordOf(r), 8) by { EighthBits(r); }
    TableBits(i);
    XorBits(h, e);
    LookedUp(WordOf(r), b, i);
    AddCommutes(WordOf(h), WordOf(e));
  }

  lemma AddCommutes(x: Word, y: Word)
    ensures Add(x, y) == Add(y, x)
  {
  }

  lemma OneMore(i: nat, r: bv32, b: bv8, x: bv32, j: bv8, h: bv32, e: bv32, s: bv32)
    requires i < 32 && b == i as bv8 && WordOf(r) == Register(Ones(), TestData()[..i])
    requires x == r ^ (b as bv32) && j == (x & 0xff) as bv8 && h == r >> 8 && e == Table(j) && s == h ^ e
    ensures WordOf(s) == Register(Ones(), TestData()[..i + 1])
  {
    hide WordOf, Register, Step, Table;
    RegisterNext(Ones(), TestData(), i);
    NumberStep(r, b, x, j, h, e, s);
  }

  /** The checksum of the numbers 0 to 31 (lines 125-134). */
  lemma SelfTestValue()
    ensures Checksum(seq(32, i requires 0 <= i < 32 => i as bv8)) == WordOf(0x91267E8A)
  {
    hide Register;
    OnesBits();
    assert Register(Ones(), TestData()[..0]) == Ones() by { EmptyRegister(); }
    FirstEight();
    SecondEight();
    ThirdEight();
    FourthEight();
    assert TestData()[..32] == TestData();
    XorBits(0x6ed98175, 0xffffffff);
  }

  lemma EmptyRegister()
    ensures Register(Ones(), TestData()[..0]) == Ones()
  {
  }

  lemma FirstEight()
    requires WordOf(0xffffffff) == Register(Ones(), TestData()[..0])
    ensures WordOf(0x77559760) == Register(Ones(), TestData()[..8])
  {
    hide WordOf, Register, TestData;
    OneMore(0, 0xffffffff, 0, 0xffffffff, 0xff, 0xffffff, 0x2d02ef8d, 0x2dfd1072);
    OneMore(1, 0x2dfd1072, 1, 0x2dfd1073, 0x73, 0x2dfd10, 0xc90c2086, 0xc921dd96);
    OneMore(2, 0xc921dd96, 2, 0xc921dd94, 0x94, 0xc921dd, 0xf762575d, 0xf7ab7680);
    OneMore(3, 0xf7ab7680, 3, 0xf7ab7683, 0x83, 0xf7ab76, 0x74b1d29a, 0x744679ec);
    OneMore(4, 0x744679ec, 4, 0x744679e8, 0xe8, 0x744679, 0xaed16a4a, 0xaea52c33);
    OneMore(5, 0xaea52c33, 5, 0xaea52c36, 0x36, 0xaea52c, 0xcfba9599, 0xcf1430b5);
    OneMore(6, 0xcf1430b5, 6, 0xcf1430b3, 0xb3, 0xcf1430, 0x5268e236, 0x52a7f606);
    OneMore(7, 0x52a7f606, 7, 0x52a7f601, 0x01, 0x52a7f6, 0x77073096, 0x77559760);
  }

  lemma SecondEight()
    requires WordOf(0x77559760) == Register(Ones(), TestData()[..8])
    ensures WordOf(0x31311d77) == Register(Ones(), TestData()[..16])
  {
    hide WordOf, Register, TestData;
    OneMore(8, 0x77559760, 8, 0x77559768, 0x68, 0x775597, 0x4369e96a, 0x431ebcfd);
    OneMore(9, 0x431ebcfd, 9, 0x431ebcf4, 0xf4, 0x431ebc, 0xbad03605, 0xba9328b9);
    OneMore(10, 0xba9328b9, 10, 0xba9328b3, 0xb3, 0xba9328, 0x5268e236, 0x52d2711e);
    OneMore(11, 0x52d2711e, 11, 0x52d27115, 0x15, 0x52d271, 0x6ddde4eb, 0x6d8f369a);
    OneMore(12, 0x6d8f369a, 12, 0x6d8f3696, 0x96, 0x6d8f36, 0x196c3671, 0x1901b947);
    OneMore(13, 0x1901b947, 13, 0x1901b94a, 0x4a, 0x1901b9, 0x9609a88e, 0x9610a937);
    OneMore(14, 0x9610a937, 14, 0x9610a939, 0x39, 0x9610a9, 0x5f058808, 0x5f9398a1);
    OneMore(15, 0x5f9398a1, 15, 0x5f9398ae, 0xae, 0x5f9398, 0x316e8eef, 0x31311d77);
  }

  lemma ThirdEight()
    requires WordOf(0x31311d77) == Register(Ones(), TestData()[..16])
    ensures WordOf(0x7d6a5969) == Register(Ones(), TestData()[..24])
  {
    hide WordOf, Register, TestData;
    OneMore(16, 0x31311d77, 16, 0x31311d67, 0x67, 0x31311d, 0xd3d6f4fb, 0xd3e7c5e6);
    OneMore(17, 0xd3e7c5e6, 17, 0xd3e7c5f7, 0xf7, 0xd3e7c5, 0x23d967bf, 0x230a807a);
    OneMore(18, 0x230a807a, 18, 0x230a8068, 0x68, 0x230a80, 0x4369e96a, 0x434ae3ea);
    OneMore(19, 0x434ae3ea, 19, 0x434ae3f9, 0xf9, 0x434ae3, 0xc4614ab8, 0xc422005b);
    OneMore(20, 0xc422005b, 20, 0xc422004f, 0x4f, 0xc42200, 0xe6635c01, 0xe6a77e01);
    OneMore(21, 0xe6a77e01, 21, 0xe6a77e14, 0x14, 0xe6a77e, 0x1adad47d, 0x1a3c7303);
    OneMore(22, 0x1a3c7303, 22, 0x1a3c7315, 0x15, 0x1a3c73, 0x6ddde4eb, 0x6dc7d898);
    OneMore(23, 0x6dc7d898, 23, 0x6dc7d88f, 0x8f, 0x6dc7d8, 0x7d079eb1, 0x7d6a5969);
  }

  lemma FourthEight()
    requires WordOf(0x7d6a5969) == Register(Ones(), TestData()[..24])
    ensures WordOf(0x6ed98175) == Register(Ones(), TestData()[..32])
  {
    hide WordOf, Register, TestData;
    OneMore(24, 0x7d6a5969, 24, 0x7d6a5971, 0x71, 0x7d6a59, 0x270241aa, 0x277f2bf3);
    OneMore(25, 0x277f2bf3, 25, 0x277f2bea, 0xea, 0x277f2b, 0x40df0b66, 0x40f8744d);
    OneMore(26, 0x40f8744d, 26, 0x40f87457, 0x57, 0x40f874, 0xf50fc457, 0xf54f3c23);
    OneMore(27, 0xf54f3c23, 27, 0xf54f3c38, 0x38, 0xf54f3c, 0x2802b89e, 0x28f7f7a2);
    OneMore(28, 0x28f7f7a2, 28, 0x28f7f7be, 0xbe, 0x28f7f7, 0x2cd99e8b, 0x2cf1697c);
    OneMore(29, 0x2cf1697c, 29, 0x2cf16961, 0x61, 0x2cf169, 0x3ab551ce, 0x3a99a0a7);
    OneMore(30, 0x3a99a0a7, 30, 0x3a99a0b9, 0xb9, 0x3a99a0, 0xb2bd0b28, 0xb2879288);
    OneMore(31, 0xb2879288, 31, 0xb2879297, 0x97, 0xb28792, 0x6e6b06e7, 0x6ed98175);
  }
}
