/** Keyfiles.c: mixing the bytes of keyfiles into a pool, and the pool into a password.
    The checksum that spreads the bytes is an arbitrary function here. */
module Keyfiles {
  import opened Division

  const KEYFILE_MAX_READ_LEN: nat := 1048576
  const KEYFILE_POOL_SIZE: nat := 128
  const KEYFILE_POOL_LEGACY_SIZE: nat := 64
  const MAX_LEGACY_PASSWORD: nat := 64
  const MAX_PASSWORD: nat := 128

  type Byte = b: int | 0 <= b < 256
  type Register(==, 0, !new)

  /** The running checksum: its first value, its value after another byte, and its four
      bytes, highest first. */
  datatype Checksum = Checksum(start: Register, update: (Register, Byte) -> Register,
                               digest: Register -> (Byte, Byte, Byte, Byte))

  function Part(d: (Byte, Byte, Byte, Byte), k: nat): Byte {
    if k == 0 then d.0 else if k == 1 then d.1 else if k == 2 then d.2 else d.3
  }

  /** What a digest written at `at` adds to byte `p`. */
  function Share(d: (Byte, Byte, Byte, Byte), at: nat, p: nat): nat {
    if at <= p < at + 4 then Part(d, p - at) else 0
  }

  // ----- what keyfiles are -----

  type Chunk = c: seq<Byte> | c != [] witness [0]

  /** What reading a file gives: the blocks that successive reads return, and whether
      reading ends with an error instead of the end of the file. */
  datatype File = Unopened | Opened(blocks: seq<Chunk>, broken: bool)

  datatype Entry = Lost | Subdirectory | Hidden | Volume | Plain(file: File)

  datatype KeyFile =
    | TokenError
    | Token(data: seq<Byte>)
    | Missing
    | Unlisted
    | Directory(entries: seq<Entry>)
    | Single(file: File)

  function Flat(blocks: seq<Chunk>): seq<Byte> {
    if blocks == [] then [] else blocks[0] + Flat(blocks[1..])
  }

  /** The part of a keyfile that is used. */
  function Used(data: seq<Byte>): seq<Byte> {
    if |data| <= KEYFILE_MAX_READ_LEN then data else data[..KEYFILE_MAX_READ_LEN]
  }

  // ----- what a keyfile adds to the pool -----

  function After(C: Checksum, data: seq<Byte>): Register {
    if data == [] then C.start else C.update(After(C, data[..|data| - 1]), data[|data| - 1])
  }

  /** Where the pool is written for byte `i`: four bytes at a time, round and round. */
  function Place(i: nat, size: nat): nat {
    if i == 0 || Place(i - 1, size) + 4 >= size then 0 else Place(i - 1, size) + 4
  }

  lemma {:induction false} PlaceCycles(i: nat, size: nat)
    requires size == 64 || size == 128
    ensures Place(i, size) == 4 * i % size
  {
    if i > 0 {
      PlaceCycles(i - 1, size);
      if size == 64 { Wrap64(i - 1); } else { Wrap128(i - 1); }
    }
  }

  lemma Wrap64(i: nat)
    ensures 4 * (i + 1) % 64 == if 4 * i % 64 + 4 >= 64 then 0 else 4 * i % 64 + 4
  {
  }

  lemma Wrap128(i: nat)
    ensures 4 * (i + 1) % 128 == if 4 * i % 128 + 4 >= 128 then 0 else 4 * i % 128 + 4
  {
  }

  /** The sum of what a keyfile adds to byte `p` of the pool. */
  function Added(C: Checksum, data: seq<Byte>, size: nat, p: nat): nat
  {
    if data == [] then 0
    else
      var at := Place(|data| - 1, size);
      Added(C, data[..|data| - 1], size, p) + Share(C.digest(After(C, data)), at, p)
  }

  /** Each byte moves the checksum on and adds its four bytes, highest first, to the four
      bytes of the pool from four times its number on, modulo the size. */
  lemma ByteAdds(C: Checksum, data: seq<Byte>, b: Byte, size: nat, p: nat)
    requires size == 64 || size == 128
    ensures After(C, []) == C.start && After(C, data + [b]) == C.update(After(C, data), b) && Added(C, [], size, p) == 0
    ensures var at, d := 4 * |data| % size, C.digest(After(C, data + [b]));
            Added(C, data + [b], size, p) == Added(C, data, size, p)
              + if p == at then d.0 else if p == at + 1 then d.1 else if p == at + 2 then d.2 else if p == at + 3 then d.3 else 0
  {
    NextAdded(C, data, b, size, p);
    PlaceCycles(|data|, size);
  }

  function FileData(f: File): seq<Byte> { if f.Opened? then Used(Flat(f.blocks)) else [] }

  predicate FileGood(f: File) {
    f.Opened? && (|Flat(f.blocks)| >= KEYFILE_MAX_READ_LEN || (!f.broken && Flat(f.blocks) != []))
  }

  function EntryAdds(C: Checksum, e: Entry, size: nat, p: nat): nat {
    if e.Plain? then Added(C, FileData(e.file), size, p) else 0
  }

  function EntriesAdd(C: Checksum, entries: seq<Entry>, size: nat, p: nat): nat {
    if entries == [] then 0
    else EntriesAdd(C, entries[..|entries| - 1], size, p) + EntryAdds(C, entries[|entries| - 1], size, p)
  }

  function KeyAdds(C: Checksum, kf: KeyFile, size: nat, p: nat): nat
  {
    match kf
    case Token(data) => Added(C, Used(data), size, p)
    case Directory(entries) => EntriesAdd(C, entries, size, p)
    case Single(file) => Added(C, FileData(file), size, p)
    case _ => 0
  }

  predicate EntryGood(e: Entry) { !e.Lost? && (e.Plain? ==> FileGood(e.file)) }

  predicate DirectoryGood(entries: seq<Entry>) {
    (exists j :: 0 <= j < |entries| && entries[j].Plain?) && forall e :: e in entries ==> EntryGood(e)
  }

  predicate KeyGood(kf: KeyFile) {
    match kf
    case Token(data) => data != []
    case Directory(entries) => DirectoryGood(entries)
    case Single(file) => FileGood(file)
    case _ => false
  }

  function AllAdd(C: Checksum, files: seq<KeyFile>, size: nat, p: nat): nat
  {
    if files == [] then 0 else AllAdd(C, files[..|files| - 1], size, p) + KeyAdds(C, files[|files| - 1], size, p)
  }

  // ----- what becomes of a password -----

  function PoolSize(length: nat): nat {
    if length <= MAX_LEGACY_PASSWORD then KEYFILE_POOL_LEGACY_SIZE else KEYFILE_POOL_SIZE
  }

  predicate Applies(files: seq<KeyFile>) { files != [] && TokenError !in files }

  /** Byte `i` of the password after the keyfiles have been applied. */
  function NewByte(C: Checksum, files: seq<KeyFile>, text: seq<Byte>, length: nat, i: nat): Byte
    requires i < |text|
  {
    if Applies(files) && i < PoolSize(length) then
      ((if i < length then text[i] else 0) + AllAdd(C, files, PoolSize(length), i)) % 256
    else
      text[i]
  }

  function NewLength(files: seq<KeyFile>, length: nat): nat {
    if Applies(files) && length < PoolSize(length) then PoolSize(length) else length
  }

  predicate Status(files: seq<KeyFile>) { forall kf :: kf in files ==> KeyGood(kf) }

  // ----- the pool -----

  /** The pool holds sums of bytes, modulo 256. */
  predicate Holds(pool: seq<Byte>, sums: seq<nat>) {
    |pool| == |sums| && forall p :: 0 <= p < |pool| ==> pool[p] == sums[p] % 256
  }

  ghost function Sums(C: Checksum, base: seq<nat>, data: seq<Byte>, size: nat): seq<nat>
  {
    seq(|base|, p requires 0 <= p < |base| => base[p] + Added(C, data, size, p))
  }

  method AddPart(pool: array<Byte>, at: nat, v: Byte, ghost sums: seq<nat>)
    requires at < pool.Length && Holds(pool[..], sums)
    modifies pool
    ensures Holds(pool[..], sums[at := sums[at] + v])
  {
    ModSum(sums[at], v);
    pool[at] := (pool[at] + v) % 256;
  }

  lemma ModSum(a: nat, b: nat)
    ensures (a % 256 + b) % 256 == (a + b) % 256
  {
  }

  ghost function Spread(sums: seq<nat>, at: nat, d: (Byte, Byte, Byte, Byte)): seq<nat> {
    seq(|sums|, p requires 0 <= p < |sums| => sums[p] + Share(d, at, p))
  }

  method AddDigest(pool: array<Byte>, at: nat, d: (Byte, Byte, Byte, Byte), ghost sums: seq<nat>)
    requires at + 4 <= pool.Length && Holds(pool[..], sums)
    modifies pool
    ensures Holds(pool[..], Spread(sums, at, d))
  {
    ghost var s: seq<nat> := sums;
    AddPart(pool, at, d.0, s);
    s := s[at := s[at] + d.0];
    AddPart(pool, at + 1, d.1, s);
    s := s[at + 1 := s[at + 1] + d.1];
    AddPart(pool, at + 2, d.2, s);
    s := s[at + 2 := s[at + 2] + d.2];
    AddPart(pool, at + 3, d.3, s);
    s := s[at + 3 := s[at + 3] + d.3];
    assert s == Spread(sums, at, d);
  }

  lemma NextAdded(C: Checksum, data: seq<Byte>, b: Byte, size: nat, p: nat)
    ensures After(C, data + [b]) == C.update(After(C, data), b)
    ensures Added(C, data + [b], size, p)
         == Added(C, data, size, p) + Share(C.digest(After(C, data + [b])), Place(|data|, size), p)
  {
    assert (data + [b])[..|data|] == data;
  }

  lemma NextSums(C: Checksum, base: seq<nat>, data: seq<Byte>, b: Byte, size: nat)
    ensures Spread(Sums(C, base, data, size), Place(|data|, size), C.digest(After(C, data + [b]))) == Sums(C, base, data + [b], size)
  {
    forall p | 0 <= p < |base|
      ensures base[p] + Added(C, data, size, p) + Share(C.digest(After(C, data + [b])), Place(|data|, size), p)
           == base[p] + Added(C, data + [b], size, p)
    {
      NextAdded(C, data, b, size, p);
    }
  }

  /** Add one byte of a keyfile to the pool (lines 191-199 and 270-278). */
  method AddByte(C: Checksum, pool: array<Byte>, size: nat, crc0: Register, pos0: nat, b: Byte,
                 ghost data: seq<Byte>, ghost base: seq<nat>)
    returns (crc: Register, pos: nat)
    requires (size == 64 || size == 128) && pool.Length == 128 == |base|
    requires crc0 == After(C, data) && pos0 == Place(|data|, size)
    requires Holds(pool[..], Sums(C, base, data, size))
    modifies pool
    ensures crc == After(C, data + [b]) && pos == Place(|data| + 1, size)
    ensures Holds(pool[..], Sums(C, base, data + [b], size))
  {
    crc := C.update(crc0, b);
    NextAdded(C, data, b, size, 0);
    NextSums(C, base, data, b, size);
    PlaceFits(|data|, size);
    AddDigest(pool, pos0, C.digest(crc), Sums(C, base, data, size));
    pos := if pos0 + 4 >= size then 0 else pos0 + 4;
  }

  lemma {:induction false} PlaceFits(i: nat, size: nat)
    requires size == 64 || size == 128
    ensures Place(i, size) + 4 <= size && Place(i, size) % 4 == 0
  {
    if i > 0 { PlaceFits(i - 1, size); }
  }

  // ----- reading keyfiles -----

  lemma {:induction false} FlatStep(blocks: seq<Chunk>, k: nat)
    requires k < |blocks|
    ensures Flat(blocks[..k + 1]) == Flat(blocks[..k]) + blocks[k]
    ensures Flat(blocks[..k + 1]) <= Flat(blocks)
  {
    if k == 0 {
      assert blocks[..1] == [blocks[0]] && [blocks[0]][1..] == [];
    } else {
      FlatStep(blocks[1..], k - 1);
      assert blocks[..k + 1][1..] == blocks[1..][..k] && blocks[..k][1..] == blocks[1..][..k - 1];
      assert blocks[1..][..k - 1 + 1] == blocks[1..][..k];
    }
  }

  /** Mix up to `limit` bytes into the pool. */
  method Mix(C: Checksum, pool: array<Byte>, size: nat, crc0: Register, pos0: nat, total: nat, bytes: seq<Byte>,
             ghost data: seq<Byte>, ghost base: seq<nat>)
    returns (crc: Register, pos: nat, total': nat)
    requires (size == 64 || size == 128) && pool.Length == 128 == |base|
    requires crc0 == After(C, data) && pos0 == Place(|data|, size) && total == |data| < KEYFILE_MAX_READ_LEN
    requires Holds(pool[..], Sums(C, base, data, size))
    modifies pool
    ensures var after := Used(data + bytes);
            && crc == After(C, after) && pos == Place(|after|, size) && total' == |after|
            && Holds(pool[..], Sums(C, base, after, size))
  {
    hide After, Place, Sums, Holds;
    crc, pos, total' := crc0, pos0, total;
    var i := 0;
    assert data + bytes[..0] == data;
    while i < |bytes|
      invariant 0 <= i <= |bytes| && total' == |data| + i < KEYFILE_MAX_READ_LEN
      invariant crc == After(C, data + bytes[..i]) && pos == Place(total', size)
      invariant Holds(pool[..], Sums(C, base, data + bytes[..i], size))
    {
      assert data + bytes[..i + 1] == data + bytes[..i] + [bytes[i]];
      crc, pos := AddByte(C, pool, size, crc, pos, bytes[i], data + bytes[..i], base);
      i, total' := i + 1, total' + 1;
      if total' >= KEYFILE_MAX_READ_LEN {
        assert Used(data + bytes) == data + bytes[..i];
        return;
      }
    }
    assert data + bytes[..i] == data + bytes;
  }

  lemma UsedPrefix(s: seq<Byte>, t: seq<Byte>)
    requires s <= t && |s| >= KEYFILE_MAX_READ_LEN
    ensures Used(s) == Used(t)
  {
  }

  /** KeyFileProcess (lines 151-224) */
  method KeyFileProcess(C: Checksum, pool: array<Byte>, size: nat, file: File, ghost base: seq<nat>) returns (status: bool)
    requires (size == 64 || size == 128) && pool.Length == 128 == |base| && Holds(pool[..], base)
    modifies pool
    ensures Holds(pool[..], Sums(C, base, FileData(file), size))
    ensures status == FileGood(file)
    ensures status <==> file.Opened? && (|Flat(file.blocks)| >= 1048576 || (!file.broken && Flat(file.blocks) != []))
  {
    assert Sums(C, base, [], size) == base;
    if file.Unopened? { return false; }
    var crc: Register, pos: nat, total: nat := C.start, 0, 0;
    ghost var data: seq<Byte> := [];
    var k := 0;
    while k < |file.blocks|
      invariant 0 <= k <= |file.blocks| && data == Flat(file.blocks[..k]) <= Flat(file.blocks)
      invariant crc == After(C, data) && pos == Place(total, size) && total == |data| < KEYFILE_MAX_READ_LEN
      invariant Holds(pool[..], Sums(C, base, data, size))
    {
      FlatStep(file.blocks, k);
      crc, pos, total := Mix(C, pool, size, crc, pos, total, file.blocks[k], data, base);
      data := data + file.blocks[k];
      k := k + 1;
      if total >= KEYFILE_MAX_READ_LEN {
        UsedPrefix(data, Flat(file.blocks));
        return true;
      }
    }
    assert file.blocks[..k] == file.blocks;
    status := !file.broken && total != 0;
  }

  /** The bytes of a security token (lines 260-292) */
  method ProcessToken(C: Checksum, pool: array<Byte>, size: nat, data: seq<Byte>, ghost base: seq<nat>) returns (status: bool)
    requires (size == 64 || size == 128) && pool.Length == 128 == |base| && Holds(pool[..], base)
    modifies pool
    ensures Holds(pool[..], Sums(C, base, Used(data), size))
    ensures status == (data != [])
  {
    assert Sums(C, base, [], size) == base;
    if data == [] { return false; }
    assert [] + data == data;
    var _, _, _ := Mix(C, pool, size, C.start, 0, 0, data, [], base);
    status := true;
  }

  ghost function EntrySums(C: Checksum, base: seq<nat>, entries: seq<Entry>, size: nat): seq<nat> {
    seq(|base|, p requires 0 <= p < |base| => base[p] + EntriesAdd(C, entries, size, p))
  }

  lemma EntryStep(C: Checksum, base: seq<nat>, entries: seq<Entry>, k: nat, size: nat)
    requires k < |entries|
    ensures !entries[k].Plain? ==> EntrySums(C, base, entries[..k + 1], size) == EntrySums(C, base, entries[..k], size)
    ensures entries[k].Plain? ==>
              Sums(C, EntrySums(C, base, entries[..k], size), FileData(entries[k].file), size) == EntrySums(C, base, entries[..k + 1], size)
  {
    assert entries[..k + 1][..k] == entries[..k];
  }

  /** The files of a directory (lines 310-381) */
  method ProcessDirectory(C: Checksum, pool: array<Byte>, size: nat, entries: seq<Entry>, ghost base: seq<nat>) returns (status: bool)
    requires (size == 64 || size == 128) && pool.Length == 128 == |base| && Holds(pool[..], base)
    modifies pool
    ensures Holds(pool[..], EntrySums(C, base, entries, size))
    ensures status == DirectoryGood(entries)
    ensures status <==> (exists j :: 0 <= j < |entries| && entries[j].Plain?)
                        && forall e :: e in entries ==> !e.Lost? && (e.Plain? ==> FileGood(e.file))
  {
    hide FileGood, FileData, Added;
    assert EntrySums(C, base, [], size) == base;
    status := true;
    var count := 0;
    var k := 0;
    while k < |entries|
      invariant 0 <= k <= |entries|
      invariant Holds(pool[..], EntrySums(C, base, entries[..k], size))
      invariant status <==> forall e :: e in entries[..k] ==> EntryGood(e)
      invariant count > 0 <==> exists j :: 0 <= j < k && entries[j].Plain?
    {
      EntryStep(C, base, entries, k, size);
      assert entries[..k + 1] == entries[..k] + [entries[k]];
      ghost var was := status;
      match entries[k] {
        case Lost => status := false;
        case Plain(file) =>
          count := count + 1;
          var good := KeyFileProcess(C, pool, size, file, EntrySums(C, base, entries[..k], size));
          if !good { status := false; }
        case _ =>
      }
      assert status == (was && EntryGood(entries[k]));
      k := k + 1;
    }
    assert entries[..k] == entries;
    if count == 0 { status := false; }
  }

  ghost function AllSums(C: Checksum, files: seq<KeyFile>, size: nat): seq<nat> {
    seq(128, p requires 0 <= p < 128 => AllAdd(C, files, size, p))
  }

  lemma AllStep(C: Checksum, files: seq<KeyFile>, k: nat, size: nat)
    requires k < |files|
    ensures forall p :: 0 <= p < 128 ==>
              AllSums(C, files[..k + 1], size)[p] == AllSums(C, files[..k], size)[p] + KeyAdds(C, files[k], size, p)
  {
    assert files[..k + 1][..k] == files[..k];
  }

  /** One keyfile of the list (lines 246-388). */
  method ProcessKeyFile(C: Checksum, pool: array<Byte>, size: nat, kf: KeyFile, ghost base: seq<nat>) returns (status: bool)
    requires (size == 64 || size == 128) && pool.Length == 128 == |base| && Holds(pool[..], base)
    modifies pool
    ensures Holds(pool[..], seq(128, p requires 0 <= p < 128 => base[p] + KeyAdds(C, kf, size, p)))
    ensures status == KeyGood(kf)
  {
    ghost var sums := seq(128, p requires 0 <= p < 128 => base[p] + KeyAdds(C, kf, size, p));
    match kf {
      case Token(data) =>
        status := ProcessToken(C, pool, size, data, base);
        assert sums == Sums(C, base, Used(data), size);
      case Directory(entries) =>
        status := ProcessDirectory(C, pool, size, entries, base);
        assert sums == EntrySums(C, base, entries, size);
      case Single(file) =>
        status := KeyFileProcess(C, pool, size, file, base);
        assert sums == Sums(C, base, FileData(file), size);
      case _ =>
        assert sums == base;
        status := false;
    }
  }

  /** KeyFilesApply (lines 227-406) */
  method KeyFilesApply(C: Checksum, text: array<Byte>, length: nat, files: seq<KeyFile>) returns (status: bool, length': nat)
    requires text.Length == MAX_PASSWORD + 1 && length <= MAX_PASSWORD
    modifies text
    ensures status == Status(files)
    ensures status <==> forall kf :: kf in files ==> KeyGood(kf)
    ensures length' == NewLength(files, length)
    // With keyfiles that can be read, the password gets as long as the pool.
    ensures Applies(files) ==> length' == if length <= 64 then 64 else 128
    ensures files == [] || TokenError in files ==> length' == length && text[..] == old(text[..])
    // Each byte of the pool is added to the byte of the password, or put behind it.
    ensures files != [] && TokenError !in files ==>
              var size := if length <= 64 then 64 else 128;
              forall i :: 0 <= i < text.Length ==>
                text[i] == if i < size then ((if i < length then old(text[i]) else 0) + Total(C, Material(files), size, i)) % 256
                           else old(text[i])
    ensures forall i :: 0 <= i < text.Length ==> text[i] == NewByte(C, files, old(text[..]), length, i)
  {
    hide NewByte, Total, Material, AllAdd, KeyGood, KeyAdds;
    SameBytes(C, files, text[..], length);
    var size := if length <= MAX_LEGACY_PASSWORD then KEYFILE_POOL_LEGACY_SIZE else KEYFILE_POOL_SIZE;
    length' := length;
    status := true;
    if files == [] { return; }
    var pool := new Byte[KEYFILE_POOL_SIZE](_ => 0);
    NoneAdded(C, size);
    assert files[..0] == [];
    var k := 0;
    while k < |files|
      invariant 0 <= k <= |files| && TokenError !in files[..k]
      invariant Holds(pool[..], AllSums(C, files[..k], size))
      invariant status <==> forall kf :: kf in files[..k] ==> KeyGood(kf)
      invariant text[..] == old(text[..])
    {
      if files[k].TokenError? {
        TokenBad();
        return false, length;
      }
      AllStep(C, files, k, size);
      assert files[..k + 1] == files[..k] + [files[k]];
      var good := ProcessKeyFile(C, pool, size, files[k], AllSums(C, files[..k], size));
      if !good { status := false; }
      k := k + 1;
    }
    assert files[..k] == files;
    MixPool(C, text, pool, length, size, files);
    NewBytes(C, files, old(text[..]), text[..], length);
    if length < size { length' := size; }
  }

  lemma NoneAdded(C: Checksum, size: nat)
    ensures forall p :: 0 <= p < 128 ==> AllSums(C, [], size)[p] == 0
  {
  }

  lemma TokenBad()
    ensures !KeyGood(TokenError)
  {
  }

  lemma SameBytes(C: Checksum, files: seq<KeyFile>, text: seq<Byte>, length: nat)
    ensures !Applies(files) ==> forall i :: 0 <= i < |text| ==> NewByte(C, files, text, length, i) == text[i]
  {
  }

  /** The new password in terms of the byte strings. */
  lemma NewBytes(C: Checksum, files: seq<KeyFile>, text: seq<Byte>, text': seq<Byte>, length: nat)
    requires Applies(files) && |text'| == |text|
    requires forall i :: 0 <= i < |text| ==> text'[i] == NewByte(C, files, text, length, i)
    ensures var size := if length <= 64 then 64 else 128;
            forall i :: 0 <= i < |text| ==>
              text'[i] == if i < size then ((if i < length then text[i] else 0) + Total(C, Material(files), size, i)) % 256 else text[i]
  {
    hide AllAdd, Material, Total;
    var size := if length <= 64 then 64 else 128;
    forall i | 0 <= i < size ensures AllAdd(C, files, size, i) == Total(C, Material(files), size, i) { AllTotal(C, files, size, i); }
  }

  /** Mix the pool into the password (lines 392-398). */
  method MixPool(C: Checksum, text: array<Byte>, pool: array<Byte>, length: nat, size: nat, ghost files: seq<KeyFile>)
    requires text.Length == MAX_PASSWORD + 1 && pool.Length == 128 && text != pool && size == PoolSize(length)
    requires Applies(files) && Holds(pool[..], AllSums(C, files, size))
    modifies text
    ensures forall i :: 0 <= i < text.Length ==> text[i] == NewByte(C, files, old(text[..]), length, i)
  {
    var i := 0;
    while i < size
      invariant 0 <= i <= size
      invariant forall j :: 0 <= j < i ==> text[j] == NewByte(C, files, old(text[..]), length, j)
      invariant forall j :: i <= j < text.Length ==> text[j] == old(text[j])
    {
      ghost var sum: nat := AllAdd(C, files, size, i);
      assert pool[i] == sum % 256;
      ModSum(sum, text[i]);
      if i < length {
        var both: int := text[i] as int + pool[i] as int;
        text[i] := both % 256;
      } else {
        text[i] := pool[i];
      }
      i := i + 1;
    }
  }

  // ----- what the password depends on -----

  /** The byte strings that a keyfile contributes. */
  function EntryMaterial(entries: seq<Entry>): seq<seq<Byte>> {
    if entries == [] then []
    else
      var e := entries[|entries| - 1];
      EntryMaterial(entries[..|entries| - 1]) + (if e.Plain? then [FileData(e.file)] else [])
  }

  function KeyMaterial(kf: KeyFile): seq<seq<Byte>> {
    match kf
    case Token(data) => [Used(data)]
    case Directory(entries) => EntryMaterial(entries)
    case Single(file) => [FileData(file)]
    case _ => []
  }

  function Material(files: seq<KeyFile>): seq<seq<Byte>> {
    if files == [] then [] else Material(files[..|files| - 1]) + KeyMaterial(files[|files| - 1])
  }

  /** What each kind of keyfile contributes. */
  lemma Contributed(files: seq<KeyFile>, kf: KeyFile, data: seq<Byte>, blocks: seq<Chunk>, broken: bool, entries: seq<Entry>, e: Entry)
    ensures Material([]) == [] && Material(files + [kf]) == Material(files) + KeyMaterial(kf)
    ensures KeyMaterial(Token(data)) == [if |data| > 1048576 then data[..1048576] else data]
    ensures KeyMaterial(Single(Opened(blocks, broken))) == KeyMaterial(Token(Flat(blocks)))
    ensures KeyMaterial(Directory([])) == KeyMaterial(TokenError) == KeyMaterial(Missing) == KeyMaterial(Unlisted) == []
    ensures KeyMaterial(Directory(entries + [e])) ==
            KeyMaterial(Directory(entries)) + if e.Plain? then KeyMaterial(Single(e.file)) else []
  {
    assert (files + [kf])[..|files|] == files && (entries + [e])[..|entries|] == entries;
  }

  function Total(C: Checksum, strings: seq<seq<Byte>>, size: nat, p: nat): nat {
    if strings == [] then 0
    else Total(C, strings[..|strings| - 1], size, p) + Added(C, strings[|strings| - 1], size, p)
  }

  lemma {:induction false} TotalConcat(C: Checksum, s: seq<seq<Byte>>, t: seq<seq<Byte>>, size: nat, p: nat)
    ensures Total(C, s + t, size, p) == Total(C, s, size, p) + Total(C, t, size, p)
    decreases |t|
  {
    if t == [] {
      assert s + t == s;
    } else {
      TotalConcat(C, s, t[..|t| - 1], size, p);
      assert (s + t)[..|s + t| - 1] == s + t[..|t| - 1];
    }
  }

  lemma TotalOne(C: Checksum, x: seq<Byte>, size: nat, p: nat)
    ensures Total(C, [x], size, p) == Added(C, x, size, p)
  {
    assert [x][..0] == [];
  }

  lemma {:induction false} EntriesTotal(C: Checksum, entries: seq<Entry>, size: nat, p: nat)
    ensures EntriesAdd(C, entries, size, p) == Total(C, EntryMaterial(entries), size, p)
    decreases |entries|
  {
    if entries != [] {
      var rest, e := entries[..|entries| - 1], entries[|entries| - 1];
      EntriesTotal(C, rest, size, p);
      if e.Plain? {
        TotalConcat(C, EntryMaterial(rest), [FileData(e.file)], size, p);
        TotalOne(C, FileData(e.file), size, p);
      } else {
        assert EntryMaterial(rest) + [] == EntryMaterial(rest);
      }
    }
  }

  lemma KeyTotal(C: Checksum, kf: KeyFile, size: nat, p: nat)
    ensures KeyAdds(C, kf, size, p) == Total(C, KeyMaterial(kf), size, p)
  {
    match kf
    case Token(data) => TotalOne(C, Used(data), size, p);
    case Directory(entries) => EntriesTotal(C, entries, size, p);
    case Single(file) => TotalOne(C, FileData(file), size, p);
    case _ =>
  }

  lemma {:induction false} AllTotal(C: Checksum, files: seq<KeyFile>, size: nat, p: nat)
    ensures AllAdd(C, files, size, p) == Total(C, Material(files), size, p)
    decreases |files|
  {
    if files != [] {
      var rest, kf := files[..|files| - 1], files[|files| - 1];
      AllTotal(C, rest, size, p);
      KeyTotal(C, kf, size, p);
      TotalConcat(C, Material(rest), KeyMaterial(kf), size, p);
    }
  }

  /** Taking out one string. */
  lemma TotalWithout(C: Checksum, s: seq<seq<Byte>>, j: nat, size: nat, p: nat)
    requires j < |s|
    ensures Total(C, s, size, p) == Total(C, s[..j] + s[j + 1..], size, p) + Added(C, s[j], size, p)
  {
    assert s == s[..j] + [s[j]] + s[j + 1..];
    TotalConcat(C, s[..j] + [s[j]], s[j + 1..], size, p);
    TotalConcat(C, s[..j], [s[j]], size, p);
    TotalConcat(C, s[..j], s[j + 1..], size, p);
    TotalOne(C, s[j], size, p);
  }

  /** The last of a list has a place in every permutation of it. */
  lemma Without<T>(s: seq<T>, t: seq<T>) returns (j: nat)
    requires s != [] && multiset(s) == multiset(t)
    ensures j < |t| && t[j] == s[|s| - 1]
    ensures multiset(s[..|s| - 1]) == multiset(t[..j] + t[j + 1..])
  {
    var x := s[|s| - 1];
    assert x in multiset(t) by { assert x in multiset(s); }
    j :| 0 <= j < |t| && t[j] == x;
    TakenOut(s, |s| - 1);
    TakenOut(t, j);
    assert s[..|s| - 1] + s[|s|..] == s[..|s| - 1];
  }

  lemma TakenOut<T>(t: seq<T>, j: nat)
    requires j < |t|
    ensures multiset(t[..j] + t[j + 1..]) == multiset(t) - multiset{t[j]}
  {
    assert t == t[..j] + [t[j]] + t[j + 1..];
    assert multiset(t) == multiset(t[..j]) + multiset{t[j]} + multiset(t[j + 1..]);
  }

  lemma {:induction false} TotalPermuted(C: Checksum, s: seq<seq<Byte>>, t: seq<seq<Byte>>, size: nat, p: nat)
    requires multiset(s) == multiset(t)
    ensures Total(C, s, size, p) == Total(C, t, size, p)
    decreases |s|
  {
    if s == [] {
      assert |multiset(t)| == 0;
    } else {
      var rest, x := s[..|s| - 1], s[|s| - 1];
      assert s == rest + [x];
      var j := Without(s, t);
      TotalPermuted(C, rest, t[..j] + t[j + 1..], size, p);
      TotalWithout(C, t, j, size, p);
    }
  }

  /** The password depends only on which byte strings are mixed in, in any order: not
      on how they are read, or whether from a file, a directory or a token. */
  lemma PasswordFromMaterial(C: Checksum, files: seq<KeyFile>, files': seq<KeyFile>, text: seq<Byte>, length: nat)
    requires Applies(files) && Applies(files') && multiset(Material(files)) == multiset(Material(files'))
    ensures forall i :: 0 <= i < |text| ==> NewByte(C, files, text, length, i) == NewByte(C, files', text, length, i)
    ensures NewLength(files, length) == NewLength(files', length)
  {
    forall i | 0 <= i < |text| ensures NewByte(C, files, text, length, i) == NewByte(C, files', text, length, i) {
      SameByte(C, files, files', text, length, i);
    }
  }

  lemma SameByte(C: Checksum, files: seq<KeyFile>, files': seq<KeyFile>, text: seq<Byte>, length: nat, i: nat)
    requires Applies(files) && Applies(files') && multiset(Material(files)) == multiset(Material(files')) && i < |text|
    ensures NewByte(C, files, text, length, i) == NewByte(C, files', text, length, i)
  {
    hide AllAdd, Material;
    SameSum(C, files, files', PoolSize(length), i);
  }

  lemma SameSum(C: Checksum, files: seq<KeyFile>, files': seq<KeyFile>, size: nat, i: nat)
    requires multiset(Material(files)) == multiset(Material(files'))
    ensures AllAdd(C, files, size, i) == AllAdd(C, files', size, i)
  {
    AllTotal(C, files, size, i);
    AllTotal(C, files', size, i);
    TotalPermuted(C, Material(files), Material(files'), size, i);
  }

  /** The blocks in which a file is read do not matter, a token is like a file with the
      same bytes, and bytes after the first 1048576 are not used. */
  lemma SameMaterial(blocks: seq<Chunk>, broken: bool, data: seq<Byte>)
    requires Used(Flat(blocks)) == Used(data)
    ensures KeyMaterial(Single(Opened(blocks, broken))) == KeyMaterial(Token(data))
    ensures KeyGood(Single(Opened(blocks, false))) == KeyGood(Token(data))
  {
  }

  lemma {:induction false} MaterialConcat(s: seq<KeyFile>, t: seq<KeyFile>)
    ensures Material(s + t) == Material(s) + Material(t)
    decreases |t|
  {
    if t == [] {
      assert s + t == s;
    } else {
      MaterialConcat(s, t[..|t| - 1]);
      MaterialMore(s, t[..|t| - 1], t[|t| - 1], t);
    }
  }

  lemma MaterialMore(s: seq<KeyFile>, u: seq<KeyFile>, x: KeyFile, t: seq<KeyFile>)
    requires Material(s + u) == Material(s) + Material(u) && t == u + [x]
    ensures Material(s + t) == Material(s) + Material(t)
  {
    hide Material, KeyMaterial;
    assert s + t == s + u + [x];
    MaterialLast(s + u, x, s + t);
    MaterialLast(u, x, t);
    Associate(Material(s), Material(u), KeyMaterial(x));
  }

  lemma Associate<T>(a: seq<T>, b: seq<T>, c: seq<T>)
    ensures a + b + c == a + (b + c)
  {
  }

  lemma MaterialLast(s: seq<KeyFile>, x: KeyFile, t: seq<KeyFile>)
    requires t == s + [x]
    ensures Material(t) == Material(s) + KeyMaterial(x)
  {
    hide KeyMaterial;
    assert t[..|t| - 1] == s;
  }

  lemma MaterialOne(kf: KeyFile)
    ensures Material([kf]) == KeyMaterial(kf)
  {
    assert [kf][..0] == [];
  }

  lemma MaterialWithout(u: seq<KeyFile>, x: KeyFile, v: seq<KeyFile>)
    ensures multiset(Material(u + [x] + v)) == multiset(Material(u + v)) + multiset(KeyMaterial(x))
  {
    MaterialConcat(u, v);
    MaterialSplit(u, x, v);
    MiddleOut(Material(u), KeyMaterial(x), Material(v));
  }

  lemma MaterialSplit(u: seq<KeyFile>, x: KeyFile, v: seq<KeyFile>)
    ensures Material(u + [x] + v) == Material(u) + KeyMaterial(x) + Material(v)
  {
    MaterialConcat(u + [x], v);
    MaterialConcat(u, [x]);
    MaterialOne(x);
  }

  lemma MiddleOut<T>(a: seq<T>, b: seq<T>, c: seq<T>)
    ensures multiset(a + b + c) == multiset(a + c) + multiset(b)
  {
  }

  lemma {:induction false} MaterialPermuted(s: seq<KeyFile>, t: seq<KeyFile>)
    requires multiset(s) == multiset(t)
    ensures multiset(Material(s)) == multiset(Material(t))
    decreases |s|
  {
    hide Material, KeyMaterial;
    if s == [] {
      assert |multiset(t)| == 0;
    } else {
      var j := Without(s, t);
      var rest, u, v := s[..|s| - 1], t[..j], t[j + 1..];
      assert s == rest + [t[j]] && t == u + [t[j]] + v;
      MaterialPermuted(rest, u + v);
      MaterialMoved(rest, u, t[j], v, s, t);
    }
  }

  lemma MaterialMoved(rest: seq<KeyFile>, u: seq<KeyFile>, x: KeyFile, v: seq<KeyFile>, s: seq<KeyFile>, t: seq<KeyFile>)
    requires s == rest + [x] && t == u + [x] + v && multiset(Material(rest)) == multiset(Material(u + v))
    ensures multiset(Material(s)) == multiset(Material(t))
  {
    hide Material, KeyMaterial;
    MaterialWithout(u, x, v);
    MaterialLast(rest, x, s);
  }

  /** Reordering the keyfiles changes nothing. */
  lemma OrderIrrelevant(C: Checksum, files: seq<KeyFile>, files': seq<KeyFile>, text: seq<Byte>, length: nat)
    requires multiset(files) == multiset(files')
    ensures forall i :: 0 <= i < |text| ==> NewByte(C, files, text, length, i) == NewByte(C, files', text, length, i)
    ensures NewLength(files, length) == NewLength(files', length) && Status(files) == Status(files')
  {
    SameMembers(files, files');
    if Applies(files) {
      MaterialPermuted(files, files');
      PasswordFromMaterial(C, files, files', text, length);
    }
  }

  lemma SameMembers(files: seq<KeyFile>, files': seq<KeyFile>)
    requires multiset(files) == multiset(files')
    ensures Applies(files) == Applies(files') && Status(files) == Status(files')
  {
    assert |files| == |multiset(files)| == |files'|;
    assert forall kf :: kf in files <==> kf in multiset(files);
    assert forall kf :: kf in files' <==> kf in multiset(files');
  }
}
