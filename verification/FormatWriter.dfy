/** The buffered writer of Format.c and the sequence of sectors that FormatFat writes
    through it. Sectors consist of data units; `k` is their number. */
module FormatWriter {
  import opened Division
  import opened Fat

  /** The contents of a data unit, and the keys that units are encrypted under. */
  type Unit(==, 0, !new)
  type Key(==, !new)

  /** A sector as it was handed to the writer. */
  datatype Sector = Sector(key: Key, units: seq<Unit>)

  /** Encryption of a unit under its number. */
  type Cipher = (Key, nat, Unit) -> Unit

  function EncryptUnits(enc: Cipher, key: Key, no: nat, units: seq<Unit>): seq<Unit> {
    seq(|units|, i requires 0 <= i < |units| => enc(key, no + i, units[i]))
  }

  /** What the device should receive: each sector under the numbers of its own units;
      the first unit of the first sector has the number `no`. */
  function Image(enc: Cipher, no: nat, ss: seq<Sector>): seq<Unit>
    decreases |ss|
  {
    if ss == [] then []
    else EncryptUnits(enc, ss[0].key, no, ss[0].units) + Image(enc, no + |ss[0].units|, ss[1..])
  }

  function Flat(ss: seq<seq<Unit>>): seq<Unit> {
    if ss == [] then [] else ss[0] + Flat(ss[1..])
  }

  function Tagged(key: Key, ss: seq<seq<Unit>>): (r: seq<Sector>)
    ensures |r| == |ss|
  {
    seq(|ss|, i requires 0 <= i < |ss| => Sector(key, ss[i]))
  }

  lemma {:induction false} FlatAppend(a: seq<seq<Unit>>, s: seq<Unit>)
    ensures Flat(a + [s]) == Flat(a) + s
  {
    if a == [] {
      assert [] + [s] == [s] && [s][1..] == [];
    } else {
      assert (a + [s])[1..] == a[1..] + [s];
      FlatAppend(a[1..], s);
    }
  }

  lemma {:induction false} ImageConcat(enc: Cipher, no: nat, a: seq<Sector>, b: seq<Sector>)
    ensures Image(enc, no, a + b) == Image(enc, no, a) + Image(enc, no + Units(a), b)
    decreases |a|
  {
    if a == [] {
      assert a + b == b;
    } else {
      assert (a + b)[1..] == a[1..] + b;
      ImageConcat(enc, no + |a[0].units|, a[1..], b);
    }
  }

  function Units(ss: seq<Sector>): nat {
    if ss == [] then 0 else |ss[0].units| + Units(ss[1..])
  }

  lemma EncryptConcat(enc: Cipher, key: Key, no: nat, a: seq<Unit>, b: seq<Unit>)
    ensures EncryptUnits(enc, key, no, a + b) == EncryptUnits(enc, key, no, a) + EncryptUnits(enc, key, no + |a|, b)
  {
  }

  /** Encrypting a whole buffer encrypts each sector of it. */
  lemma {:induction false} ImageOfBuffer(enc: Cipher, no: nat, key: Key, ss: seq<seq<Unit>>)
    ensures EncryptUnits(enc, key, no, Flat(ss)) == Image(enc, no, Tagged(key, ss))
    ensures Units(Tagged(key, ss)) == |Flat(ss)|
    decreases |ss|
  {
    if ss != [] {
      hide EncryptUnits, Tagged;
      EncryptConcat(enc, key, no, ss[0], Flat(ss[1..]));
      ImageOfBuffer(enc, no + |ss[0]|, key, ss[1..]);
      TaggedRest(key, ss);
    }
  }

  lemma TaggedRest(key: Key, ss: seq<seq<Unit>>)
    requires ss != []
    ensures Tagged(key, ss)[0] == Sector(key, ss[0]) && Tagged(key, ss)[1..] == Tagged(key, ss[1..])
  {
  }

  lemma {:induction false} ImageSize(enc: Cipher, no: nat, ss: seq<Sector>, k: nat)
    requires forall x :: 0 <= x < |ss| ==> |ss[x].units| == k
    ensures |Image(enc, no, ss)| == |ss| * k
    decreases |ss|
  {
    if ss != [] {
      ImageSize(enc, no + k, ss[1..], k);
      assert |ss| * k == (|ss| - 1) * k + k;
    }
  }

  /** Each unit is encrypted under the key of its sector and its own number, which is the
      number of the first unit and its place. */
  lemma {:induction false} ImageAt(enc: Cipher, no: nat, ss: seq<Sector>, k: nat, i: nat, u: nat)
    requires (forall x :: 0 <= x < |ss| ==> |ss[x].units| == k) && i < |ss| && u < k
    ensures i * k + u < |Image(enc, no, ss)| == |ss| * k
    ensures Image(enc, no, ss)[i * k + u] == enc(ss[i].key, no + i * k + u, ss[i].units[u])
    decreases |ss|
  {
    hide Image, EncryptUnits;
    ImageSize(enc, no, ss, k);
    Places(i, |ss|, k, u);
    if i == 0 {
      ImageFirst(enc, no, ss, k, u);
    } else {
      ImageAt(enc, no + k, ss[1..], k, i - 1, u);
      ImageStep(enc, no, ss, k, i * k + u);
    }
  }

  lemma Places(i: nat, n: nat, k: nat, u: nat)
    requires i < n && u < k
    ensures i * k + u < n * k && i * k == (if i == 0 then 0 else (i - 1) * k + k)
  {
    MulMonotone(i + 1, n, k);
    assert (i + 1) * k == i * k + k;
  }

  lemma ImageFirst(enc: Cipher, no: nat, ss: seq<Sector>, k: nat, u: nat)
    requires ss != [] && |ss[0].units| == k && u < k
    ensures u < |Image(enc, no, ss)| && Image(enc, no, ss)[u] == enc(ss[0].key, no + u, ss[0].units[u])
  {
  }

  lemma ImageStep(enc: Cipher, no: nat, ss: seq<Sector>, k: nat, x: nat)
    requires ss != [] && |ss[0].units| == k <= x < |Image(enc, no, ss)|
    ensures |Image(enc, no, ss)| == k + |Image(enc, no + k, ss[1..])|
    ensures Image(enc, no, ss)[x] == Image(enc, no + k, ss[1..])[x - k]
  {
  }

  /** The contents of sector `i`, and the key it is written under, in a file system of `n`
      sectors that is followed by filler sectors. */
  lemma SectorAt(c: Contents, bits: nat, reserved: nat, length: nat, root: nat, n: nat, k: nat, volumeKey: Key, temporaryKey: Key, i: nat)
    requires (if bits == 32 then reserved >= 8 else reserved >= 1) && c.Fits(k)
    requires i < |System(c, bits, reserved, length, root)| + n
    ensures |System(c, bits, reserved, length, root)| == reserved + 2 * length + root
    ensures var ss := Tagged(volumeKey, System(c, bits, reserved, length, root)) + Tagged(temporaryKey, Copies(c.zero, n));
            && |ss| == reserved + 2 * length + root + n && |ss[i].units| == k
            && ss[i] == Sector(if i < reserved + 2 * length + root then volumeKey else temporaryKey,
                               if i == 0 || (bits == 32 && i == 6) then c.boot
                               else if bits == 32 && (i == 1 || i == 7) then c.info
                               else if bits == 32 && 2 <= i < 6 then c.trail
                               else if length > 0 && (i == reserved || i == reserved + length) then c.fat
                               else c.zero)
  {
    ReservedAt(c, bits, reserved, i);
    hide Reserved;
  }

  lemma ReservedAt(c: Contents, bits: nat, reserved: nat, i: nat)
    requires if bits == 32 then reserved >= 8 else reserved >= 1
    ensures i < reserved ==>
              Reserved(c, bits, reserved)[i] ==
              if i == 0 || (bits == 32 && i == 6) then c.boot
              else if bits == 32 && (i == 1 || i == 7) then c.info
              else if bits == 32 && 2 <= i < 6 then c.trail
              else c.zero
  {
  }

  /** Unit `j` of a file system or of the filler behind it, as the device should hold it. */
  function UnitOf(enc: Cipher, no: nat, c: Contents, bits: nat, reserved: nat, length: nat, root: nat, k: nat,
                  volumeKey: Key, temporaryKey: Key, j: nat): Unit
    requires k >= 1 && c.Fits(k)
  {
    var i := j / k;
    enc(if i < reserved + 2 * length + root then volumeKey else temporaryKey, no + j,
        (if i == 0 || (bits == 32 && i == 6) then c.boot
         else if bits == 32 && (i == 1 || i == 7) then c.info
         else if bits == 32 && 2 <= i < 6 then c.trail
         else if length > 0 && (i == reserved || i == reserved + length) then c.fat
         else c.zero)[j % k])
  }

  lemma UnitAt(enc: Cipher, no: nat, c: Contents, bits: nat, reserved: nat, length: nat, root: nat, n: nat, k: nat,
               volumeKey: Key, temporaryKey: Key)
    requires (if bits == 32 then reserved >= 8 else reserved >= 1) && c.Fits(k) && k >= 1
    ensures var image := Image(enc, no, Tagged(volumeKey, System(c, bits, reserved, length, root)) + Tagged(temporaryKey, Copies(c.zero, n)));
            && |image| == (reserved + 2 * length + root + n) * k
            && forall j: nat :: j < |image| ==> image[j] == UnitOf(enc, no, c, bits, reserved, length, root, k, volumeKey, temporaryKey, j)
  {
    hide System, Copies, Tagged, Image;
    var ss := Tagged(volumeKey, System(c, bits, reserved, length, root)) + Tagged(temporaryKey, Copies(c.zero, n));
    SystemSize(c, bits, reserved, length, root);
    forall x | 0 <= x < |ss| ensures |ss[x].units| == k {
      SectorAt(c, bits, reserved, length, root, n, k, volumeKey, temporaryKey, x);
    }
    ImageSize(enc, no, ss, k);
    var size := |ss|;
    forall j: nat | j < |Image(enc, no, ss)|
      ensures Image(enc, no, ss)[j] == UnitOf(enc, no, c, bits, reserved, length, root, k, volumeKey, temporaryKey, j)
    {
      if size <= j / k { MulMonotone(size, j / k, k); }
      Floor(j, k);
      SectorAt(c, bits, reserved, length, root, n, k, volumeKey, temporaryKey, j / k);
      ImageAt(enc, no, ss, k, j / k, j % k);
    }
  }

  // ----- the writer -----

  class Writer {
    const enc: Cipher
    const k: nat                     // units in a sector
    const buffer: array<Unit>        // write_buf
    var cnt: nat                     // write_buf_cnt, in units
    var nSecNo: nat
    const start: nat                 // startSector
    var device: seq<Unit>            // what has been written, from the start sector on

    // The sectors flushed, and those in the buffer with the key they are meant for
    ghost var flushed: seq<Sector>
    ghost var pending: seq<seq<Unit>>
    ghost var key: Key
    // What each flush wrote
    ghost var chunks: seq<seq<Unit>>

    constructor (enc: Cipher, k: nat, sectors: nat, start: nat, ghost key: Key, fill: Unit)
      requires k >= 1 && sectors >= 1
      ensures Valid() && flushed == [] && pending == [] && chunks == [] && this.enc == enc && this.k == k && this.start == start && this.key == key
      ensures buffer.Length == sectors * k && fresh(buffer)
    {
      this.enc, this.k, this.start := enc, k, start;
      buffer := new Unit[sectors * k](_ => fill);
      cnt, nSecNo, device := 0, start, [];
      flushed, pending, this.key, chunks := [], [], key, [];
    }

    /** The buffer holds whole sectors, and `nSecNo` counts all sectors. */
    ghost predicate Valid()
      reads this, buffer
    {
      && k >= 1 && cnt <= buffer.Length && (cnt == 0 <==> pending == [])
      && buffer[..cnt] == Flat(pending)
      && (forall i :: 0 <= i < |pending| ==> |pending[i]| == k)
      && nSecNo == start + |flushed| + |pending|
      && nSecNo * k == start * k + Units(flushed) + cnt
      && device == Image(enc, start * k, flushed) == Flat(chunks)
    }

    /** All sectors handed over so far. */
    ghost function Written(): seq<Sector>
      reads this
    {
      flushed + Tagged(key, pending)
    }

    /** EncryptDataUnits on the buffer. */
    method EncryptBuffer(key: Key, no: nat, n: nat)
      requires n <= buffer.Length
      modifies buffer
      ensures buffer[..n] == EncryptUnits(enc, key, no, old(buffer[..n]))
    {
      forall i | 0 <= i < n { buffer[i] := enc(key, no + i, buffer[i]); }
    }

    /** WriteFile, which may fail. */
    method WriteFile(n: nat) returns (ok: bool)
      requires n <= buffer.Length
      modifies `device
      ensures device == if ok then old(device) + buffer[..n] else old(device)
    {
      ok := *;
      if ok { device := device + buffer[..n]; }
    }

    /** FlushFormatWriteBuffer without the writer thread (lines 1539-1578). The sectors in
        the buffer must be meant for the key. */
    method Flush(key: Key) returns (ok: bool)
      requires Valid() && (pending == [] || this.key == key)
      modifies `cnt, `device, `flushed, `pending, `chunks, buffer
      ensures ok ==> Valid() && pending == [] && flushed == old(flushed) + Tagged(key, old(pending))
      ensures ok ==> chunks == old(chunks) + (if old(pending) == [] then []
                                              else [Image(enc, start * k + Units(old(flushed)), Tagged(key, old(pending)))])
    {
      hide Image, Units, EncryptUnits, Tagged, Flat;
      NonePending();
      if cnt == 0 {
        NoneTagged(key);
        assert flushed == flushed + Tagged(key, []) && chunks == chunks + [];
        return true;
      }
      var no := nSecNo * k - cnt;
      EncryptBuffer(key, no, cnt);
      ok := WriteFile(cnt);
      if !ok { return false; }
      FlushImage(key, no);
      ImageOfBuffer(enc, no, key, pending);
      FlatAppend(chunks, buffer[..cnt]);
      chunks := chunks + [buffer[..cnt]];
      flushed := flushed + Tagged(key, pending);
      pending := [];
      cnt := 0;
    }

    lemma NonePending()
      requires Valid()
      ensures (cnt == 0 <==> pending == []) && Flat([]) == []
    {
      WholeSectors(pending, k);
      if pending != [] { MulMonotone(1, |pending|, k); }
    }

    lemma FlushImage(key: Key, no: nat)
      requires no == start * k + Units(flushed)
      ensures Image(enc, start * k, flushed + Tagged(key, pending)) ==
              Image(enc, start * k, flushed) + EncryptUnits(enc, key, no, Flat(pending))
      ensures Units(flushed + Tagged(key, pending)) == Units(flushed) + |Flat(pending)|
    {
      ImageConcat(enc, start * k, flushed, Tagged(key, pending));
      ImageOfBuffer(enc, no, key, pending);
      UnitsConcat(flushed, Tagged(key, pending));
    }

    /** WriteSector (lines 1386-1421). It fails on an error of a flush, or if the caller
        is told to stop. */
    method WriteSector(sector: seq<Unit>, key: Key) returns (ok: bool)
      requires Valid() && |sector| == k && cnt + k <= buffer.Length && buffer.Length % k == 0
      requires pending == [] || this.key == key
      modifies this, buffer
      ensures ok ==> Valid() && cnt + k <= buffer.Length && Written() == old(Written()) + [Sector(key, sector)]
      ensures ok ==> this.key == key
    {
      ghost var before := Written();
      PutSector(sector, key);
      ok := true;
      if cnt == buffer.Length {
        ok := Flush(key);
        if !ok { return; }
        assert flushed + Tagged(key, []) == flushed;
      } else {
        RoomLeft();
      }
      var stop: bool := *;
      ok := !stop;
    }

    /** Copy a sector into the buffer (lines 1392-1395). */
    method PutSector(sector: seq<Unit>, key: Key)
      requires Valid() && |sector| == k && cnt + k <= buffer.Length && (pending == [] || this.key == key)
      modifies `cnt, `nSecNo, `pending, `key, buffer
      ensures Valid() && this.key == key && cnt == old(cnt) + k && pending == old(pending) + [sector]
      ensures Written() == old(Written()) + [Sector(key, sector)]
    {
      assert (nSecNo + 1) * k == nSecNo * k + k;
      nSecNo := nSecNo + 1;
      CopyIn(sector);
      FlatAppend(pending, sector);
      if pending == [] { this.key := key; }
      assert Tagged(key, pending + [sector]) == Tagged(key, pending) + [Sector(key, sector)];
      pending := pending + [sector];
    }

    method CopyIn(sector: seq<Unit>)
      requires cnt + |sector| <= buffer.Length
      modifies `cnt, buffer
      ensures cnt == old(cnt) + |sector| && buffer[..cnt] == old(buffer[..cnt]) + sector
    {
      forall i | 0 <= i < |sector| { buffer[cnt + i] := sector[i]; }
      cnt := cnt + |sector|;
    }

    lemma RoomLeft()
      requires Valid() && buffer.Length % k == 0 && cnt < buffer.Length
      ensures cnt + k <= buffer.Length
    {
      WholeSectors(pending, k);
      Room(|pending|, k, buffer.Length);
    }

    // ----- the sectors of a FAT file system -----

    /** Nothing is left over in the buffer for another sector. */
    ghost predicate Ready(key: Key)
      reads this, buffer
    {
      Valid() && buffer.Length % k == 0 && cnt + k <= buffer.Length && (pending == [] || this.key == key)
    }

    /** The sector `n` times. */
    method WriteMany(sector: seq<Unit>, n: nat, key: Key) returns (ok: bool)
      requires Ready(key) && |sector| == k
      modifies this, buffer
      ensures ok ==> Ready(key) && Written() == old(Written()) + Tagged(key, Copies(sector, n))
    {
      var x := 0;
      ok := true;
      assert Tagged(key, Copies(sector, 0)) == [];
      while x < n
        invariant 0 <= x <= n && Ready(key)
        invariant Written() == old(Written()) + Tagged(key, Copies(sector, x))
      {
        ok := WriteSector(sector, key);
        if !ok { return; }
        MoreCopies(sector, x, key);
        x := x + 1;
      }
    }

    /** The sector until `n` sectors have been written since the start (lines 313-321,
        337-343 of Fat.c). */
    method WriteUntil(sector: seq<Unit>, n: nat, key: Key) returns (ok: bool)
      requires Ready(key) && |sector| == k && |Written()| <= n
      modifies this, buffer
      ensures ok ==> Ready(key) && Written() == old(Written()) + Tagged(key, Copies(sector, n - old(|Written()|)))
    {
      ghost var x := 0;
      ok := true;
      assert Tagged(key, Copies(sector, 0)) == [];
      while nSecNo - start < n
        invariant |Written()| <= n && Ready(key) && x == |Written()| - old(|Written()|) >= 0
        invariant Written() == old(Written()) + Tagged(key, Copies(sector, x))
        decreases n - |Written()|
      {
        ok := WriteSector(sector, key);
        if !ok { return; }
        MoreCopies(sector, x, key);
        x := x + 1;
      }
    }

    /** Several different sectors. */
    method WriteTwo(first: seq<Unit>, second: seq<Unit>, key: Key) returns (ok: bool)
      requires Ready(key) && |first| == |second| == k
      modifies this, buffer
      ensures ok ==> Ready(key) && Written() == old(Written()) + Tagged(key, [first, second])
    {
      ok := WriteSector(first, key);
      if !ok { return; }
      ok := WriteSector(second, key);
      assert Tagged(key, [first, second]) == [Sector(key, first)] + [Sector(key, second)];
    }

    /** The boot sectors and the rest of the reserved sectors (lines 298-343 of Fat.c). */
    method WriteReserved(c: Contents, bits: nat, reserved: nat, key: Key) returns (ok: bool)
      requires Ready(key) && c.Fits(k) && Written() == [] && (if bits == 32 then reserved >= 8 else reserved >= 1)
      modifies this, buffer
      ensures ok ==> Ready(key) && Written() == Tagged(key, Reserved(c, bits, reserved))
    {
      hide Valid;
      if bits == 32 {
        ok := WriteTwo(c.boot, c.info, key);
        if !ok { return; }
        ok := WriteUntil(c.trail, 6, key);
        if !ok { return; }
        ok := WriteTwo(c.boot, c.info, key);
        if !ok { return; }
        ok := WriteUntil(c.zero, reserved, key);
        ReservedTagged(c, reserved, key);
      } else {
        ok := WriteSector(c.boot, key);
        if !ok { return; }
        ok := WriteUntil(c.zero, reserved, key);
        assert Tagged(key, [c.boot] + Copies(c.zero, reserved - 1)) == [Sector(key, c.boot)] + Tagged(key, Copies(c.zero, reserved - 1));
      }
    }

    /** One file allocation table (lines 348-387 of Fat.c). */
    method WriteTable(c: Contents, length: nat, key: Key) returns (ok: bool)
      requires Ready(key) && c.Fits(k)
      modifies this, buffer
      ensures ok ==> Ready(key) && Written() == old(Written()) + Tagged(key, Table(c, length))
    {
      hide Valid;
      ok := true;
      var n := 0;
      assert Tagged(key, Table(c, 0)) == [];
      while n < length
        invariant 0 <= n <= length && Ready(key) && Written() == old(Written()) + Tagged(key, Table(c, n))
      {
        ok := WriteSector(if n == 0 then c.fat else c.zero, key);
        if !ok { return; }
        MoreTable(c, n, key);
        n := n + 1;
      }
    }

    /** All sectors of the file system (lines 298-399 of Fat.c). */
    method WriteSystem(c: Contents, bits: nat, reserved: nat, length: nat, root: nat, key: Key) returns (ok: bool)
      requires Ready(key) && c.Fits(k) && Written() == [] && (if bits == 32 then reserved >= 8 else reserved >= 1)
      modifies this, buffer
      ensures ok ==> Ready(key) && Written() == Tagged(key, System(c, bits, reserved, length, root))
    {
      ok := WriteReserved(c, bits, reserved, key);
      if !ok { return; }
      ok := WriteTable(c, length, key);
      if !ok { return; }
      ok := WriteTable(c, length, key);
      if !ok { return; }
      ok := WriteMany(c.zero, root, key);
      SystemTagged(c, bits, reserved, length, root, key);
    }

    /** FormatFat (lines 258-567 of Fat.c), full, or quick on a device: the sectors of the
        file system under the volume key, and for a full format filler sectors under the
        temporary key, as many as the volume has left. Their number is a 32-bit one, which
        is counted down to zero: it wraps around if the file system is too large. */
    method FormatFat(ft: FatParams, c: Contents, volumeKey: Key, temporaryKey: Key, quick: bool) returns (ok: bool)
      requires Ready(volumeKey) && c.Fits(k) && Written() == [] && ft.sector_size > 0 && ft.fats == 2
      requires ft.num_sectors < UINT_RANGE && if ft.size_fat == 32 then ft.reserved >= 8 else ft.reserved >= 1
      modifies this, buffer
      ensures ok ==> Valid() && pending == []
      ensures ok ==> flushed == Tagged(volumeKey, System(c, ft.size_fat, ft.reserved, ft.fat_length, ft.size_root_dir / ft.sector_size))
                                + Tagged(temporaryKey, Copies(c.zero, if quick then 0 else Left(ft) % UINT_RANGE))
      ensures ok && !quick ==> (|flushed| == ft.num_sectors <==> Left(ft) >= 0)
      // each unit under its own number and the key of its part
      ensures ok ==> |device| == |flushed| * k && forall j: nat :: j < |device| ==>
                var i := j / k;
                device[j] == enc(if i < ft.reserved + 2 * ft.fat_length + ft.size_root_dir / ft.sector_size then volumeKey else temporaryKey,
                                 start * k + j,
                                 (if i == 0 || (ft.size_fat == 32 && i == 6) then c.boot
                                  else if ft.size_fat == 32 && (i == 1 || i == 7) then c.info
                                  else if ft.size_fat == 32 && 2 <= i < 6 then c.trail
                                  else if ft.fat_length > 0 && (i == ft.reserved || i == ft.reserved + ft.fat_length) then c.fat
                                  else c.zero)[j % k])
      ensures ok && quick ==> |flushed| == ft.reserved + 2 * ft.fat_length + ft.size_root_dir / ft.sector_size
    {
      hide System, Valid, Copies, Tagged;
      var root := ft.size_root_dir / ft.sector_size;
      var n := (ft.num_sectors - ft.reserved - root - ft.fat_length * 2) % UINT_RANGE;
      FillerSize(ft.num_sectors, ft.reserved + 2 * ft.fat_length + root);
      ok := WriteVolume(c, ft.size_fat, ft.reserved, ft.fat_length, root, n, volumeKey, temporaryKey, quick);
      if !ok { return; }
      FormattedSize(c, ft.size_fat, ft.reserved, ft.fat_length, root, if quick then 0 else n, volumeKey, temporaryKey);
      UnitsAt(c, ft.size_fat, ft.reserved, ft.fat_length, root, if quick then 0 else n, volumeKey, temporaryKey);
    }

    /** The file system and, for a full format, `n` filler sectors. */
    method WriteVolume(c: Contents, bits: nat, reserved: nat, length: nat, root: nat, n: nat,
                       volumeKey: Key, temporaryKey: Key, quick: bool)
      returns (ok: bool)
      requires Ready(volumeKey) && c.Fits(k) && Written() == [] && (if bits == 32 then reserved >= 8 else reserved >= 1)
      modifies this, buffer
      ensures ok ==> Valid() && pending == []
      ensures ok ==> flushed == Tagged(volumeKey, System(c, bits, reserved, length, root))
                                + Tagged(temporaryKey, Copies(c.zero, if quick then 0 else n))
    {
      hide System, Valid, Copies;
      ok := WriteSystem(c, bits, reserved, length, root, volumeKey);
      if !ok { return; }
      ok := Flush(volumeKey);
      if !ok { return; }
      NoFiller(c, temporaryKey);
      if !quick { ok := Fill(c, n, temporaryKey); }
    }

    lemma UnitsAt(c: Contents, bits: nat, reserved: nat, length: nat, root: nat, n: nat, volumeKey: Key, temporaryKey: Key)
      requires Valid() && (if bits == 32 then reserved >= 8 else reserved >= 1) && c.Fits(k)
      requires flushed == Tagged(volumeKey, System(c, bits, reserved, length, root)) + Tagged(temporaryKey, Copies(c.zero, n))
      ensures |device| == |flushed| * k
      ensures forall j: nat :: j < |device| ==>
                device[j] == UnitOf(enc, start * k, c, bits, reserved, length, root, k, volumeKey, temporaryKey, j)
    {
      hide Image, System, Copies, Tagged, UnitOf;
      SystemSize(c, bits, reserved, length, root);
      UnitAt(enc, start * k, c, bits, reserved, length, root, n, k, volumeKey, temporaryKey);
    }

    /** The FAT case of TCFormatVolume (lines 602-629 of Format.c), with the parameters that
        GetFatParams gives. A full format writes all sectors of the volume and no more,
        unless the volume has room for just one sector besides the reserved ones and the
        root directory; then it goes on to write 2^32 - 1 filler sectors. */
    method FormatVolume(ft: FatParams, c: Contents, volumeKey: Key, temporaryKey: Key, quick: bool) returns (ok: bool)
      requires Ready(volumeKey) && c.Fits(k) && Written() == []
      requires 512 <= ft.sector_size <= MAX_SECTOR && 2 + RootSectors(ft.sector_size, 12) <= ft.num_sectors < UINT_RANGE
      modifies this, buffer, ft
      ensures ft.num_sectors == old(ft.num_sectors) && ft.sector_size == old(ft.sector_size)
      ensures ft.cluster_size == ClusterSectors(ft.num_sectors * ft.sector_size, ft.sector_size, old(ft.cluster_size)) >= 1
      ensures ok ==> Valid() && pending == []
      ensures ok ==>
                var n, s, ss := ft.num_sectors, ft.cluster_size, ft.sector_size;
                && Layable(n, s, ss) && (Kind(n, s, ss) == 32 ==> Reserve(n, s, ss) >= 32) && Reserve(n, s, ss) >= 1
                && flushed == Tagged(volumeKey, System(c, Kind(n, s, ss), Reserve(n, s, ss), TableLength(n, s, ss), RootWritten(n, s, ss)))
                              + Tagged(temporaryKey, Copies(c.zero, if quick then 0 else Remainder(n, s, ss) % UINT_RANGE))
      // each unit under its own number and the key of its part
      ensures ok ==> |device| == |flushed| * k && forall j: nat :: j < |device| ==>
                var i := j / k;
                device[j] == enc(if i < ft.reserved + 2 * ft.fat_length + ft.size_root_dir / ft.sector_size then volumeKey else temporaryKey,
                                 start * k + j,
                                 (if i == 0 || (ft.size_fat == 32 && i == 6) then c.boot
                                  else if ft.size_fat == 32 && (i == 1 || i == 7) then c.info
                                  else if ft.size_fat == 32 && 2 <= i < 6 then c.trail
                                  else if ft.fat_length > 0 && (i == ft.reserved || i == ft.reserved + ft.fat_length) then c.fat
                                  else c.zero)[j % k])
      ensures var n, ss := ft.num_sectors, ft.sector_size;
              ok && !quick ==> if 16384 % ss == 0 && n == 16384 / ss + 3 then |flushed| == n + UINT_RANGE else |flushed| == n
    {
      ft.GetParams();
      RootIs(ft);
      RemainderSign(ft.num_sectors, ft.cluster_size, ft.sector_size);
      SmallVolume(ft.num_sectors, ft.sector_size, old(ft.cluster_size));
      ok := FormatFat(ft, c, volumeKey, temporaryKey, quick);
    }

    /** The rest of the volume (lines 456-479 of Fat.c). */
    method Fill(c: Contents, n: nat, key: Key) returns (ok: bool)
      requires Valid() && pending == [] && buffer.Length % k == 0 && buffer.Length >= k && c.Fits(k)
      modifies this, buffer
      ensures ok ==> Valid() && pending == [] && flushed == old(flushed) + Tagged(key, Copies(c.zero, n))
    {
      ok := WriteMany(c.zero, n, key);
      if !ok { return; }
      ok := Flush(key);
    }
  }

  /** Numbers of sectors have 32 bits. */
  const UINT_RANGE: nat := 0x1_0000_0000

  /** The sectors that the file system leaves of the volume (line 456 of Fat.c). */
  function Left(ft: FatParams): int
    requires ft.sector_size > 0
    reads ft
  {
    ft.num_sectors - ft.reserved - ft.size_root_dir / ft.sector_size - ft.fat_length * 2
  }

  lemma RootIs(ft: FatParams)
    requires ft.Placed()
    requires ft.size_root_dir == if ft.size_fat == 32 then ft.cluster_size * ft.sector_size else 16384
    ensures ft.size_root_dir / ft.sector_size == RootWritten(ft.num_sectors, ft.cluster_size, ft.sector_size)
    ensures Left(ft) == Remainder(ft.num_sectors, ft.cluster_size, ft.sector_size)
  {
    hide Kind, Reserve, TableLength;
    if ft.size_fat == 32 { Euclid(ft.cluster_size * ft.sector_size, 0, ft.sector_size, ft.cluster_size); }
  }

  lemma SmallVolume(n: nat, ss: nat, given: nat)
    requires 512 <= ss <= MAX_SECTOR
    ensures 16384 % ss == 0 && n == 16384 / ss + 3 ==> ClusterSectors(n * ss, ss, given) == 1
  {
    if 16384 % ss == 0 && n == 16384 / ss + 3 {
      Floor(16384, ss);
      assert n * ss == (16384 / ss) * ss + 3 * ss;
    }
  }

  /** The contents of the sectors that FormatFat writes. */
  datatype Contents = Contents(boot: seq<Unit>, info: seq<Unit>, trail: seq<Unit>, zero: seq<Unit>, fat: seq<Unit>) {
    predicate Fits(k: nat) { |boot| == |info| == |trail| == |zero| == |fat| == k }
  }

  function Copies(s: seq<Unit>, n: nat): (r: seq<seq<Unit>>)
    ensures |r| == n
  {
    seq(n, _ => s)
  }

  /** Boot sector and FSInfo sector with their backups in sectors 6 and 7 for FAT32. */
  function Reserved(c: Contents, bits: nat, reserved: nat): (r: seq<seq<Unit>>)
    requires if bits == 32 then reserved >= 8 else reserved >= 1
    ensures |r| == reserved && r[0] == c.boot
    ensures bits == 32 ==> r[1] == r[7] == c.info && r[6] == c.boot
  {
    if bits == 32 then [c.boot, c.info] + Copies(c.trail, 4) + [c.boot, c.info] + Copies(c.zero, reserved - 8)
    else [c.boot] + Copies(c.zero, reserved - 1)
  }

  function Table(c: Contents, length: nat): (r: seq<seq<Unit>>)
    ensures |r| == length
  {
    seq(length, n => if n == 0 then c.fat else c.zero)
  }

  function System(c: Contents, bits: nat, reserved: nat, length: nat, root: nat): seq<seq<Unit>>
    requires if bits == 32 then reserved >= 8 else reserved >= 1
  {
    Reserved(c, bits, reserved) + Table(c, length) + Table(c, length) + Copies(c.zero, root)
  }

  lemma SystemSize(c: Contents, bits: nat, reserved: nat, length: nat, root: nat)
    requires if bits == 32 then reserved >= 8 else reserved >= 1
    ensures |System(c, bits, reserved, length, root)| == reserved + 2 * length + root
  {
  }

  lemma FormattedSize(c: Contents, bits: nat, reserved: nat, length: nat, root: nat, n: nat, volumeKey: Key, temporaryKey: Key)
    requires if bits == 32 then reserved >= 8 else reserved >= 1
    ensures |Tagged(volumeKey, System(c, bits, reserved, length, root)) + Tagged(temporaryKey, Copies(c.zero, n))| ==
            reserved + 2 * length + root + n
  {
    SystemSize(c, bits, reserved, length, root);
  }

  lemma NoFiller(c: Contents, key: Key)
    ensures Tagged(key, Copies(c.zero, 0)) == []
  {
  }

  /** The filler completes the volume exactly if its number does not wrap around. */
  lemma FillerSize(n: nat, used: nat)
    requires n < UINT_RANGE
    ensures used + (n - used) % UINT_RANGE == n <==> n - used >= 0
  {
  }

  lemma NoneTagged(key: Key)
    ensures Tagged(key, []) == []
  {
  }

  lemma TaggedConcat(key: Key, a: seq<seq<Unit>>, b: seq<seq<Unit>>)
    ensures Tagged(key, a + b) == Tagged(key, a) + Tagged(key, b)
  {
  }

  lemma ReservedTagged(c: Contents, reserved: nat, key: Key)
    requires reserved >= 8
    ensures Tagged(key, Reserved(c, 32, reserved)) ==
            Tagged(key, [c.boot, c.info]) + Tagged(key, Copies(c.trail, 4)) + Tagged(key, [c.boot, c.info]) + Tagged(key, Copies(c.zero, reserved - 8))
  {
    var a := [c.boot, c.info] + Copies(c.trail, 4);
    TaggedConcat(key, [c.boot, c.info], Copies(c.trail, 4));
    TaggedConcat(key, a, [c.boot, c.info]);
    TaggedConcat(key, a + [c.boot, c.info], Copies(c.zero, reserved - 8));
  }

  lemma SystemTagged(c: Contents, bits: nat, reserved: nat, length: nat, root: nat, key: Key)
    requires if bits == 32 then reserved >= 8 else reserved >= 1
    ensures Tagged(key, System(c, bits, reserved, length, root)) ==
            Tagged(key, Reserved(c, bits, reserved)) + Tagged(key, Table(c, length)) + Tagged(key, Table(c, length)) + Tagged(key, Copies(c.zero, root))
  {
    var a, t := Reserved(c, bits, reserved), Table(c, length);
    TaggedConcat(key, a, t);
    TaggedConcat(key, a + t, t);
    TaggedConcat(key, a + t + t, Copies(c.zero, root));
  }

  lemma MoreCopies(s: seq<Unit>, n: nat, key: Key)
    ensures Tagged(key, Copies(s, n + 1)) == Tagged(key, Copies(s, n)) + [Sector(key, s)]
  {
  }

  lemma MoreTable(c: Contents, n: nat, key: Key)
    ensures Tagged(key, Table(c, n + 1)) == Tagged(key, Table(c, n)) + [Sector(key, if n == 0 then c.fat else c.zero)]
  {
  }

  lemma {:induction false} UnitsConcat(a: seq<Sector>, b: seq<Sector>)
    ensures Units(a + b) == Units(a) + Units(b)
  {
    if a == [] {
      assert a + b == b;
    } else {
      assert (a + b)[1..] == a[1..] + b;
      UnitsConcat(a[1..], b);
    }
  }

  lemma {:induction false} WholeSectors(ss: seq<seq<Unit>>, k: nat)
    requires forall i :: 0 <= i < |ss| ==> |ss[i]| == k
    ensures |Flat(ss)| == |ss| * k
  {
    if ss != [] { WholeSectors(ss[1..], k); }
  }

  lemma Room(n: nat, k: nat, length: nat)
    requires k >= 1 && length % k == 0 && n * k < length
    ensures n * k + k <= length
  {
    var q := length / k;
    Floor(length, k);
    if q > 0 {
      MulCancel(n, q - 1, k);
      MulMonotone(n + 1, q, k);
      assert (n + 1) * k == n * k + k;
    }
  }
}
