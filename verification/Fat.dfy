/** The layout of a FAT file system, from Fat.c. Integers are unbounded. */
module Fat {
  import opened Division

  const KB: nat := 1024
  const MB: nat := 1048576
  const GB: nat := 1073741824
  const TB: nat := 1099511627776
  const MAX_CLUSTER: nat := 262144        // TC_MAX_FAT_CLUSTER_SIZE
  const MAX_SECTOR: nat := 4096           // TC_MAX_VOLUME_SECTOR_SIZE
  const LEGACY_SECTOR: nat := 512         // TC_SECTOR_SIZE_LEGACY

  // ----- what the layout should be -----

  /** Sectors of the root directory, which FAT32 keeps in its clusters. */
  function RootSectors(ss: nat, bits: nat): nat
    requires ss > 0
  {
    if bits == 32 then 0 else (16384 + ss - 1) / ss
  }

  /** The clusters that fit in what the reserved sectors and the root directory leave. */
  function Clusters(n: nat, s: nat, ss: nat, bits: nat, reserved: nat): nat
    requires s > 0 && ss > 0 && reserved + RootSectors(ss, bits) <= n
  {
    (n - reserved - RootSectors(ss, bits)) / s
  }

  /** The bytes of a file allocation table with `cc` entries of `bits` bits. */
  function FatBytes(cc: nat, bits: nat): nat { if bits == 12 then (cc * 3 + 1) / 2 else cc * bits / 8 }

  function FatSectors(cc: nat, ss: nat, bits: nat): nat
    requires ss > 0
  {
    (FatBytes(cc, bits) + ss - 1) / ss
  }

  /** Rounding up. */
  lemma Ceiling(x: nat, q: nat)
    requires q > 0
    ensures var c := (x + q - 1) / q; c * q >= x && c * q < x + q
  {
    var c, r := (x + q - 1) / q, (x + q - 1) % q;
    assert x + q - 1 == q * c + r;
    assert c * q == q * c;
  }

  lemma FatBits(cc: nat, bits: nat)
    requires bits == 12 || bits == 16 || bits == 32
    ensures FatBytes(cc, bits) * 8 >= cc * bits
  {
  }

  /** A table holds all its entries. */
  lemma FatHolds(cc: nat, ss: nat, bits: nat)
    requires ss > 0 && (bits == 12 || bits == 16 || bits == 32)
    ensures FatSectors(cc, ss, bits) * ss * 8 >= cc * bits
  {
    hide FatBytes;
    FatBits(cc, bits);
    Ceiling(FatBytes(cc, bits), ss);
  }

  // ----- the alignment loop of FAT32 -----

  /** The data area is aligned (lines 119-120). */
  predicate Aligned(n: nat, s: nat, r: nat)
    requires s > 0 && r <= n
  {
    (r * 512 + FatSectors(Clusters(n, s, 512, 32, r), 512, 32) * 2 * 512) % MAX_SECTOR == 0
  }

  lemma AlignedEighths(n: nat, s: nat, r: nat)
    requires s > 0 && r <= n
    ensures Aligned(n, s, r) <==> (r + 2 * FatSectors(Clusters(n, s, 512, 32, r), 512, 32)) % 8 == 0
  {
    var x := r + 2 * FatSectors(Clusters(n, s, 512, 32, r), 512, 32);
    assert x * 512 % 4096 == x % 8 * 512 by {
      assert x == 8 * (x / 8) + x % 8;
      Euclid(x * 512, x % 8 * 512, 4096, x / 8);
    }
  }

  /** More reserved sectors leave fewer clusters, but at most one fewer each. */
  lemma ClustersDrop(n: nat, s: nat, r: nat, d: nat)
    requires s > 0 && r + d <= n
    ensures Clusters(n, s, 512, 32, r + d) <= Clusters(n, s, 512, 32, r) <= Clusters(n, s, 512, 32, r + d) + d
  {
    DivMonotone(n - (r + d), n - r, s);
    DivDrop(n - r, d, s);
  }

  lemma FatDrop(cc: nat, d: nat)
    requires d <= cc && d <= 128
    ensures FatSectors(cc - d, 512, 32) <= FatSectors(cc, 512, 32) <= FatSectors(cc - d, 512, 32) + 1
  {
  }

  /** The count of reserved sectors that aligns a table of `f` sectors, or two more if the
      table is one sector shorter. */
  lemma Residue(f: nat) returns (r: nat)
    ensures 32 <= r <= 39 && (r + 2 * f) % 8 == 0 && (f >= 1 ==> (r + 2 + 2 * (f - 1)) % 8 == 0)
  {
    var h := f % 4;
    assert 2 * f == 8 * (f / 4) + 2 * h;
    r := if h == 0 then 32 else 40 - 2 * h;
    Euclid(r + 2 * f, 0, 8, (r + 2 * f) / 8);
  }

  /** Within ten reserved sectors the table gets shorter by one sector at most, so one of
      ten counts from 32 on gives an aligned data area. */
  lemma AlignedSoon(n: nat, s: nat) returns (r: nat)
    requires s > 0 && n >= 41
    ensures 32 <= r <= 41 && Aligned(n, s, r)
  {
    var f := FatSectors(Clusters(n, s, 512, 32, 32), 512, 32);
    r := Residue(f);
    Length(n, s, r);
    AlignedEighths(n, s, r);
    if FatSectors(Clusters(n, s, 512, 32, r), 512, 32) != f {
      Length(n, s, r + 2);
      Shorter(n, s, r);
      r := r + 2;
      AlignedEighths(n, s, r);
    }
  }

  /** The length of the table with `r` reserved sectors. */
  lemma Length(n: nat, s: nat, r: nat)
    requires s > 0 && n >= 41 && 32 <= r <= 41
    ensures var f := FatSectors(Clusters(n, s, 512, 32, 32), 512, 32);
            f - 1 <= FatSectors(Clusters(n, s, 512, 32, r), 512, 32) <= f
  {
    var c := Clusters(n, s, 512, 32, 32);
    ClustersDrop(n, s, 32, r - 32);
    FatDrop(c, c - Clusters(n, s, 512, 32, r));
  }

  /** It does not grow with the number of reserved sectors. */
  lemma Shorter(n: nat, s: nat, r: nat)
    requires s > 0 && n >= 41 && 32 <= r <= 39
    ensures FatSectors(Clusters(n, s, 512, 32, r + 2), 512, 32) <= FatSectors(Clusters(n, s, 512, 32, r), 512, 32)
  {
    var c := Clusters(n, s, 512, 32, r);
    ClustersDrop(n, s, r, 2);
    FatDrop(c, c - Clusters(n, s, 512, 32, r + 2));
  }

  // ----- the program -----

  /** Volume sizes from which on, and the default cluster sizes with which, a volume is
      formatted. */
  const DEFAULTS: seq<(nat, nat)> :=
    [(2 * TB, 256 * KB), (512 * GB, 128 * KB), (128 * GB, 64 * KB), (64 * GB, 32 * KB), (32 * GB, 16 * KB),
     (16 * GB, 8 * KB), (512 * MB, 4 * KB), (256 * MB, 2 * KB), (1 * MB, 1 * KB), (0, 512)]

  /** The entry of the table for a volume, from entry `i` on. */
  function DefaultSize(volumeSize: nat, i: nat): (c: nat)
    requires i < 10
    ensures 512 <= c <= MAX_CLUSTER
    decreases 10 - i
  {
    if volumeSize >= DEFAULTS[i].0 then DEFAULTS[i].1 else DefaultSize(volumeSize, i + 1)
  }

  /** Larger volumes do not get smaller clusters. */
  lemma {:induction false} DefaultGrows(v: nat, w: nat, i: nat)
    requires v <= w && i < 10
    ensures DefaultSize(v, i) <= DefaultSize(w, i)
    decreases 10 - i
  {
    if w < DEFAULTS[i].0 {
      DefaultGrows(v, w, i + 1);
    } else if v < DEFAULTS[i].0 {
      DefaultFalls(v, i + 1);
    }
  }

  lemma {:induction false} DefaultFalls(v: nat, i: nat)
    requires 1 <= i < 10
    ensures DefaultSize(v, i) < DEFAULTS[i - 1].1
    decreases 10 - i
  {
    if v < DEFAULTS[i].0 { DefaultFalls(v, i + 1); }
  }

  /** A volume of less than two terabytes gets fewer than 2^24 clusters. */
  lemma {:induction false} DefaultFew(v: nat, i: nat)
    requires i < 10 && v < if i == 0 then 2 * TB else DEFAULTS[i - 1].0
    ensures v < DefaultSize(v, i) * 0x100_0000
    decreases 10 - i
  {
    if v < DEFAULTS[i].0 { DefaultFew(v, i + 1); }
  }

  /** The default cluster size in sectors. */
  function DefaultSectors(clusterSize: nat, ss: nat): nat
    requires ss > 0
  {
    Capped(clusterSize / ss)
  }

  function Capped(c: int): (r: nat)
    ensures 1 <= r <= 128
  {
    if c <= 0 then 1 else if c > 128 then 128 else c
  }

  lemma DefaultFits(clusterSize: nat, ss: nat)
    requires 512 <= ss <= MAX_SECTOR && clusterSize <= MAX_CLUSTER
    ensures 1 <= DefaultSectors(clusterSize, ss) <= 128 && DefaultSectors(clusterSize, ss) * ss <= MAX_CLUSTER
  {
    hide Capped;
    Floor(clusterSize, ss);
    CappedFits(clusterSize, ss, clusterSize / ss, Capped(clusterSize / ss));
  }

  lemma CappedFits(x: nat, ss: nat, c: int, r: nat)
    requires ss <= MAX_SECTOR && c * ss <= x <= MAX_CLUSTER && r == Capped(c)
    ensures r * ss <= MAX_CLUSTER
  {
    if c > 128 { MulMonotone(128, c, ss); }
  }

  /** The cluster size in sectors, for a given one or, if that is zero, the default. */
  function ClusterSectors(volumeSize: nat, ss: nat, given: nat): nat
    requires 512 <= ss <= MAX_SECTOR
  {
    if volumeSize <= MAX_CLUSTER * 4 then 1
    else if given != 0 then given
    else DefaultSectors(DefaultSize(volumeSize, 0), ss)
  }

  /** The clusters of all volumes, in numbers. */
  lemma ChosenIs(v: nat, ss: nat, given: nat)
    requires 512 <= ss <= MAX_SECTOR
    ensures v <= 1048576 ==> ClusterSectors(v, ss, given) == 1
    ensures v > 1048576 && given != 0 ==> ClusterSectors(v, ss, given) == given
    ensures v > 1048576 && given == 0 ==>
              var c := (if v >= 2199023255552 then 262144 else if v >= 549755813888 then 131072
                        else if v >= 137438953472 then 65536 else if v >= 68719476736 then 32768
                        else if v >= 34359738368 then 16384 else if v >= 17179869184 then 8192
                        else if v >= 536870912 then 4096 else if v >= 268435456 then 2048 else 1024) / ss;
              ClusterSectors(v, ss, given) == if c == 0 then 1 else if c > 128 then 128 else c
  {
    hide DefaultSize;
    DefaultIs(v);
    if v > 1048576 && given == 0 { DefaultSectorsIs(DefaultSize(v, 0), ss); }
  }

  lemma DefaultSectorsIs(d: nat, ss: nat)
    requires ss > 0
    ensures DefaultSectors(d, ss) == if d / ss == 0 then 1 else if d / ss > 128 then 128 else d / ss
  {
    Floor(d, ss);
  }

  lemma DefaultIs(v: nat)
    ensures DefaultSize(v, 0) ==
            if v >= 2199023255552 then 262144 else if v >= 549755813888 then 131072
            else if v >= 137438953472 then 65536 else if v >= 68719476736 then 32768
            else if v >= 34359738368 then 16384 else if v >= 17179869184 then 8192
            else if v >= 536870912 then 4096 else if v >= 268435456 then 2048
            else if v >= 1048576 then 1024 else 512
  {
    assert DefaultSize(v, 0) == if v >= 2 * TB then 256 * KB else if v >= 512 * GB then 128 * KB else DefaultSize(v, 2);
    assert DefaultSize(v, 2) == if v >= 128 * GB then 64 * KB else if v >= 64 * GB then 32 * KB else DefaultSize(v, 4);
    assert DefaultSize(v, 4) == if v >= 32 * GB then 16 * KB else if v >= 16 * GB then 8 * KB else DefaultSize(v, 6);
    assert DefaultSize(v, 6) == if v >= 512 * MB then 4 * KB else if v >= 256 * MB then 2 * KB else DefaultSize(v, 8);
  }

  // ----- the layout, as a function of the sectors, the cluster size and the sector size -----

  predicate Layable(n: nat, s: nat, ss: nat) { s > 0 && ss >= 512 && 2 + RootSectors(ss, 12) <= n }

  /** The type goes by the number of clusters that would fit without tables. */
  function Kind(n: nat, s: nat, ss: nat): (bits: nat)
    requires Layable(n, s, ss)
    ensures bits == 12 || bits == 16 || bits == 32
  {
    var c := Clusters(n, s, ss, 12, 2);
    if c < 4085 then 12 else if c < 65525 then 16 else 32
  }

  /** The first aligned count of reserved sectors, from `r` on. */
  function FirstAligned(n: nat, s: nat, r: nat): (q: nat)
    requires s > 0 && r <= n
    ensures r <= q <= n
    decreases n - r
  {
    if r == n || Aligned(n, s, r) then r else FirstAligned(n, s, r + 1)
  }

  lemma {:induction false} FirstIs(n: nat, s: nat, r: nat, q: nat)
    requires s > 0 && r <= q <= n && Aligned(n, s, q) && forall i :: r <= i < q ==> !Aligned(n, s, i)
    ensures FirstAligned(n, s, r) == q
    decreases q - r
  {
    if r < q { FirstIs(n, s, r + 1, q); }
  }

  function Reserve(n: nat, s: nat, ss: nat): (r: nat)
    requires Layable(n, s, ss)
    ensures r + RootSectors(ss, Kind(n, s, ss)) <= n
  {
    if Kind(n, s, ss) != 32 then 2
    else
      QuotientLess(n - 2 - RootSectors(ss, 12), s);
      if ss == LEGACY_SECTOR then FirstAligned(n, s, 32) else 32
  }

  /** The clusters that would fit without tables. */
  function Fitting(n: nat, s: nat, ss: nat): nat
    requires Layable(n, s, ss)
  {
    Clusters(n, s, ss, Kind(n, s, ss), Reserve(n, s, ss))
  }

  /** The sectors of each of both tables. */
  function TableLength(n: nat, s: nat, ss: nat): nat
    requires Layable(n, s, ss)
  {
    FatSectors(Fitting(n, s, ss), ss, Kind(n, s, ss))
  }

  /** The clusters with the tables there. */
  function Count(n: nat, s: nat, ss: nat): int
    requires Layable(n, s, ss)
  {
    Fitting(n, s, ss) - 2 * TableLength(n, s, ss) / s
  }

  /** The layout in numbers: the type by the clusters that would fit, the least reserved
      count from 32 on that puts the data area on 4096 bytes, and tables for all clusters. */
  lemma LayoutIs(n: nat, s: nat, ss: nat)
    requires Layable(n, s, ss)
    ensures var c, bits, reserved, length := (n - 2 - (16384 + ss - 1) / ss) / s, Kind(n, s, ss), Reserve(n, s, ss), TableLength(n, s, ss);
            var cc := if bits == 32 then (n - reserved) / s else c;
            && bits == (if c < 4085 then 12 else if c < 65525 then 16 else 32)
            && length == ((if bits == 12 then (cc * 3 + 1) / 2 else if bits == 16 then cc * 2 else cc * 4) + ss - 1) / ss
            && Count(n, s, ss) == cc - 2 * length / s
            && (bits != 32 ==> reserved == 2)
            && (bits == 32 && ss != 512 ==> reserved == 32)
            && (bits == 32 && ss == 512 ==>
                  && 32 <= reserved <= 41 && (reserved + 2 * length) % 8 == 0
                  && forall r :: 32 <= r < reserved ==> (r + 2 * FatSectors(Clusters(n, s, 512, 32, r), 512, 32)) % 8 != 0)
  {
    hide Kind, Reserve, RootSectors, FatBytes;
    KindIs(n, s, ss);
    if Kind(n, s, ss) == 32 && ss == 512 { ReservedIs(n, s); }
  }

  lemma KindIs(n: nat, s: nat, ss: nat)
    requires Layable(n, s, ss)
    ensures RootSectors(ss, 32) == 0 && RootSectors(ss, 12) == RootSectors(ss, 16) == (16384 + ss - 1) / ss
    ensures var c := (n - 2 - (16384 + ss - 1) / ss) / s; Kind(n, s, ss) == if c < 4085 then 12 else if c < 65525 then 16 else 32
    ensures Kind(n, s, ss) != 32 ==> Reserve(n, s, ss) == 2
    ensures Kind(n, s, ss) == 32 && ss != 512 ==> Reserve(n, s, ss) == 32
    ensures forall cc: nat :: FatBytes(cc, 12) == (cc * 3 + 1) / 2 && FatBytes(cc, 16) == cc * 2 && FatBytes(cc, 32) == cc * 4
  {
  }

  lemma ReservedIs(n: nat, s: nat)
    requires Layable(n, s, 512) && Kind(n, s, 512) == 32
    ensures var reserved := Reserve(n, s, 512);
            && 32 <= reserved <= 41 && (reserved + 2 * TableLength(n, s, 512)) % 8 == 0
            && forall r :: 32 <= r < reserved ==> (r + 2 * FatSectors(Clusters(n, s, 512, 32, r), 512, 32)) % 8 != 0
  {
    var c := Clusters(n, s, 512, 12, 2);
    QuotientLess(n - 2 - RootSectors(512, 12), s);
    FirstSoon(n, s);
    FirstIsAligned(n, s, 32);
    var reserved := FirstAligned(n, s, 32);
    AlignedEighths(n, s, reserved);
    forall r | 32 <= r < reserved ensures (r + 2 * FatSectors(Clusters(n, s, 512, 32, r), 512, 32)) % 8 != 0 {
      AlignedEighths(n, s, r);
    }
  }

  lemma {:induction false} FirstIsAligned(n: nat, s: nat, r: nat)
    requires s > 0 && r <= n && FirstAligned(n, s, r) < n
    ensures Aligned(n, s, FirstAligned(n, s, r)) && forall i :: r <= i < FirstAligned(n, s, r) ==> !Aligned(n, s, i)
    decreases n - r
  {
    hide Aligned;
    if r < n && !Aligned(n, s, r) { FirstIsAligned(n, s, r + 1); }
  }

  /** The sectors that the layout takes. */
  function Used(n: nat, s: nat, ss: nat): int
    requires Layable(n, s, ss)
  {
    Reserve(n, s, ss) + 2 * TableLength(n, s, ss) + RootSectors(ss, Kind(n, s, ss)) + Count(n, s, ss) * s
  }

  /** The layout misses the number of sectors, upwards or downwards, by less than a
      cluster. */
  lemma UsedNear(n: nat, s: nat, ss: nat)
    requires Layable(n, s, ss)
    ensures n - s < Used(n, s, ss) < n + s
    ensures Used(n, s, ss) <= n <==> 2 * TableLength(n, s, ss) % s <= (n - Reserve(n, s, ss) - RootSectors(ss, Kind(n, s, ss))) % s
  {
    Difference(n - Reserve(n, s, ss) - RootSectors(ss, Kind(n, s, ss)), s, TableLength(n, s, ss));
  }

  /** The bytes of its last sector that a table of `cc` entries does not fill. */
  function Spare(cc: nat, ss: nat, bits: nat): nat
    requires ss > 0
  {
    (ss - FatBytes(cc, bits) % ss) % ss
  }

  lemma SpareBytes(cc: nat, ss: nat, bits: nat)
    requires ss > 0
    ensures FatSectors(cc, ss, bits) * ss == FatBytes(cc, bits) + Spare(cc, ss, bits)
  {
    RoundUp(FatBytes(cc, bits), ss);
  }

  lemma RoundUp(x: nat, q: nat)
    requires q > 0
    ensures (x + q - 1) / q * q == x + (q - x % q) % q
  {
    Floor(x, q);
    RoundedUp(x, q, x / q, x % q);
  }

  lemma RoundedUp(x: nat, q: nat, a: nat, r: nat)
    requires x == a * q + r && r < q
    ensures (x + q - 1) / q * q == x + (q - r) % q
  {
    if r == 0 {
      Euclid(x + q - 1, q - 1, q, a);
      Euclid(q, 0, q, 1);
    } else {
      assert (a + 1) * q == a * q + q;
      Euclid(x + q - 1, r - 1, q, a + 1);
      Euclid(q - r, q - r, q, 0);
    }
  }

  /** The bytes by which a table for `cc` entries falls short of two more, if the tables
      displace `d` clusters. */
  function MissingBytes(cc: nat, bits: nat, d: nat): nat
    requires d < 2
  {
    if bits == 12 then (if d == 0 then 3 else 2 - cc % 2)
    else (2 - d) * (bits / 8)
  }

  lemma MoreBytes(cc: nat, bits: nat, d: nat, bytes: nat)
    requires (bits == 12 || bits == 16 || bits == 32) && d < 2
    ensures (cc - d + 2) * bits <= bytes * 8 <==> FatBytes(cc, bits) + MissingBytes(cc, bits, d) <= bytes
  {
    if bits == 12 { MoreBytes12(cc, d, bytes); } else if bits == 16 { MoreBytes16(cc, d, bytes); } else { MoreBytes32(cc, d, bytes); }
  }

  lemma MoreBytes12(cc: nat, d: nat, bytes: nat)
    requires d < 2
    ensures (cc - d + 2) * 12 <= bytes * 8 <==> (cc * 3 + 1) / 2 + (if d == 0 then 3 else 2 - cc % 2) <= bytes
  {
    var h, r := cc / 2, cc % 2;
    assert cc == 2 * h + r && (cc * 3 + 1) / 2 == 3 * h + 2 * r;
  }

  lemma MoreBytes16(cc: nat, d: nat, bytes: nat)
    requires d < 2
    ensures (cc - d + 2) * 16 <= bytes * 8 <==> cc * 16 / 8 + (2 - d) * 2 <= bytes
  {
  }

  lemma MoreBytes32(cc: nat, d: nat, bytes: nat)
    requires d < 2
    ensures (cc - d + 2) * 32 <= bytes * 8 <==> cc * 32 / 8 + (2 - d) * 4 <= bytes
  {
  }

  /** Entries 0 and 1 of a table do not stand for clusters, so that it needs two more
      entries than there are clusters. It has room for them exactly if a cluster is not
      larger than the table, or the last sector of the table has enough bytes to spare. */
  lemma RoomForAll(n: nat, s: nat, ss: nat)
    requires Layable(n, s, ss)
    ensures var bits, f, cc := Kind(n, s, ss), TableLength(n, s, ss), Fitting(n, s, ss);
            (Count(n, s, ss) + 2) * bits <= f * ss * 8 <==>
            f >= s || Spare(cc, ss, bits) >= MissingBytes(cc, bits, if 2 * f < s then 0 else 1)
  {
    DisplacedFew(TableLength(n, s, ss), s);
    RoomIf(Fitting(n, s, ss), ss, Kind(n, s, ss), 2 * TableLength(n, s, ss) / s);
  }

  lemma RoomIf(cc: nat, ss: nat, bits: nat, d: nat)
    requires ss > 0 && (bits == 12 || bits == 16 || bits == 32)
    ensures (cc - d + 2) * bits <= FatSectors(cc, ss, bits) * ss * 8 <==> d >= 2 || Spare(cc, ss, bits) >= MissingBytes(cc, bits, d)
  {
    hide FatSectors, FatBytes, Spare, MissingBytes;
    if d >= 2 {
      FatHolds(cc, ss, bits);
      MulMonotone(cc - d + 2, cc, bits);
    } else {
      SpareBytes(cc, ss, bits);
      MoreBytes(cc, bits, d, FatSectors(cc, ss, bits) * ss);
    }
  }

  lemma DisplacedFew(f: nat, s: nat)
    requires s > 0
    ensures 2 * f / s >= 2 <==> f >= s
    ensures 2 * f / s >= 1 <==> 2 * f >= s
  {
    Floor(2 * f, s);
    var d := 2 * f / s;
    if d >= 2 { MulMonotone(2, d, s); } else { MulMonotone(d, 1, s); }
    if d >= 1 { MulMonotone(1, d, s); }
  }

  // ----- two volumes -----

  /** 42034 sectors of 512 bytes in clusters of 8 sectors: the layout takes 42036 sectors. */
  lemma LayoutTooLarge()
    ensures Layable(42034, 8, 512) && Used(42034, 8, 512) == 42036
  {
  }

  /** 2764 sectors of 512 bytes in clusters of 8 sectors: 341 clusters, and a table of one
      sector that ends before the last two of its 343 entries. */
  lemma TableTooShort()
    ensures Layable(2764, 8, 512) && Kind(2764, 8, 512) == 12 && Used(2764, 8, 512) <= 2764
    ensures Count(2764, 8, 512) == 341 && TableLength(2764, 8, 512) == 1 && 1 * 512 * 8 < 343 * 12
  {
  }

  // ----- what is left to fill -----

  /** The sectors that are written for the root directory. */
  function RootWritten(n: nat, s: nat, ss: nat): nat
    requires Layable(n, s, ss)
  {
    if Kind(n, s, ss) == 32 then s else 16384 / ss
  }

  /** The sectors that the file system leaves (line 456). */
  function Remainder(n: nat, s: nat, ss: nat): int
    requires Layable(n, s, ss)
  {
    n - Reserve(n, s, ss) - RootWritten(n, s, ss) - TableLength(n, s, ss) * 2
  }

  /** The tables are too long for the volume only if there is room for just one sector
      besides the reserved ones and a root directory of whole sectors, and that sector is
      a cluster: it then gets two tables of one sector. */
  lemma RemainderSign(n: nat, s: nat, ss: nat)
    requires Layable(n, s, ss)
    ensures Remainder(n, s, ss) < 0 <==> s == 1 && 16384 % ss == 0 && n == 16384 / ss + 3
    ensures Remainder(n, s, ss) >= -1
  {
    RootRounds(ss);
    if Kind(n, s, ss) == 32 { Ample(n, s, ss); } else { Scarce(n, s, ss); }
  }

  lemma RootRounds(ss: nat)
    requires ss > 0
    ensures RootSectors(ss, 12) == RootSectors(ss, 16) == 16384 / ss + if 16384 % ss == 0 then 0 else 1
  {
    var q, r := 16384 / ss, 16384 % ss;
    assert 16384 == r + ss * q;
    if r == 0 {
      Euclid(16384 + ss - 1, ss - 1, ss, q);
    } else {
      assert ss * (q + 1) == ss * q + ss;
      Euclid(16384 + ss - 1, r - 1, ss, q + 1);
    }
  }

  /** Two tables of FAT12 or FAT16 take fewer sectors than the clusters, unless there are
      fewer than two. */
  lemma SmallTables(cc: nat, ss: nat, bits: nat)
    requires ss >= 512 && (bits == 12 || bits == 16)
    ensures 2 * FatSectors(cc, ss, bits) <= if cc == 0 then 0 else if cc == 1 then 2 else cc
    ensures cc >= 1 ==> FatSectors(cc, ss, bits) >= 1
  {
    var x, c := FatBytes(cc, bits), FatSectors(cc, ss, bits);
    Ceiling(x, ss);
    if cc == 0 { Euclid(ss - 1, ss - 1, ss, 0); }
    if c == 0 { MulNatural(0, ss); }
    if c >= 2 {
      MulBoth(c - 1, 512, ss);
      assert (c - 1) * ss == c * ss - ss;
    }
  }

  lemma MulBoth(x: nat, a: nat, b: nat)
    requires a <= b
    ensures x * a <= x * b
  {
    MulNatural(x, b - a);
    assert x * (b - a) == x * b - x * a;
  }

  lemma Scarce(n: nat, s: nat, ss: nat)
    requires Layable(n, s, ss) && Kind(n, s, ss) != 32
    requires RootSectors(ss, 12) == RootSectors(ss, 16) == 16384 / ss + if 16384 % ss == 0 then 0 else 1
    ensures Remainder(n, s, ss) < 0 <==> s == 1 && 16384 % ss == 0 && n == 16384 / ss + 3
    ensures Remainder(n, s, ss) >= -1
  {
    hide RootSectors, FatSectors;
    var a := n - 2 - RootSectors(ss, 12);
    var cc := Fitting(n, s, ss);
    assert cc == a / s;
    SmallTables(cc, ss, Kind(n, s, ss));
    QuotientLess(a, s);
    if a == 1 {
      if s == 1 { assert cc == 1; } else { Euclid(1, 1, s, 0); }
    }
  }

  lemma LargeTables(cc: nat, ss: nat)
    requires ss >= 512 && cc >= 65000
    ensures 2 * FatSectors(cc, ss, 32) <= cc / 2
  {
    var c := FatSectors(cc, ss, 32);
    Ceiling(FatBytes(cc, 32), ss);
    if c >= 2 {
      MulBoth(c - 1, 512, ss);
      assert (c - 1) * ss == c * ss - ss;
    }
  }

  lemma Ample(n: nat, s: nat, ss: nat)
    requires Layable(n, s, ss) && Kind(n, s, ss) == 32
    ensures Remainder(n, s, ss) > 0 && n > 65525
  {
    hide RootSectors, FatSectors, Clusters;
    var r := Reserve(n, s, ss);
    ManyClusters(n, s, ss, r);
    var cc := Fitting(n, s, ss);
    LargeTables(cc, ss);
    MulGrowing(cc, s);
  }

  lemma MulGrowing(cc: nat, s: nat)
    requires cc >= 65000 && s >= 1
    ensures cc * s - s - cc / 2 > 0
  {
    MulMonotone(1, s, cc - 1);
    assert s * (cc - 1) == cc * s - s;
  }

  lemma ManyClusters(n: nat, s: nat, ss: nat, r: nat)
    requires Layable(n, s, ss) && Kind(n, s, ss) == 32 && r == Reserve(n, s, ss)
    ensures r <= 41 && r <= n && Clusters(n, s, ss, 32, r) >= 65000 && n > 65525
    ensures Clusters(n, s, ss, 32, r) * s <= n - r
  {
    var a := n - 2 - RootSectors(ss, 12);
    QuotientLess(a, s);
    if ss == LEGACY_SECTOR { FirstSoon(n, s); }
    assert Clusters(n, s, ss, 12, 2) == a / s >= 65525;
    if r > 2 + RootSectors(ss, 12) {
      DivDrop(a, r - 2 - RootSectors(ss, 12), s);
    } else {
      DivMonotone(a, n - r, s);
    }
    Floor(n - r, s);
  }

  lemma FirstSoon(n: nat, s: nat)
    requires s > 0 && n >= 41
    ensures FirstAligned(n, s, 32) <= 41
  {
    var r := AlignedSoon(n, s);
    FirstUpTo(n, s, 32, r);
  }

  lemma {:induction false} FirstUpTo(n: nat, s: nat, r: nat, q: nat)
    requires s > 0 && r <= q <= n && Aligned(n, s, q)
    ensures FirstAligned(n, s, r) <= q
    decreases q - r
  {
    if r < q && !Aligned(n, s, r) { FirstUpTo(n, s, r + 1, q); }
  }

  /** 35 sectors of 512 bytes: the tables take one sector more than there is. */
  lemma TablesTooLong()
    ensures Layable(35, 1, 512) && Remainder(35, 1, 512) == -1
  {
    RootRounds(512);
    Scarce(35, 1, 512);
  }

  /** The parameters of a file system (fatparams). */
  class FatParams {
    var num_sectors: nat
    var cluster_count: int
    var size_root_dir: nat
    var size_fat: nat
    var fats: nat
    var media: nat
    var cluster_size: nat
    var fat_length: nat
    var dir_entries: nat
    var sector_size: nat
    var hidden: nat
    var reserved: nat
    var sectors: nat
    var total_sect: nat
    var heads: nat
    var secs_track: nat

    constructor (num_sectors: nat, sector_size: nat, cluster_size: nat)
      ensures this.num_sectors == num_sectors && this.sector_size == sector_size && this.cluster_size == cluster_size
    {
      this.num_sectors, this.sector_size, this.cluster_size := num_sectors, sector_size, cluster_size;
    }

    /** The default cluster size in bytes (lines 40-59). */
    static method DefaultBytes(volumeSize: nat) returns (clusterSize: nat)
      ensures clusterSize == DefaultSize(volumeSize, 0)
    {
      clusterSize :=
        if volumeSize >= 2 * TB then 256 * KB
        else if volumeSize >= 512 * GB then 128 * KB
        else if volumeSize >= 128 * GB then 64 * KB
        else if volumeSize >= 64 * GB then 32 * KB
        else if volumeSize >= 32 * GB then 16 * KB
        else if volumeSize >= 16 * GB then 8 * KB
        else if volumeSize >= 512 * MB then 4 * KB
        else if volumeSize >= 256 * MB then 2 * KB
        else if volumeSize >= 1 * MB then 1 * KB
        else 512;
    }

    /** The default cluster size in sectors (lines 61-70); clusters are small enough
        without a check. */
    static method ToSectors(clusterSize: nat, ss: nat) returns (c: nat)
      requires 512 <= ss <= MAX_SECTOR && clusterSize <= MAX_CLUSTER
      ensures c == DefaultSectors(clusterSize, ss) && 1 <= c <= 128 && c * ss <= MAX_CLUSTER
    {
      DefaultFits(clusterSize, ss);
      c := Quotient(clusterSize, ss);
      if c == 0 { c := 1; }
      if c > 128 { c := 128; }
    }

    static method Quotient(x: nat, q: nat) returns (c: nat)
      requires q > 0
      ensures c == x / q
    {
      Floor(x, q);
      c := x / q;
    }

    /** The cluster size that was chosen, or a default (lines 35-74). */
    method ChooseClusterSize()
      requires 512 <= sector_size <= MAX_SECTOR
      modifies `cluster_size
      ensures cluster_size >= 1 && cluster_size == ClusterSectors(num_sectors * sector_size, sector_size, old(cluster_size))
      ensures old(cluster_size) == 0 ==> cluster_size <= 128 && cluster_size * sector_size <= MAX_CLUSTER
    {
      var volumeSize := num_sectors * sector_size;
      if cluster_size == 0 {
        var clusterSize := DefaultBytes(volumeSize);
        cluster_size := ToSectors(clusterSize, sector_size);
      }
      if volumeSize <= MAX_CLUSTER * 4 { cluster_size := 1; }
    }

    /** The clusters and the table for FAT12 or FAT16 (lines 88-100). */
    method Small(bits: nat)
      requires (bits == 12 || bits == 16) && sector_size > 0 && cluster_size > 0 && size_root_dir == 16384
      requires 2 + RootSectors(sector_size, bits) <= num_sectors
      modifies `size_fat, `reserved, `cluster_count, `fat_length
      ensures size_fat == bits && reserved == 2
      ensures cluster_count == Clusters(num_sectors, cluster_size, sector_size, bits, 2)
      ensures fat_length == FatSectors(Clusters(num_sectors, cluster_size, sector_size, bits, 2), sector_size, bits)
    {
      size_fat := bits;
      reserved := 2;
      var fatsecs := num_sectors - (size_root_dir + sector_size - 1) / sector_size - reserved;
      var count := Divide(fatsecs);
      cluster_count := count;
      fat_length := if bits == 12 then ((count * 3 + 1) / 2 + sector_size - 1) / sector_size
                    else (count * 2 + sector_size - 1) / sector_size;
    }

    /** The number of clusters in `fatsecs` sectors (lines 91, 99, 114). */
    method Divide(fatsecs: nat) returns (count: nat)
      requires sector_size > 0 && cluster_size > 0
      ensures count == fatsecs / cluster_size
    {
      DivCancels(fatsecs, cluster_size, sector_size);
      count := fatsecs * sector_size / (cluster_size * sector_size);
    }

    /** The fields are what the functions of the inputs say. */
    ghost predicate Placed()
      reads this
    {
      && Layable(num_sectors, cluster_size, sector_size)
      && size_fat == Kind(num_sectors, cluster_size, sector_size)
      && reserved == Reserve(num_sectors, cluster_size, sector_size)
      && fat_length == TableLength(num_sectors, cluster_size, sector_size)
    }

    /** The clusters and the table are those for the reserved sectors. */
    ghost predicate Laid()
      reads this
    {
      && sector_size > 0 && cluster_size > 0 && reserved + RootSectors(sector_size, size_fat) <= num_sectors
      && cluster_count == Clusters(num_sectors, cluster_size, sector_size, size_fat, reserved)
      && fat_length == FatSectors(Clusters(num_sectors, cluster_size, sector_size, size_fat, reserved), sector_size, size_fat)
    }

    /** One pass of the loop (lines 110-120). */
    method Pass() returns (more: bool)
      requires sector_size > 0 && cluster_size > 0 && reserved < 41 <= num_sectors && size_fat == 32
      modifies `reserved, `cluster_count, `fat_length, `size_root_dir
      ensures reserved == old(reserved) + 1 && size_root_dir == cluster_size * sector_size && Laid()
      ensures more <==> sector_size == LEGACY_SECTOR && !Aligned(num_sectors, cluster_size, reserved)
    {
      reserved := reserved + 1;
      var fatsecs := num_sectors - reserved;
      size_root_dir := cluster_size * sector_size;
      var count := Divide(fatsecs);
      cluster_count := count;
      fat_length := (count * 4 + sector_size - 1) / sector_size;
      more := sector_size == LEGACY_SECTOR
              && (reserved * sector_size + fat_length * 2 * sector_size) % MAX_SECTOR != 0;
    }

    /** FAT32, with the loop that aligns the data area (lines 103-121). */
    method Large()
      requires sector_size > 0 && cluster_size > 0 && num_sectors >= 41
      modifies `size_fat, `reserved, `cluster_count, `fat_length, `size_root_dir
      ensures size_fat == 32 && 32 <= reserved <= 41 && size_root_dir == cluster_size * sector_size && Laid()
      ensures sector_size != LEGACY_SECTOR ==> reserved == 32
      ensures sector_size == LEGACY_SECTOR ==> Aligned(num_sectors, cluster_size, reserved)
      ensures sector_size == LEGACY_SECTOR ==> forall r :: 32 <= r < reserved ==> !Aligned(num_sectors, cluster_size, r)
    {
      size_fat := 32;
      reserved := 32 - 1;
      ghost var stop := AlignedSoon(num_sectors, cluster_size);
      var more := Pass();
      while more
        invariant size_fat == 32 && 32 <= reserved <= 41 && size_root_dir == cluster_size * sector_size && Laid()
        invariant more <==> sector_size == LEGACY_SECTOR && !Aligned(num_sectors, cluster_size, reserved)
        invariant sector_size != LEGACY_SECTOR ==> reserved == 32
        invariant sector_size == LEGACY_SECTOR ==> forall r :: 32 <= r < reserved ==> !Aligned(num_sectors, cluster_size, r)
        decreases 41 - reserved
      {
        assert reserved < stop;
        more := Pass();
      }
    }

    /** The type of file system and its layout (lines 87-121). */
    method Layout()
      requires 512 <= sector_size && cluster_size > 0 && size_root_dir == 16384
      requires 2 + RootSectors(sector_size, 12) <= num_sectors
      modifies `size_fat, `reserved, `cluster_count, `fat_length, `size_root_dir
      ensures Laid() && Placed() && cluster_count == Fitting(num_sectors, cluster_size, sector_size)
      ensures if size_fat == 32 then 32 <= reserved <= 41 else reserved == 2
      ensures size_fat == 32 && sector_size == LEGACY_SECTOR ==> Aligned(num_sectors, cluster_size, reserved)
      ensures size_root_dir == if size_fat == 32 then cluster_size * sector_size else 16384
    {
      Small(12);
      if cluster_count >= 4085 { Small(16); }
      if cluster_count >= 65525 {
        QuotientLess(num_sectors - 2 - RootSectors(sector_size, 16), cluster_size);
        Large();
        if sector_size == LEGACY_SECTOR { FirstIs(num_sectors, cluster_size, 32, reserved); }
      }
    }

    /** The sectors that the layout takes. */
    ghost function Total(): int
      requires sector_size > 0
      reads this
    {
      reserved + fats * fat_length + RootSectors(sector_size, size_fat) + cluster_count * cluster_size
    }

    lemma Settled()
      requires Placed() && cluster_count == Count(num_sectors, cluster_size, sector_size) && fats == 2
      ensures Total() == Used(num_sectors, cluster_size, sector_size)
      ensures var cc := Fitting(num_sectors, cluster_size, sector_size);
              (cluster_count + 2) * size_fat <= fat_length * sector_size * 8 <==>
              fat_length >= cluster_size
              || Spare(cc, sector_size, size_fat) >= MissingBytes(cc, size_fat, if 2 * fat_length < cluster_size then 0 else 1)
    {
      hide Kind, Reserve, Fitting, TableLength, Spare, MissingBytes;
      RoomForAll(num_sectors, cluster_size, sector_size);
    }

    /** GetFatParams (lines 29-135): the layout is the one that the functions of the inputs
        give; each table holds an entry for every cluster, and the layout misses the number
        of sectors, upwards or downwards, by less than a cluster. */
    method GetParams()
      requires 512 <= sector_size <= MAX_SECTOR && 2 + RootSectors(sector_size, 12) <= num_sectors
      modifies this
      ensures sector_size == old(sector_size) && num_sectors == old(num_sectors) && fats == 2
      ensures cluster_size == ClusterSectors(num_sectors * sector_size, sector_size, old(cluster_size))
      ensures Placed() && cluster_count == Count(num_sectors, cluster_size, sector_size)
      ensures Total() == Used(num_sectors, cluster_size, sector_size)
      ensures var cc := Fitting(num_sectors, cluster_size, sector_size);
              (cluster_count + 2) * size_fat <= fat_length * sector_size * 8 <==>
              fat_length >= cluster_size
              || Spare(cc, sector_size, size_fat) >= MissingBytes(cc, size_fat, if 2 * fat_length < cluster_size then 0 else 1)
      ensures cluster_size >= 1 && fat_length * sector_size * 8 >= cluster_count * size_fat
      ensures num_sectors - cluster_size < Total() < num_sectors + cluster_size
      ensures if size_fat == 32 then 32 <= reserved <= 41 else reserved == 2
      ensures reserved + RootSectors(sector_size, size_fat) <= num_sectors
      ensures Total() <= num_sectors <==>
                2 * fat_length % cluster_size <= (num_sectors - reserved - RootSectors(sector_size, size_fat)) % cluster_size
      ensures size_fat == 32 && sector_size == 512 ==> (reserved + fats * fat_length) * 512 % 4096 == 0
      ensures size_root_dir == if size_fat == 32 then cluster_size * sector_size else 16384
      // the number of sectors goes into the field that is wide enough for it
      ensures if num_sectors < 65536 && size_fat != 32 then sectors == num_sectors && total_sect == 0
              else sectors == 0 && total_sect == num_sectors
      ensures secs_track == heads == 1 && dir_entries == 512 && media == 0xf8 && hidden == 0
    {
      hide Kind, Reserve, ClusterSectors, Fitting, TableLength, Spare, MissingBytes, Count, Used;
      hide FatSectors, Clusters, FatBytes, RootSectors;
      ChooseClusterSize();
      PutGeometry();
      Layout();
      Displace();
      Settled();
      PutSize();
    }

    /** What does not depend on the volume (lines 76-85). */
    method PutGeometry()
      modifies `secs_track, `heads, `dir_entries, `fats, `media, `hidden, `size_root_dir
      ensures secs_track == heads == 1 && dir_entries == 512 && fats == 2 && media == 0xf8 && hidden == 0 && size_root_dir == 16384
    {
      secs_track, heads, dir_entries, fats, media, hidden := 1, 1, 512, 2, 0xf8, 0;
      size_root_dir := dir_entries * 32;
    }

    /** The field that the number of sectors goes into (lines 125-134). */
    method PutSize()
      modifies `sectors, `total_sect
      ensures if num_sectors < 65536 && size_fat != 32 then sectors == num_sectors && total_sect == 0
              else sectors == 0 && total_sect == num_sectors
    {
      if num_sectors >= 65536 || size_fat == 32 {
        sectors, total_sect := 0, num_sectors;
      } else {
        sectors, total_sect := num_sectors, 0;
      }
    }

    /** The clusters that the tables displace (line 123). */
    method Displace()
      requires Laid() && Placed() && cluster_count == Fitting(num_sectors, cluster_size, sector_size) && fats == 2
      modifies `cluster_count
      ensures cluster_count == Count(num_sectors, cluster_size, sector_size)
      ensures fat_length * sector_size * 8 >= cluster_count * size_fat
      ensures num_sectors - cluster_size < Total() < num_sectors + cluster_size
      ensures Total() <= num_sectors <==>
                2 * fat_length % cluster_size <= (num_sectors - reserved - RootSectors(sector_size, size_fat)) % cluster_size
    {
      StillHolds(cluster_count, fat_length * fats / cluster_size, sector_size, size_fat);
      Difference(num_sectors - reserved - RootSectors(sector_size, size_fat), cluster_size, fat_length);
      cluster_count := cluster_count - fat_length * fats / cluster_size;
    }
  }

  /** The program accepts both volumes. */
  method Examples() returns (large: FatParams, short: FatParams)
    ensures large.sector_size == 512 && large.Total() == 42036 > 42034 == large.num_sectors
    ensures short.size_fat == 12 && short.cluster_count == 341 && short.fat_length == 1 && short.num_sectors == 2764
  {
    hide Used, Count, Kind, TableLength, Reserve, Fitting, Spare, MissingBytes, Clusters, FatSectors;
    large := new FatParams(42034, 512, 8);
    large.GetParams();
    LayoutTooLarge();
    short := new FatParams(2764, 512, 8);
    short.GetParams();
    TableTooShort();
  }

  lemma StillHolds(cc: nat, less: nat, ss: nat, bits: nat)
    requires ss > 0 && (bits == 12 || bits == 16 || bits == 32)
    ensures FatSectors(cc, ss, bits) * ss * 8 >= (cc - less) * bits
  {
    FatHolds(cc, ss, bits);
    MulMonotone(cc - less, cc, bits);
  }

  lemma QuotientLess(x: nat, s: nat)
    requires s > 0
    ensures x / s <= x
  {
    DivMonotone(x, x * s, s);
    DivCancels(x, 1, s);
  }

  /** The clusters that the tables displace. */
  lemma Difference(space: nat, s: nat, f: nat)
    requires s > 0
    ensures var used := 2 * f + (space / s - f * 2 / s) * s;
            && space - s < used < space + s
            && (used <= space <==> 2 * f % s <= space % s)
  {
    Floor(space, s);
    Floor(2 * f, s);
    assert (space / s - 2 * f / s) * s == (space / s) * s - (2 * f / s) * s;
  }
}
