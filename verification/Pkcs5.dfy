/** Key derivation in Pkcs5.c, for any hash function: the variants of the source differ
    in the block size, the digest size and the hash. A hash context is modelled by the
    bytes it has absorbed. */
module Pkcs5 {
  import opened Division

  type Bytes = seq<bv8>

  datatype Hash = Hash(block: nat, digest: nat, h: Bytes -> Bytes)

  ghost predicate Valid(H: Hash) {
    1 <= H.digest <= H.block && forall m :: |H.h(m)| == H.digest
  }

  // ----- HMAC as in section 2 of RFC 2104 -----

  function Zeros(n: nat): Bytes { seq(n, _ => 0) }

  function XorWith(a: Bytes, c: bv8): Bytes { seq(|a|, i requires 0 <= i < |a| => a[i] ^ c) }

  /** The key, hashed if it is longer than a block, and filled up with zeros. */
  function BlockKey(H: Hash, key: Bytes): Bytes {
    var k := if |key| > H.block then H.h(key) else key;
    k + Zeros(if |k| <= H.block then H.block - |k| else 0)
  }

  function Hmac(H: Hash, key: Bytes, text: Bytes): Bytes {
    H.h(XorWith(BlockKey(H, key), 0x5c) + H.h(XorWith(BlockKey(H, key), 0x36) + text))
  }

  /** The inner and the outer pad are the key, or its hash, filled up with zeros, each byte
      exclusive-or 0x36 or 0x5c. */
  lemma HmacPads(H: Hash, key: Bytes, text: Bytes)
    requires Valid(H)
    ensures var k, inner, outer := if |key| > H.block then H.h(key) else key, XorWith(BlockKey(H, key), 0x36), XorWith(BlockKey(H, key), 0x5c);
            && |inner| == |outer| == H.block >= |k|
            && (forall j :: 0 <= j < |k| ==> inner[j] == k[j] ^ 0x36 && outer[j] == k[j] ^ 0x5c)
            && (forall j :: |k| <= j < H.block ==> inner[j] == 0x36 && outer[j] == 0x5c)
            && Hmac(H, key, text) == H.h(outer + H.h(inner + text))
  {
  }

  // ----- PBKDF2 as in section 5.2 of RFC 8018 -----

  /** A block number as four bytes, most significant first. */
  function Int4(i: nat): (s: Bytes)
    ensures |s| == 4
  {
    [(i / 0x1000000 % 256) as bv8, (i / 0x10000 % 256) as bv8, (i / 0x100 % 256) as bv8, (i % 256) as bv8]
  }

  /** The bytes are the digits of the number modulo 2^32 to the base 256, the highest first. */
  lemma Int4Is(i: nat) returns (a: nat, b: nat, c: nat, d: nat)
    ensures a < 256 && b < 256 && c < 256 && d < 256
    ensures a * 0x1000000 + b * 0x10000 + c * 0x100 + d == i % 0x1_0000_0000
    ensures Int4(i) == [a as bv8, b as bv8, c as bv8, d as bv8]
  {
    hide Int4;
    a, b, c, d := i / 0x1000000 % 256, i / 0x10000 % 256, i / 0x100 % 256, i % 256;
    Digits(i);
    Int4Bytes(i, a, b, c, d);
  }

  lemma Int4Bytes(i: nat, a: nat, b: nat, c: nat, d: nat)
    requires a == i / 0x1000000 % 256 && b == i / 0x10000 % 256 && c == i / 0x100 % 256 && d == i % 256
    ensures Int4(i) == [a as bv8, b as bv8, c as bv8, d as bv8]
  {
  }

  lemma Digits(i: nat)
    ensures i / 0x1000000 % 256 * 0x1000000 + i / 0x10000 % 256 * 0x10000 + i / 0x100 % 256 * 0x100 + i % 256 == i % 0x1_0000_0000
  {
    var a, b, c := i / 0x100, i / 0x10000, i / 0x1000000;
    assert i == 0x100 * a + i % 256;
    assert a / 256 == b && a == 256 * b + a % 256;
    assert b / 256 == c && b == 256 * c + b % 256;
    assert c == 256 * (c / 256) + c % 256;
    assert c / 256 == i / 0x1_0000_0000;
  }

  function XorByte(a: bv8, b: bv8): bv8 { a ^ b }

  function XorBytes(a: Bytes, b: Bytes): Bytes
    requires |a| == |b|
  {
    seq(|a|, i requires 0 <= i < |a| => XorByte(a[i], b[i]))
  }

  /** U_c: the c-fold iteration of the pseudorandom function. */
  function U(H: Hash, pwd: Bytes, salt: Bytes, i: nat, c: nat): Bytes
    requires c >= 1
  {
    if c == 1 then Hmac(H, pwd, salt + Int4(i)) else Hmac(H, pwd, U(H, pwd, salt, i, c - 1))
  }

  /** F: the exclusive-or of U_1 to U_c. */
  function F(H: Hash, pwd: Bytes, salt: Bytes, i: nat, c: nat): (r: Bytes)
    requires Valid(H) && c >= 1
    ensures |r| == H.digest
  {
    if c == 1 then U(H, pwd, salt, i, 1) else XorBytes(F(H, pwd, salt, i, c - 1), U(H, pwd, salt, i, c))
  }

  /** The first term is the HMAC of the salt and the block number, each further one that
      of the term before, and byte `j` of their exclusive-or grows by byte `j` of each. */
  lemma Terms(H: Hash, pwd: Bytes, salt: Bytes, i: nat, c: nat, j: nat)
    requires Valid(H) && c >= 1 && j < H.digest
    ensures |U(H, pwd, salt, i, c)| == H.digest
    ensures F(H, pwd, salt, i, 1) == U(H, pwd, salt, i, 1) == Hmac(H, pwd, salt + Int4(i))
    ensures c >= 2 ==> U(H, pwd, salt, i, c) == Hmac(H, pwd, U(H, pwd, salt, i, c - 1))
    ensures c >= 2 ==> F(H, pwd, salt, i, c)[j] == F(H, pwd, salt, i, c - 1)[j] ^ U(H, pwd, salt, i, c)[j]
  {
  }

  /** Byte `j` of a block is the exclusive-or of byte `j` of all terms. */
  lemma BlockByteIs(H: Hash, pwd: Bytes, salt: Bytes, i: nat, c: nat, j: nat)
    requires Valid(H) && c >= 1 && j < H.digest
    ensures |Column(H, pwd, salt, i, c, j)| == c
    ensures forall t :: 1 <= t <= c ==> j < |U(H, pwd, salt, i, t)| && Column(H, pwd, salt, i, c, j)[t - 1] == U(H, pwd, salt, i, t)[j]
    ensures F(H, pwd, salt, i, c)[j] == XorAll(Column(H, pwd, salt, i, c, j))
  {
    hide F, U, Column, XorAll, Valid;
    ColumnAt(H, pwd, salt, i, c, j, 1);
    forall t | 1 <= t <= c ensures j < |U(H, pwd, salt, i, t)| && Column(H, pwd, salt, i, c, j)[t - 1] == U(H, pwd, salt, i, t)[j] {
      ColumnAt(H, pwd, salt, i, c, j, t);
    }
    ColumnSum(H, pwd, salt, i, c, j);
  }

  lemma {:induction false} ColumnAt(H: Hash, pwd: Bytes, salt: Bytes, i: nat, c: nat, j: nat, t: nat)
    requires Valid(H) && 1 <= t <= c && j < H.digest
    ensures |Column(H, pwd, salt, i, c, j)| == c
    ensures j < |U(H, pwd, salt, i, t)| && Column(H, pwd, salt, i, c, j)[t - 1] == U(H, pwd, salt, i, t)[j]
    decreases c
  {
    hide U, F, Hmac, Int4;
    Terms(H, pwd, salt, i, c, j);
    if t < c { ColumnAt(H, pwd, salt, i, c - 1, j, t); } else if c > 1 { ColumnAt(H, pwd, salt, i, c - 1, j, c - 1); }
  }

  lemma {:induction false} ColumnSum(H: Hash, pwd: Bytes, salt: Bytes, i: nat, c: nat, j: nat)
    requires Valid(H) && c >= 1 && j < H.digest
    ensures |Column(H, pwd, salt, i, c, j)| >= 1 && F(H, pwd, salt, i, c)[j] == XorAll(Column(H, pwd, salt, i, c, j))
    decreases c
  {
    hide U, F, Hmac, Int4;
    Terms(H, pwd, salt, i, c, j);
    if c > 1 {
      ColumnSum(H, pwd, salt, i, c - 1, j);
      var rest, last := Column(H, pwd, salt, i, c - 1, j), U(H, pwd, salt, i, c)[j];
      XorMore(rest, last);
    }
  }

  lemma XorMore(s: Bytes, b: bv8)
    requires s != []
    ensures XorAll(s + [b]) == XorAll(s) ^ b
  {
    assert (s + [b])[..|s|] == s;
  }

  function XorAll(s: Bytes): bv8
    requires s != []
  {
    if |s| == 1 then s[0] else XorAll(s[..|s| - 1]) ^ s[|s| - 1]
  }

  function Column(H: Hash, pwd: Bytes, salt: Bytes, i: nat, c: nat, j: nat): Bytes
    requires Valid(H) && c >= 1 && j < H.digest
  {
    Terms(H, pwd, salt, i, c, j);
    (if c == 1 then [] else Column(H, pwd, salt, i, c - 1, j)) + [U(H, pwd, salt, i, c)[j]]
  }

  /** Byte `j` of the derived key: the key is T_1 || T_2 || ..., cut to its length. */
  function DkByte(H: Hash, pwd: Bytes, salt: Bytes, c: nat, j: nat): bv8
    requires Valid(H) && c >= 1
  {
    F(H, pwd, salt, j / H.digest + 1, c)[j % H.digest]
  }

  // ----- the program -----

  class HmacContext {
    const H: Hash
    var ctx: Bytes
    var inner: Bytes           // inner_digest_ctx
    var outer: Bytes           // outer_digest_ctx
    const k: array<bv8>
    const u: array<bv8>

    constructor (H: Hash, size: nat)
      requires Valid(H) && size >= H.block
      ensures this.H == H && fresh(k) && fresh(u) && k != u && k.Length == size && u.Length == H.digest
    {
      this.H := H;
      ctx, inner, outer := [], [], [];
      k := new bv8[size];
      u := new bv8[H.digest];
    }

    ghost predicate Fits()
    {
      Valid(H) && k != u && k.Length >= H.block && u.Length == H.digest
    }

    /** The contexts have absorbed the padded key. */
    ghost predicate Keyed(pwd: Bytes)
      reads this
    {
      inner == XorWith(BlockKey(H, pwd), 0x36) && outer == XorWith(BlockKey(H, pwd), 0x5c)
    }

    /** `hash_end`: write the digest of the context to the start of `d`. */
    method End(d: array<bv8>)
      requires Valid(H) && d.Length >= H.digest
      modifies d
      ensures d[..H.digest] == H.h(ctx) && d[H.digest..] == old(d[H.digest..])
    {
      ghost var rest := d[H.digest..];
      var digest := H.h(ctx);
      forall i | 0 <= i < H.digest { d[i] := digest[i]; }
      assert forall i :: 0 <= i < |rest| ==> d[H.digest + i] == rest[i];
    }

    /** hmac_*_internal (lines 50-74, 330-354): HMAC in place, from the two contexts. */
    method Internal(d: array<bv8>, ld: nat)
      requires Valid(H) && d.Length >= ld && d.Length >= H.digest
      modifies d, `ctx
      ensures d[..H.digest] == H.h(outer + H.h(inner + old(d[..ld]))) && d[H.digest..] == old(d[H.digest..])
    {
      ctx := inner;
      ctx := ctx + d[..ld];
      End(d);
      ctx := outer;
      ctx := ctx + d[..H.digest];
      End(d);
    }

    /** Pad the key with `c` and hash the block (lines 503-508, 515-519). `k` serves as buffer. */
    method PadKey(key: Bytes, c: bv8) returns (absorbed: Bytes)
      requires Fits() && |key| <= H.block
      modifies k
      ensures absorbed == XorWith(key + Zeros(H.block - |key|), c)
    {
      var b := 0;
      while b < |key|
        invariant 0 <= b <= |key| && forall i :: 0 <= i < b ==> k[i] == key[i] ^ c
      {
        k[b] := key[b] ^ c;
        b := b + 1;
      }
      forall i | |key| <= i < H.block { k[i] := c; }
      absorbed := k[..H.block];
      ZeroXor(c);
    }

    /** Precompute both contexts (lines 473-485, 498-519). */
    method Precompute(pwd: Bytes)
      requires Fits()
      modifies `inner, `outer, k
      ensures Keyed(pwd)
    {
      var key := if |pwd| > H.block then H.h(pwd) else pwd;
      inner := PadKey(key, 0x36);
      outer := PadKey(key, 0x5c);
    }

    /** hmac_* (lines 77-145, 356-425) */
    method Mac(pwd: Bytes, d: array<bv8>, ld: nat)
      requires Fits() && d != k && d.Length >= ld && d.Length >= H.digest
      modifies this, k, d
      ensures d[..H.digest] == Hmac(H, pwd, old(d[..ld])) && d[H.digest..] == old(d[H.digest..])
    {
      Precompute(pwd);
      Internal(d, ld);
    }
  }

  lemma ZeroXor(c: bv8)
    ensures 0 ^ c == c
  {
  }

  /** The flag through which the caller may ask to abort. Once raised it stays so. */
  class AbortFlag {
    const enabled: bool
    var raised: bool

    constructor (enabled: bool)
      ensures this.enabled == enabled && !raised
    {
      this.enabled := enabled;
      raised := false;
    }

    /** Read the flag: the caller may have raised it in the meantime. */
    method Poll() returns (now: bool)
      modifies this
      ensures now == raised && (old(raised) ==> raised) && (raised ==> old(raised) || enabled)
    {
      var asked: bool := *;
      raised := raised || (enabled && asked);
      now := raised;
    }
  }

  /** One iteration after the first (lines 443-453, 191-204). */
  method Iterate(m: HmacContext, ghost pwd: Bytes, ghost salt: Bytes, ghost i: nat, ghost c: nat)
    requires m.Fits() && m.Keyed(pwd) && c >= 1
    requires m.k[..m.H.digest] == U(m.H, pwd, salt, i, c) && m.u[..] == F(m.H, pwd, salt, i, c)
    modifies m`ctx, m.k, m.u
    ensures m.k[..m.H.digest] == U(m.H, pwd, salt, i, c + 1) && m.u[..] == F(m.H, pwd, salt, i, c + 1)
  {
    m.Internal(m.k, m.H.digest);
    XorInto(m.u, m.k, m.H.digest);
  }

  method XorInto(u: array<bv8>, k: array<bv8>, n: nat)
    requires u != k && u.Length == n <= k.Length
    modifies u
    ensures u[..] == XorBytes(old(u[..]), k[..n])
  {
    var i := 0;
    while i < n
      invariant 0 <= i <= n
      invariant forall j :: 0 <= j < i ==> u[j] == XorByte(old(u[j]), k[j])
      invariant forall j :: i <= j < n ==> u[j] == old(u[j])
    {
      u[i] := XorByte(u[i], k[i]);
      i := i + 1;
    }
  }

  /** Store bytes at an offset. */
  method Store(a: array<bv8>, at: nat, s: Bytes)
    requires at + |s| <= a.Length
    modifies a
    ensures a[..] == old(a[..at]) + s + old(a[at + |s|..])
  {
    forall i | 0 <= i < |s| { a[at + i] := s[i]; }
  }

  /** derive_u_* (lines 427-454, 148-205): block `b` of the derived key, in `u`. */
  method DeriveU(m: HmacContext, salt: Bytes, iterations: nat, b: nat, abort: AbortFlag, ghost pwd: Bytes)
    requires m.Fits() && m.Keyed(pwd) && |salt| + 4 <= m.k.Length && iterations >= 1
    modifies m`ctx, m.k, m.u, abort
    ensures old(abort.raised) ==> abort.raised
    ensures abort.raised ==> old(abort.raised) || abort.enabled
    ensures abort.raised || m.u[..] == F(m.H, pwd, salt, b, iterations)
  {
    hide F, U;
    FirstU(m, salt, b, pwd);
    FirstTerm(m.H, pwd, salt, b);
    var c := 1;
    while c < iterations
      invariant 1 <= c <= iterations
      invariant m.k[..m.H.digest] == U(m.H, pwd, salt, b, c) && m.u[..] == F(m.H, pwd, salt, b, c)
      invariant old(abort.raised) ==> abort.raised
      invariant abort.raised ==> old(abort.raised) || abort.enabled
    {
      if c % 1024 == 0 {
        var asked := abort.Poll();
        if asked { return; }
      }
      Iterate(m, pwd, salt, b, c);
      c := c + 1;
    }
  }

  lemma FirstTerm(H: Hash, pwd: Bytes, salt: Bytes, i: nat)
    requires Valid(H)
    ensures F(H, pwd, salt, i, 1) == U(H, pwd, salt, i, 1)
  {
  }

  /** The first iteration (lines 433-440, 174-188). */
  method FirstU(m: HmacContext, salt: Bytes, b: nat, ghost pwd: Bytes)
    requires m.Fits() && m.Keyed(pwd) && |salt| + 4 <= m.k.Length
    modifies m`ctx, m.k, m.u
    ensures m.k[..m.H.digest] == m.u[..] == U(m.H, pwd, salt, b, 1)
  {
    Store(m.k, 0, salt);
    Store(m.k, |salt|, Int4(b));
    assert m.k[..|salt| + 4] == salt + Int4(b);
    m.Internal(m.k, |salt| + 4);
    Store(m.u, 0, m.k[..m.H.digest]);
  }

  /** Where block `b` starts. */
  function Offset(b: nat, digest: nat): nat
    requires b >= 1
  {
    if b == 1 then 0 else Offset(b - 1, digest) + digest
  }

  lemma {:induction false} OffsetProduct(b: nat, digest: nat)
    requires b >= 1
    ensures Offset(b, digest) == digest * (b - 1)
  {
    if b > 1 {
      OffsetProduct(b - 1, digest);
      assert digest * (b - 1) == digest * (b - 2) + digest;
    }
  }

  lemma {:induction false} OffsetOrder(b: nat, l: nat, digest: nat)
    requires 1 <= b < l
    ensures Offset(b, digest) + digest <= Offset(l, digest)
  {
    if b + 1 < l { OffsetOrder(b, l - 1, digest); }
  }

  /** The number of blocks and the length of the last one (lines 487-496). */
  method Blocks(dklen: nat, digest: nat) returns (l: nat, r: nat)
    requires dklen >= 1 && digest >= 1
    ensures l >= 1 && 1 <= r <= digest && dklen == Offset(l, digest) + r
  {
    l := if dklen % digest != 0 then 1 + dklen / digest else dklen / digest;
    assert dklen == digest * (dklen / digest) + dklen % digest;
    if dklen % digest == 0 { LastFull(dklen / digest, digest); }
    r := dklen - digest * (l - 1);
    OffsetProduct(l, digest);
  }

  lemma LastFull(q: nat, digest: nat)
    requires digest * q >= 1
    ensures q >= 1 && digest * q == digest * (q - 1) + digest
  {
  }

  /** The bytes of `dk` up to `n` are those of the derived key. */
  ghost predicate Derived(dk: Bytes, H: Hash, pwd: Bytes, salt: Bytes, c: nat, n: nat)
    requires Valid(H) && c >= 1 && n <= |dk|
  {
    forall j :: 0 <= j < n ==> dk[j] == DkByte(H, pwd, salt, c, j)
  }

  /** One more block, or the start of it. */
  lemma MoreDerived(dk: Bytes, dk': Bytes, H: Hash, pwd: Bytes, salt: Bytes, c: nat, b: nat, n: nat)
    requires Valid(H) && c >= 1 && b >= 1 && n <= H.digest && Offset(b, H.digest) + n <= |dk| == |dk'|
    requires Derived(dk, H, pwd, salt, c, Offset(b, H.digest))
    requires dk'[..Offset(b, H.digest)] == dk[..Offset(b, H.digest)]
    requires dk'[Offset(b, H.digest)..Offset(b, H.digest) + n] == F(H, pwd, salt, b, c)[..n]
    ensures Derived(dk', H, pwd, salt, c, Offset(b, H.digest) + n)
  {
    hide DkByte, F, Offset;
    var m := Offset(b, H.digest);
    forall j | 0 <= j < m + n ensures dk'[j] == DkByte(H, pwd, salt, c, j) {
      if j < m {
        assert dk'[..m][j] == dk[..m][j];
      } else {
        BlockByte(H, pwd, salt, c, b, j);
        assert dk'[m..m + n][j - m] == F(H, pwd, salt, b, c)[..n][j - m];
      }
    }
  }

  lemma BlockByte(H: Hash, pwd: Bytes, salt: Bytes, c: nat, b: nat, j: nat)
    requires Valid(H) && c >= 1 && b >= 1 && Offset(b, H.digest) <= j < Offset(b, H.digest) + H.digest
    ensures DkByte(H, pwd, salt, c, j) == F(H, pwd, salt, b, c)[j - Offset(b, H.digest)]
  {
    InBlock(j, b, H.digest);
  }

  lemma InBlock(j: nat, b: nat, digest: nat)
    requires b >= 1 && Offset(b, digest) <= j < Offset(b, digest) + digest
    ensures j / digest == b - 1 && j % digest == j - Offset(b, digest)
  {
    OffsetProduct(b, digest);
    Euclid(j, j - Offset(b, digest), digest, b - 1);
  }

  /** derive_key_* (lines 457-547, 208-315): the first `dk.Length` bytes of PBKDF2, unless
      an abort is requested. */
  method DeriveKey(H: Hash, pwd: Bytes, salt: Bytes, iterations: nat, dk: array<bv8>, abort: AbortFlag, size: nat)
    requires Valid(H) && iterations >= 1 && dk.Length >= 1 && size >= H.block && |salt| + 4 <= size
    modifies dk, abort
    ensures abort.raised || forall j :: 0 <= j < dk.Length ==> dk[j] == F(H, pwd, salt, j / H.digest + 1, iterations)[j % H.digest]
    ensures !abort.enabled && !old(abort.raised) ==> !abort.raised
  {
    var m := new HmacContext(H, size);
    var l, r := Blocks(dk.Length, H.digest);
    m.Precompute(pwd);
    var b, at: nat := 1, 0;
    while b < l
      invariant 1 <= b <= l && at == Offset(b, H.digest) <= dk.Length
      invariant m.H == H && m.Fits() && m.Keyed(pwd) && m.k.Length == size && fresh(m.k) && fresh(m.u) && fresh(m)
      invariant Derived(dk[..], H, pwd, salt, iterations, at)
      invariant abort.raised ==> old(abort.raised) || abort.enabled
    {
      OffsetOrder(b, l, H.digest);
      var stop := NextBlock(m, salt, iterations, b, abort, pwd, dk, at, H.digest);
      if stop { return; }
      at := at + H.digest;
      b := b + 1;
    }
    var _ := NextBlock(m, salt, iterations, b, abort, pwd, dk, at, r);
    if !abort.raised {
      assert Derived(dk[..], H, pwd, salt, iterations, dk.Length);
      DerivedIs(dk[..], H, pwd, salt, iterations);
    }
  }

  lemma DerivedIs(dk: Bytes, H: Hash, pwd: Bytes, salt: Bytes, c: nat)
    requires Valid(H) && c >= 1 && Derived(dk, H, pwd, salt, c, |dk|)
    ensures forall j :: 0 <= j < |dk| ==> dk[j] == F(H, pwd, salt, j / H.digest + 1, c)[j % H.digest]
  {
    hide F;
  }

  /** Derive a block and copy `n` bytes of it, unless aborted (lines 524-528, 533-537). */
  method NextBlock(m: HmacContext, salt: Bytes, iterations: nat, b: nat, abort: AbortFlag, ghost pwd: Bytes,
                   dk: array<bv8>, at: nat, n: nat)
    returns (stop: bool)
    requires m.Fits() && m.Keyed(pwd) && |salt| + 4 <= m.k.Length && iterations >= 1 && dk != m.k && dk != m.u
    requires b >= 1 && at == Offset(b, m.H.digest) && n <= m.H.digest && at + n <= dk.Length
    requires Derived(dk[..], m.H, pwd, salt, iterations, at)
    modifies m`ctx, m.k, m.u, abort, dk
    ensures stop == abort.raised && (old(abort.raised) ==> abort.raised)
    ensures abort.raised ==> old(abort.raised) || abort.enabled
    ensures stop || Derived(dk[..], m.H, pwd, salt, iterations, at + n)
  {
    hide Derived, F;
    ghost var before := dk[..];
    DeriveU(m, salt, iterations, b, abort, pwd);
    stop := abort.Poll();
    if stop { return; }
    Store(dk, at, m.u[..n]);
    MoreDerived(before, dk[..], m.H, pwd, salt, iterations, b, n);
  }
}
