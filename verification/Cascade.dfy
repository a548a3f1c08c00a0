/** Cascades of ciphers in Crypto.c: a zero-terminated list of ciphers that is walked
    forward to encrypt and backward to decrypt, with key schedules laid out one after
    the other. Ciphers in their mode of operation are arbitrary functions. */
module Cascade {
  type Byte(==, 0, !new)
  type Bytes = seq<Byte>

  /** Sizes, key schedules, and a cipher with its inverse: the arguments are the cipher,
      both key schedules, the number of the first data unit and the data. */
  datatype Suite = Suite(
    keySize: nat -> nat,
    size: nat -> nat,
    sched: (nat, Bytes) -> Option<Bytes>,
    enc: (nat, Bytes, Bytes, nat, Bytes) -> Bytes,
    dec: (nat, Bytes, Bytes, nat, Bytes) -> Bytes)

  datatype Option<+T> = None | Some(value: T)

  /** Schedules have their size, and data is processed in place. */
  ghost predicate Sized(S: Suite) {
    && (forall c, key :: S.sched(c, key).Some? ==> |S.sched(c, key).value| == S.size(c))
    && (forall c, ks, ks2, u, m :: |S.enc(c, ks, ks2, u, m)| == |m|)
    && (forall c, ks, ks2, u, m :: |S.dec(c, ks, ks2, u, m)| == |m|)
  }

  /** The bytes are what CipherInit makes of some key of the cipher. (For AES they hold two
      schedules, one for each direction, so that other bytes need not make it invertible.) */
  ghost predicate Expanded(S: Suite, c: nat, ks: Bytes) {
    exists key :: |key| == S.keySize(c) && S.sched(c, key) == Some(ks)
  }

  /** Both directions of a cipher are inverse to each other on these arguments. */
  predicate Inverse(S: Suite, c: nat, ks: Bytes, ks2: Bytes, u: nat, m: Bytes) {
    && S.dec(c, ks, ks2, u, S.enc(c, ks, ks2, u, m)) == m
    && S.enc(c, ks, ks2, u, S.dec(c, ks, ks2, u, m)) == m
  }

  /** Data that callers may pass: a whole number of cipher blocks (lines 910, 992). */
  predicate Blocks(m: Bytes) { |m| % 16 == 0 }

  /** Each cipher inverts itself on whole blocks, with schedules made from keys. */
  ghost predicate Invertible(S: Suite) {
    forall c, ks, ks2, u, m :: Expanded(S, c, ks) && Expanded(S, c, ks2) && Blocks(m) ==> Inverse(S, c, ks, ks2, u, m)
  }

  /** A list of `n` distinct ciphers, ended by zero. */
  predicate Listed(list: seq<nat>, n: nat) {
    && 1 <= n < |list| && list[n] == 0
    && (forall i :: 0 <= i < n ==> list[i] != 0)
    && (forall i, j :: 0 <= i < j < n ==> list[i] != list[j])
  }

  // ----- walking the list -----

  /** EAGetFirstCipher (lines 664-667) */
  method GetFirst(list: seq<nat>, ghost n: nat) returns (c: nat)
    requires Listed(list, n)
    ensures c == list[0]
  {
    c := list[0];
  }

  /** EAGetLastCipher (lines 670-676) */
  method GetLast(list: seq<nat>, ghost n: nat) returns (c: nat)
    requires Listed(list, n)
    ensures c == list[n - 1]
  {
    var i := 1;
    c := list[0];
    while c != 0
      invariant 1 <= i <= n + 1 && c == list[i - 1]
      decreases n + 1 - i
    {
      c := list[i];
      i := i + 1;
    }
    c := list[i - 2];
  }

  /** EAGetNextCipher (lines 679-689): the cipher after `previous`, or zero. */
  method GetNext(list: seq<nat>, previous: nat, ghost n: nat) returns (next: nat)
    requires Listed(list, n)
    ensures forall k :: 0 <= k < n && list[k] == previous ==> next == list[k + 1]
    ensures (forall k :: 0 <= k < n ==> list[k] != previous) ==> next == 0
  {
    var i := 1;
    var c := list[0];
    while c != 0
      invariant 1 <= i <= n + 1 && c == list[i - 1]
      invariant forall k :: 0 <= k < i - 1 ==> list[k] != previous
      decreases n + 1 - i
    {
      if c == previous { return list[i]; }
      c := list[i];
      i := i + 1;
    }
    next := 0;
  }

  /** EAGetPreviousCipher (lines 692-706): the cipher before `previous`, or zero. */
  method GetPrevious(list: seq<nat>, previous: nat, ghost n: nat) returns (prior: nat)
    requires Listed(list, n)
    ensures forall k :: 0 <= k < n && list[k] == previous ==> prior == if k == 0 then 0 else list[k - 1]
    ensures (forall k :: 0 <= k < n ==> list[k] != previous) ==> prior == 0
  {
    if list[0] == previous { return 0; }
    var i := 2;
    var c := list[1];
    while c != 0
      invariant 2 <= i <= n + 1 && c == list[i - 1]
      invariant forall k :: 0 <= k < i - 1 ==> list[k] != previous
      decreases n + 1 - i
    {
      if c == previous { return list[i - 2]; }
      c := list[i];
      i := i + 1;
    }
    prior := 0;
  }

  // ----- where key schedules lie -----

  /** The bytes that the first `i` ciphers take, by the given sizes. */
  function Off(size: nat -> nat, list: seq<nat>, i: nat): nat
    requires i <= |list|
  {
    if i == 0 then 0 else Off(size, list, i - 1) + size(list[i - 1])
  }

  lemma {:induction false} OffOrder(size: nat -> nat, list: seq<nat>, i: nat, j: nat)
    requires i <= j <= |list|
    ensures Off(size, list, i) <= Off(size, list, j)
  {
    if i < j { OffOrder(size, list, i, j - 1); }
  }

  /** The key schedules of different ciphers never overlap. */
  lemma {:induction false} Disjoint(size: nat -> nat, list: seq<nat>, i: nat, j: nat)
    requires i < j < |list|
    ensures Off(size, list, i) + size(list[i]) <= Off(size, list, j)
  {
    assert Off(size, list, i + 1) == Off(size, list, i) + size(list[i]);
    OffOrder(size, list, i + 1, j);
  }

  /** EAGetKeyScheduleSize (lines 638-649) */
  method GetScheduleSize(S: Suite, list: seq<nat>, ghost n: nat) returns (size: nat)
    requires Listed(list, n)
    ensures size == Off(S.size, list, n)
  {
    var i := GetFirst(list, n);
    size := S.size(i);
    ghost var k := 0;
    assert Off(S.size, list, 1) == Off(S.size, list, 0) + S.size(list[0]);
    i := GetNext(list, i, n);
    while i != 0
      invariant k < n && i == list[k + 1] && size == Off(S.size, list, k + 1)
      decreases n - k
    {
      size := size + S.size(i);
      k := k + 1;
      i := GetNext(list, i, n);
    }
  }

  /** The slice of cipher `k`. */
  function Slice(S: Suite, list: seq<nat>, ks: Bytes, k: nat): Bytes
    requires k < |list| && Off(S.size, list, k + 1) <= |ks|
  {
    ks[Off(S.size, list, k)..Off(S.size, list, k) + S.size(list[k])]
  }

  /** The part of the key for cipher `k`. */
  function KeyPart(S: Suite, list: seq<nat>, key: Bytes, k: nat): Bytes
    requires k < |list| && Off(S.keySize, list, k + 1) <= |key|
  {
    key[Off(S.keySize, list, k)..Off(S.keySize, list, k) + S.keySize(list[k])]
  }

  function Parts(S: Suite, list: seq<nat>, key: Bytes, i: nat): Bytes
    requires i <= |list| && Off(S.keySize, list, i) <= |key|
  {
    if i == 0 then []
    else
      OffOrder(S.keySize, list, i - 1, i);
      Parts(S, list, key, i - 1) + KeyPart(S, list, key, i - 1)
  }

  function Slices(S: Suite, list: seq<nat>, ks: Bytes, i: nat): Bytes
    requires i <= |list| && Off(S.size, list, i) <= |ks|
  {
    if i == 0 then []
    else
      OffOrder(S.size, list, i - 1, i);
      Slices(S, list, ks, i - 1) + Slice(S, list, ks, i - 1)
  }

  /** The parts of the key have the key sizes of the ciphers and follow one another from
      the start of the key on, and so do the slices of the key schedules. */
  lemma {:induction false} Tiled(S: Suite, list: seq<nat>, key: Bytes, ks: Bytes, i: nat)
    requires i <= |list| && Off(S.keySize, list, i) <= |key| && Off(S.size, list, i) <= |ks|
    ensures Parts(S, list, key, i) <= key && Slices(S, list, ks, i) <= ks
    ensures |Parts(S, list, key, i)| == Off(S.keySize, list, i) && |Slices(S, list, ks, i)| == Off(S.size, list, i)
    ensures i > 0 ==> Off(S.keySize, list, i - 1) <= |key| && Off(S.size, list, i - 1) <= |ks|
    ensures i > 0 ==> Parts(S, list, key, i) == Parts(S, list, key, i - 1) + KeyPart(S, list, key, i - 1)
    ensures i > 0 ==> Slices(S, list, ks, i) == Slices(S, list, ks, i - 1) + Slice(S, list, ks, i - 1)
    ensures i > 0 ==> |KeyPart(S, list, key, i - 1)| == S.keySize(list[i - 1]) && |Slice(S, list, ks, i - 1)| == S.size(list[i - 1])
    decreases i
  {
    if i > 0 {
      OffOrder(S.keySize, list, i - 1, i);
      OffOrder(S.size, list, i - 1, i);
      Tiled(S, list, key, ks, i - 1);
    }
  }

  /** The key schedule of cipher `k` is in place. */
  predicate Placed(S: Suite, list: seq<nat>, key: Bytes, ks: Bytes, k: nat)
    requires k < |list|
  {
    && Off(S.keySize, list, k + 1) <= |key| && Off(S.size, list, k + 1) <= |ks|
    && S.sched(list[k], KeyPart(S, list, key, k)) == Some(Slice(S, list, ks, k))
  }

  ghost predicate Scheduled(S: Suite, list: seq<nat>, key: Bytes, ks: Bytes, i: nat)
    requires i <= |list|
  {
    forall k :: 0 <= k < i ==> Placed(S, list, key, ks, k)
  }

  method Store(a: array<Byte>, at: nat, s: Bytes)
    requires at + |s| <= a.Length
    modifies a
    ensures a[..] == old(a[..at]) + s + old(a[at + |s|..])
  {
    forall i | 0 <= i < |s| { a[at + i] := s[i]; }
  }

  /** One more key schedule. */
  lemma MoreScheduled(S: Suite, list: seq<nat>, key: Bytes, ks: Bytes, ks': Bytes, i: nat)
    requires Sized(S) && i < |list| && Off(S.keySize, list, i + 1) <= |key| && Off(S.size, list, i + 1) <= |ks| == |ks'|
    requires Scheduled(S, list, key, ks, i) && ks'[..Off(S.size, list, i)] == ks[..Off(S.size, list, i)]
    requires S.sched(list[i], KeyPart(S, list, key, i)) == Some(Slice(S, list, ks', i))
    ensures Scheduled(S, list, key, ks', i + 1)
  {
    forall k | 0 <= k < i + 1 ensures Placed(S, list, key, ks', k) {
      if k < i {
        assert Placed(S, list, key, ks, k);
        SameSlice(S, list, ks, ks', k, i);
      }
    }
  }

  lemma SameSlice(S: Suite, list: seq<nat>, ks: Bytes, ks': Bytes, k: nat, i: nat)
    requires k < i <= |list| && Off(S.size, list, i) <= |ks| == |ks'|
    requires ks'[..Off(S.size, list, i)] == ks[..Off(S.size, list, i)]
    ensures Off(S.size, list, k + 1) <= |ks| && Slice(S, list, ks', k) == Slice(S, list, ks, k)
  {
    OffOrder(S.size, list, k + 1, i);
    var at, from := Off(S.size, list, i), Off(S.size, list, k);
    forall j | from <= j < from + S.size(list[k]) ensures ks'[j] == ks[j] { assert ks'[..at][j] == ks[..at][j]; }
  }

  /** EAInit (lines 469-492): lay out the key schedules; 0 on success. */
  method Init(S: Suite, list: seq<nat>, key: Bytes, ks: array<Byte>, ghost n: nat) returns (ret: nat)
    requires Sized(S) && Listed(list, n) && Off(S.keySize, list, n) <= |key| && Off(S.size, list, n) <= ks.Length
    modifies ks
    ensures ret == 0 ==> Scheduled(S, list, key, ks[..], n)
    ensures ret == 0 ==> ks[Off(S.size, list, n)..] == old(ks[Off(S.size, list, n)..])
    ensures ret != 0 ==> exists k :: 0 <= k < n && Off(S.keySize, list, k + 1) <= |key| && S.sched(list[k], KeyPart(S, list, key, k)).None?
  {
    var c := GetFirst(list, n);
    var at, kat: nat := 0, 0;
    ghost var i := 0;
    while c != 0
      invariant i <= n && c == list[i] && at == Off(S.size, list, i) && kat == Off(S.keySize, list, i)
      invariant at <= ks.Length && kat <= |key| && Scheduled(S, list, key, ks[..], i)
      invariant ks[at..] == old(ks[at..])
      decreases n - i
    {
      OffOrder(S.size, list, i + 1, n);
      OffOrder(S.keySize, list, i + 1, n);
      var schedule := S.sched(c, key[kat..kat + S.keySize(c)]);
      if schedule.None? {
        assert KeyPart(S, list, key, i) == key[kat..kat + S.keySize(c)];
        return 1;
      }
      ghost var before := ks[..];
      Store(ks, at, schedule.value);
      MoreScheduled(S, list, key, before, ks[..], i);
      at := at + S.size(c);
      kat := kat + S.keySize(c);
      i := i + 1;
      c := GetNext(list, c, n);
    }
    ret := 0;
  }

  // ----- encryption and decryption -----

  /** The first `i` ciphers, one after the other. */
  function Enciphered(S: Suite, list: seq<nat>, ks: Bytes, ks2: Bytes, u: nat, m: Bytes, i: nat): Bytes
    requires i <= |list| && Off(S.size, list, i) <= |ks| && Off(S.size, list, i) <= |ks2|
  {
    if i == 0 then m
    else
      OffOrder(S.size, list, i - 1, i);
      S.enc(list[i - 1], Slice(S, list, ks, i - 1), Slice(S, list, ks2, i - 1), u, Enciphered(S, list, ks, ks2, u, m, i - 1))
  }

  /** The inverses of the ciphers from the last of `n` down to cipher `i`. */
  function Deciphered(S: Suite, list: seq<nat>, ks: Bytes, ks2: Bytes, u: nat, m: Bytes, i: nat, n: nat): Bytes
    requires i <= n <= |list| && Off(S.size, list, n) <= |ks| && Off(S.size, list, n) <= |ks2|
    decreases n - i
  {
    if i == n then m
    else
      OffOrder(S.size, list, i + 1, n);
      S.dec(list[i], Slice(S, list, ks, i), Slice(S, list, ks2, i), u, Deciphered(S, list, ks, ks2, u, m, i + 1, n))
  }

  /** EncryptDataUnitsCurrentThread and EncryptBuffer (lines 957-987, 912-945). */
  method Encrypt(S: Suite, list: seq<nat>, ks: Bytes, ks2: Bytes, u: nat, buf: array<Byte>, ghost n: nat)
    requires Sized(S) && Listed(list, n) && Off(S.size, list, n) <= |ks| && Off(S.size, list, n) <= |ks2|
    requires buf.Length % 16 == 0
    modifies buf
    ensures buf[..] == Enciphered(S, list, ks, ks2, u, old(buf[..]), n)
  {
    var c := GetFirst(list, n);
    var at: nat := 0;
    ghost var i := 0;
    while c != 0
      invariant i <= n && c == list[i] && at == Off(S.size, list, i) <= |ks| && at <= |ks2|
      invariant buf[..] == Enciphered(S, list, ks, ks2, u, old(buf[..]), i)
      decreases n - i
    {
      OffOrder(S.size, list, i + 1, n);
      Store(buf, 0, S.enc(c, ks[at..at + S.size(c)], ks2[at..at + S.size(c)], u, buf[..]));
      at := at + S.size(c);
      i := i + 1;
      c := GetNext(list, c, n);
    }
  }

  /** DecryptDataUnitsCurrentThread and DecryptBuffer (lines 1038-1072, 994-1027). */
  method Decrypt(S: Suite, list: seq<nat>, ks: Bytes, ks2: Bytes, u: nat, buf: array<Byte>, ghost n: nat)
    requires Sized(S) && Listed(list, n) && Off(S.size, list, n) <= |ks| && Off(S.size, list, n) <= |ks2|
    requires buf.Length % 16 == 0
    modifies buf
    ensures buf[..] == Deciphered(S, list, ks, ks2, u, old(buf[..]), 0, n)
  {
    var at := GetScheduleSize(S, list, n);
    var c := GetLast(list, n);
    ghost var i: nat := n;     // cipher `i - 1` is next
    while c != 0
      invariant i <= n && c == (if i == 0 then 0 else list[i - 1]) && at == Off(S.size, list, i) <= |ks| && at <= |ks2|
      invariant buf[..] == Deciphered(S, list, ks, ks2, u, old(buf[..]), i, n)
      decreases i
    {
      at := at - S.size(c);
      Store(buf, 0, S.dec(c, ks[at..at + S.size(c)], ks2[at..at + S.size(c)], u, buf[..]));
      i := i - 1;
      c := GetPrevious(list, c, n);
    }
  }

  lemma {:induction false} EncipheredLength(S: Suite, list: seq<nat>, ks: Bytes, ks2: Bytes, u: nat, m: Bytes, i: nat)
    requires Sized(S) && i <= |list| && Off(S.size, list, i) <= |ks| && Off(S.size, list, i) <= |ks2|
    ensures |Enciphered(S, list, ks, ks2, u, m, i)| == |m|
  {
    if i > 0 {
      OffOrder(S.size, list, i - 1, i);
      EncipheredLength(S, list, ks, ks2, u, m, i - 1);
    }
  }

  lemma {:induction false} DecipheredLength(S: Suite, list: seq<nat>, ks: Bytes, ks2: Bytes, u: nat, m: Bytes, i: nat, n: nat)
    requires Sized(S) && i <= n <= |list| && Off(S.size, list, n) <= |ks| && Off(S.size, list, n) <= |ks2|
    ensures |Deciphered(S, list, ks, ks2, u, m, i, n)| == |m|
    decreases n - i
  {
    if i < n {
      OffOrder(S.size, list, i + 1, n);
      DecipheredLength(S, list, ks, ks2, u, m, i + 1, n);
    }
  }

  /** EAInit left the schedules of cipher `i` in the slices that both walks take. */
  lemma OwnExpanded(S: Suite, list: seq<nat>, key: Bytes, ks: Bytes, i: nat, n: nat)
    requires i < n <= |list| && Scheduled(S, list, key, ks, n)
    ensures Off(S.size, list, i + 1) <= |ks| && Expanded(S, list[i], Slice(S, list, ks, i))
  {
    assert Placed(S, list, key, ks, i);
    assert |KeyPart(S, list, key, i)| == S.keySize(list[i]);
  }

  /** Decryption undoes encryption: the backward walk meets the same ciphers with the
      same key schedules, which EAInit made from both keys. */
  lemma {:induction false} DecryptEncrypted(S: Suite, list: seq<nat>, key: Bytes, key2: Bytes, ks: Bytes, ks2: Bytes, u: nat, m: Bytes, i: nat, n: nat)
    requires Sized(S) && Invertible(S) && i <= n <= |list| && Off(S.size, list, n) <= |ks| && Off(S.size, list, n) <= |ks2|
    requires Scheduled(S, list, key, ks, n) && Scheduled(S, list, key2, ks2, n) && Blocks(m)
    ensures Off(S.size, list, i) <= Off(S.size, list, n)
    ensures Deciphered(S, list, ks, ks2, u, Enciphered(S, list, ks, ks2, u, m, n), i, n) == Enciphered(S, list, ks, ks2, u, m, i)
    decreases n - i
  {
    OffOrder(S.size, list, i, n);
    if i < n {
      OffOrder(S.size, list, i + 1, n);
      DecryptEncrypted(S, list, key, key2, ks, ks2, u, m, i + 1, n);
      OwnExpanded(S, list, key, ks, i, n);
      OwnExpanded(S, list, key2, ks2, i, n);
      EncipheredLength(S, list, ks, ks2, u, m, i);
      assert Inverse(S, list[i], Slice(S, list, ks, i), Slice(S, list, ks2, i), u, Enciphered(S, list, ks, ks2, u, m, i));
    }
  }

  lemma {:induction false} EncryptDecrypted(S: Suite, list: seq<nat>, key: Bytes, key2: Bytes, ks: Bytes, ks2: Bytes, u: nat, m: Bytes, i: nat, n: nat)
    requires Sized(S) && Invertible(S) && i <= n <= |list| && Off(S.size, list, n) <= |ks| && Off(S.size, list, n) <= |ks2|
    requires Scheduled(S, list, key, ks, n) && Scheduled(S, list, key2, ks2, n) && Blocks(m)
    ensures Off(S.size, list, i) <= Off(S.size, list, n)
    ensures Enciphered(S, list, ks, ks2, u, Deciphered(S, list, ks, ks2, u, m, 0, n), i) == Deciphered(S, list, ks, ks2, u, m, i, n)
    decreases i
  {
    OffOrder(S.size, list, i, n);
    if i > 0 {
      OffOrder(S.size, list, i - 1, i);
      EncryptDecrypted(S, list, key, key2, ks, ks2, u, m, i - 1, n);
      OwnExpanded(S, list, key, ks, i - 1, n);
      OwnExpanded(S, list, key2, ks2, i - 1, n);
      DecipheredLength(S, list, ks, ks2, u, m, i, n);
      assert Inverse(S, list[i - 1], Slice(S, list, ks, i - 1), Slice(S, list, ks2, i - 1), u, Deciphered(S, list, ks, ks2, u, m, i, n));
    }
  }

  /** A buffer that is encrypted and decrypted with what EAInit made of both keys is
      what it was. */
  method RoundTrip(S: Suite, list: seq<nat>, key: Bytes, key2: Bytes, ks: array<Byte>, ks2: array<Byte>, u: nat, buf: array<Byte>,
                   ghost n: nat)
    returns (ret: nat)
    requires Sized(S) && Invertible(S) && Listed(list, n) && Off(S.keySize, list, n) <= |key| && Off(S.keySize, list, n) <= |key2|
    requires Off(S.size, list, n) <= ks.Length && Off(S.size, list, n) <= ks2.Length && ks != ks2 && buf != ks && buf != ks2
    requires buf.Length % 16 == 0
    modifies ks, ks2, buf
    ensures buf[..] == old(buf[..])
  {
    ret := Init(S, list, key, ks, n);
    if ret == 0 { ret := Init(S, list, key2, ks2, n); }
    if ret == 0 {
      Encrypt(S, list, ks[..], ks2[..], u, buf, n);
      Decrypt(S, list, ks[..], ks2[..], u, buf, n);
      DecryptEncrypted(S, list, key, key2, ks[..], ks2[..], u, old(buf[..]), 0, n);
    }
  }

  /** With key schedules made by EAInit, each cipher works with the schedule of its own
      part of each key. */
  lemma OwnSchedules(S: Suite, list: seq<nat>, key: Bytes, key2: Bytes, ks: Bytes, ks2: Bytes, u: nat, m: Bytes, i: nat, n: nat)
    requires Sized(S) && i < n <= |list| && Off(S.keySize, list, n) <= |key| && Off(S.keySize, list, n) <= |key2|
    requires Off(S.size, list, n) <= |ks| && Off(S.size, list, n) <= |ks2|
    requires Scheduled(S, list, key, ks, n) && Scheduled(S, list, key2, ks2, n)
    ensures Off(S.keySize, list, i + 1) <= Off(S.keySize, list, n) && Off(S.size, list, i + 1) <= Off(S.size, list, n)
    ensures Off(S.size, list, i) <= Off(S.size, list, n)
    ensures S.sched(list[i], KeyPart(S, list, key, i)).Some? && S.sched(list[i], KeyPart(S, list, key2, i)).Some?
    ensures Enciphered(S, list, ks, ks2, u, m, i + 1) ==
            S.enc(list[i], S.sched(list[i], KeyPart(S, list, key, i)).value, S.sched(list[i], KeyPart(S, list, key2, i)).value,
                  u, Enciphered(S, list, ks, ks2, u, m, i))
    ensures Deciphered(S, list, ks, ks2, u, m, i, n) ==
            S.dec(list[i], S.sched(list[i], KeyPart(S, list, key, i)).value, S.sched(list[i], KeyPart(S, list, key2, i)).value,
                  u, Deciphered(S, list, ks, ks2, u, m, i + 1, n))
    ensures Enciphered(S, list, ks, ks2, u, m, 0) == m == Deciphered(S, list, ks, ks2, u, m, n, n)
  {
    OffOrder(S.keySize, list, i + 1, n);
    OffOrder(S.size, list, i + 1, n);
    OffOrder(S.size, list, i, n);
    assert Placed(S, list, key, ks, i) && Placed(S, list, key2, ks2, i);
  }
}
