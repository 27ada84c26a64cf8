/** The byte keys of the object table: eight bytes of parent id, then the name. */
module Keys {
  import opened Positional

  const U64_LIMIT: int := 0x1_0000_0000_0000_0000

  type U64 = x: int | 0 <= x < U64_LIMIT
  type Byte = x: int | 0 <= x < 256
  type Bytes = seq<Byte>

  /** Blob names are ULIDs: 128-bit numbers. */
  type Ulid = x: int | 0 <= x < U64_LIMIT * U64_LIMIT

  /** The byte order of the machine the server runs on. */
  datatype Host = BigEndian | LittleEndian

  lemma PowersOf256()
    ensures Pow(256, 8) == U64_LIMIT
    ensures Pow(256, 16) == U64_LIMIT * U64_LIMIT
  {
    assert Pow(256, 4) == 0x1_0000_0000;
    assert Pow(256, 8) == 256 * (256 * (256 * (256 * Pow(256, 4))));
    assert Pow(256, 12) == 256 * (256 * (256 * (256 * Pow(256, 8))));
    assert Pow(256, 16) == 256 * (256 * (256 * (256 * Pow(256, 12))));
  }

  function FixedBytes(width: nat, n: nat): (bs: Bytes)
    ensures |bs| == width && bs == Fixed(256, width, n)
  {
    Fixed(256, width, n)
  }

  /** `to_be_bytes` */
  function Be(n: U64): (bs: Bytes)
    ensures |bs| == 8
  {
    FixedBytes(8, n)
  }

  /** `from_be_bytes` on the first eight bytes */
  function FromBe(bs: Bytes): (n: U64)
    requires |bs| >= 8
  {
    ValueBound(256, bs[..8]); PowersOf256();
    Value(256, bs[..8])
  }

  function Reversed(bs: Bytes): (r: Bytes)
    ensures |r| == |bs| && forall i :: 0 <= i < |r| ==> r[i] == bs[|bs| - 1 - i]
  {
    seq(|bs|, i requires 0 <= i < |bs| => bs[|bs| - 1 - i])
  }

  /** How an id lies in the memory of a record. */
  function NativeBytes(host: Host, n: U64): (bs: Bytes)
    ensures |bs| == 8
  {
    if host.BigEndian? then Be(n) else Reversed(Be(n))
  }

  /** The id under which the children of a folder are keyed: written in native order into the
      folder's record, read back as big-endian. */
  function KeyId(host: Host, id: U64): (k: U64)
  {
    FromBe(NativeBytes(host, id))
  }

  function MakeKey(parent: U64, name: Bytes): (key: Bytes)
    ensures |key| == 8 + |name|
  {
    Be(parent) + name
  }

  lemma BeRoundTrip(n: U64)
    ensures FromBe(Be(n)) == n
  {
    PowersOf256();
    ValueOfFixed(256, 8, n);
    assert Be(n)[..8] == Be(n);
  }

  /** A key names one parent and one name, whatever bytes the name holds. */
  lemma MakeKeyInjective(p: U64, n: Bytes, q: U64, m: Bytes)
    ensures MakeKey(p, n) == MakeKey(q, m) <==> p == q && n == m
  {
    MakeKeyParts(p, n);
    MakeKeyParts(q, m);
  }

  lemma MakeKeyParts(p: U64, n: Bytes)
    ensures FromBe(MakeKey(p, n)) == p && MakeKey(p, n)[8..] == n
  {
    BeRoundTrip(p);
    assert MakeKey(p, n)[..8] == Be(p) == Be(p)[..8];
  }

  /** Every key of at least eight bytes was made from the parent and name it splits into. */
  lemma MakeKeyOnto(key: Bytes)
    requires |key| >= 8
    ensures MakeKey(FromBe(key), key[8..]) == key
  {
    FixedOfValue(256, key[..8]);
  }

  /** The detour through native byte order is an involution, so it is injective on either kind
      of host, and it leaves the root's id alone. */
  lemma KeyIdInvolution(host: Host, id: U64)
    ensures KeyId(host, KeyId(host, id)) == id
  {
    BeRoundTrip(id);
    if host.LittleEndian? {
      var r := Reversed(Be(id));
      FixedOfValue(256, r);
      assert r[..8] == r;
      assert Reversed(r) == Be(id);
    } else {
      BeRoundTrip(KeyId(host, id));
    }
  }

  lemma KeyIdInjective(host: Host, a: U64, b: U64)
    ensures KeyId(host, a) == KeyId(host, b) <==> a == b
  {
    KeyIdInvolution(host, a);
    KeyIdInvolution(host, b);
  }

  lemma KeyIdOfRoot(host: Host)
    ensures KeyId(host, 0) == 0
  {
    BeRoundTrip(0);
    assert Fixed(256, 4, 0) == [0, 0, 0, 0];
    assert Fixed(256, 8, 0) == Fixed(256, 4, 0) + [0, 0, 0, 0];
    assert Reversed(Be(0)) == Be(0);
  }

  /** And the last number, all of whose bytes are 255. */
  lemma KeyIdOfMax(host: Host)
    ensures KeyId(host, U64_LIMIT - 1) == U64_LIMIT - 1
  {
    var last: Bytes := [255, 255, 255, 255, 255, 255, 255, 255];
    AllLastDigits(256, last);
    PowersOf256();
    FixedOfValue(256, last);
    assert Be(U64_LIMIT - 1) == last == Reversed(last);
    BeRoundTrip(U64_LIMIT - 1);
  }

  /** On a little-endian host the eight bytes change places; on a big-endian one they stay. */
  lemma KeyIdBytes(host: Host, id: U64)
    ensures Be(KeyId(host, id)) == if host.LittleEndian? then Reversed(Be(id)) else Be(id)
  {
    FixedOfValue(256, NativeBytes(host, id));
    assert NativeBytes(host, id)[..8] == NativeBytes(host, id);
  }

  /** Big-endian: the least significant byte comes last. */
  lemma BeOfOne()
    ensures Be(1) == [0, 0, 0, 0, 0, 0, 0, 1]
  {
    var zeros: Bytes := [0, 0, 0, 0, 0, 0, 0];
    AllZeros(256, zeros);
    ValueSnoc(256, zeros, 1);
    FixedOfValue(256, zeros + [1]);
  }

  /** Sixteen token bytes name a blob, and the bytes handed out for a blob name it again. */
  function TokenBytes(u: Ulid): (bs: Bytes)
    ensures |bs| == 16
  {
    FixedBytes(16, u)
  }

  function TokenUlid(bs: Bytes): (u: Ulid)
    requires |bs| == 16
  {
    ValueBound(256, bs); PowersOf256();
    Value(256, bs)
  }

  lemma TokenRoundTrip(u: Ulid)
    ensures TokenUlid(TokenBytes(u)) == u
  {
    PowersOf256();
    ValueOfFixed(256, 16, u);
  }

  lemma TokenOnto(bs: Bytes)
    requires |bs| == 16
    ensures TokenBytes(TokenUlid(bs)) == bs
  {
    FixedOfValue(256, bs);
  }

  /** Token bytes are big-endian too. */
  lemma TokenOfOne()
    ensures TokenBytes(1) == [0, 0, 0, 0, 0, 0, 0, 0, 0, 0, 0, 0, 0, 0, 0, 1]
  {
    var zeros: Bytes := [0, 0, 0, 0, 0, 0, 0, 0, 0, 0, 0, 0, 0, 0, 0];
    AllZeros(256, zeros);
    ValueSnoc(256, zeros, 1);
    FixedOfValue(256, zeros + [1]);
  }

  /** The half-open scan range that lists a folder. */
  predicate InRange(p: U64, key: Bytes)
    requires p + 1 < U64_LIMIT
  {
    LexLeq(Be(p), key) && LexLess(key, Be(p + 1))
  }

  /** The scan range from be(p) to be(p + 1) holds exactly the keys whose parent is p: no key of
      a grandchild, and none of a neighbour. */
  lemma RangeIsChildren(p: U64, key: Bytes)
    requires p + 1 < U64_LIMIT && |key| >= 8
    ensures InRange(p, key) <==> FromBe(key) == p
  {
    LexLessOnPrefix(Be(p), key);
    LexLessOnPrefix(Be(p + 1), key);
    BeRoundTrip(p);
    BeRoundTrip(p + 1);
    assert Be(p)[..8] == Be(p) && Be(p + 1)[..8] == Be(p + 1);
    OrderAgrees(256, Be(p), key[..8]);
    OrderAgrees(256, key[..8], Be(p + 1));
  }
}
