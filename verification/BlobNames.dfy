/** The names of blob files: a ULID is printed as 26 letters in base 32, a number in decimal. */
module BlobNames {
  import opened Wrappers
  import opened Positional
  import opened Keys

  const ULID_LENGTH: nat := 26

  /** Crockford's base 32: the letters I, L, O and U are left out. */
  function Letter(d: int): (b: Byte)
    requires 0 <= d < 32
  {
    if d < 10 then 48 + d
    else if d < 18 then 55 + d
    else if d < 20 then 56 + d
    else if d < 22 then 57 + d
    else if d < 27 then 58 + d
    else 59 + d
  }

  function Spell(ds: seq<int>): (r: Bytes)
    requires Digits(32, ds)
    ensures |r| == |ds| && forall i :: 0 <= i < |r| ==> r[i] == Letter(ds[i])
  {
    seq(|ds|, i requires 0 <= i < |ds| => Letter(ds[i]))
  }

  /** `format!("{}", ulid)` */
  function UlidName(u: Ulid): Bytes
  {
    Spell(Fixed(32, ULID_LENGTH, u))
  }

  function DecimalDigits(n: nat): (ds: seq<int>)
    ensures |ds| == Width(n) && Digits(32, ds)
  {
    Fixed(10, Width(n), n)
  }

  /** `format!("{}", ulid.0)` */
  function NumberName(n: nat): Bytes
  {
    Spell(DecimalDigits(n))
  }

  /** The blob file that a decimal number happens to name. */
  function FileOfNumber(n: nat): Option<Ulid>
  {
    var ds := DecimalDigits(n);
    if |ds| == ULID_LENGTH && 0 <= Value(32, ds) < U64_LIMIT * U64_LIMIT then Some(Value(32, ds)) else None
  }

  lemma SpellInjective(a: seq<int>, b: seq<int>)
    requires Digits(32, a) && Digits(32, b)
    ensures Spell(a) == Spell(b) <==> a == b
  {
    if Spell(a) == Spell(b) {
      assert |a| == |b|;
      forall i | 0 <= i < |a|
        ensures a[i] == b[i]
      {
        assert Letter(a[i]) == Spell(a)[i] == Spell(b)[i] == Letter(b[i]);
      }
    }
  }

  lemma UlidsFit(u: Ulid)
    ensures u < Pow(32, ULID_LENGTH)
  {
    assert Pow(32, 5) == 0x200_0000;
    assert Pow(32, 10) == 32 * (32 * (32 * (32 * (32 * Pow(32, 5)))));
    assert Pow(32, 15) == 32 * (32 * (32 * (32 * (32 * Pow(32, 10)))));
    assert Pow(32, 20) == 32 * (32 * (32 * (32 * (32 * Pow(32, 15)))));
    assert Pow(32, 26) == 32 * (32 * (32 * (32 * (32 * (32 * Pow(32, 20))))));
  }

  /** No two ULIDs share a name, so a pool keyed by ULIDs is a pool of named files. */
  lemma UlidNameInjective(u: Ulid, v: Ulid)
    ensures UlidName(u) == UlidName(v) <==> u == v
  {
    SpellInjective(Fixed(32, ULID_LENGTH, u), Fixed(32, ULID_LENGTH, v));
    UlidsFit(u);
    UlidsFit(v);
    ValueOfFixed(32, ULID_LENGTH, u);
    ValueOfFixed(32, ULID_LENGTH, v);
  }

  /** Which blob file a number in decimal names. */
  lemma NumberNamesFileIff(n: nat, u: Ulid)
    ensures NumberName(n) == UlidName(u) <==> FileOfNumber(n) == Some(u)
  {
    var ds, us := DecimalDigits(n), Fixed(32, ULID_LENGTH, u);
    SpellInjective(ds, us);
    UlidsFit(u);
    ValueOfFixed(32, ULID_LENGTH, u);
    FixedOfValue(32, ds);
  }

  /** The alphabet, in order. */
  const ALPHABET := "0123456789ABCDEFGHJKMNPQRSTVWXYZ"

  lemma LettersAreTheAlphabet(d: nat)
    requires d < 32
    ensures |ALPHABET| == 32 && Letter(d) == ALPHABET[d] as int
  {
  }

  /** A ULID's name spells its 26 digits in base 32. */
  lemma UlidNameReads(u: Ulid) returns (ds: seq<nat>)
    ensures |ds| == |UlidName(u)| == 26 && Value(32, ds) == u
    ensures forall i :: 0 <= i < 26 ==> ds[i] < 32 && UlidName(u)[i] == Letter(ds[i])
  {
    UlidsFit(u);
    ValueOfFixed(32, ULID_LENGTH, u);
    ds := Fixed(32, ULID_LENGTH, u);
  }

  /** A number's name is its decimal digits, as many as it needs. */
  lemma NumberNameReads(n: nat) returns (ds: seq<nat>)
    ensures |ds| == |NumberName(n)| == Width(n) && Value(10, ds) == n
    ensures forall i :: 0 <= i < |ds| ==> ds[i] < 10 && NumberName(n)[i] == 48 + ds[i]
  {
    hide Value, Width;
    ValueOfFixed(10, Width(n), n);
    ds := Fixed(10, Width(n), n);
  }
}
