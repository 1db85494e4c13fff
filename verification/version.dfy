/**
 API and schema version numbers: three components packed into one 64-bit word whose numeric
 order is the order of versions, and the compatibility check on packed numbers.

 Words are natural numbers below 2^64. Masking the low b bits is taking the remainder by 2^b,
 a shift by s is a multiplication or division by 2^s, and the disjunction of fields that share
 no bit is their sum.
 */
module Version {
  const WORD: nat := 0x1_0000_0000_0000_0000
  const SIGN: nat := 0x8000_0000_0000_0000      // bit 63, unused
  const MAJORS: nat := 0x8_0000                 // 19 bits, from bit 44 on
  const MINORS: nat := 0x10_0000                // 20 bits, from bit 24 on
  const PATCHES: nat := 0x100_0000              // 24 bits, from bit 0 on
  const MAJOR_UNIT: nat := 0x1000_0000_0000
  const MINOR_UNIT: nat := 0x100_0000

  // PPM_VERSION_PACK and PPM_VERSION_UNPACK, for a field of `range` values in units of `unit`.
  function Pack(val: nat, range: nat, unit: nat): nat
    requires range > 0
  {
    val % range * unit
  }

  function Unpack(val: nat, range: nat, unit: nat): nat
    requires range > 0 && unit > 0
  {
    val / unit % range
  }

  // PPM_API_VERSION
  function Version(major: nat, minor: nat, patch: nat): nat {
    Pack(major, MAJORS, MAJOR_UNIT) + Pack(minor, MINORS, MINOR_UNIT) + Pack(patch, PATCHES, 1)
  }

  function Major(v: nat): nat { Unpack(v, MAJORS, MAJOR_UNIT) }
  function Minor(v: nat): nat { Unpack(v, MINORS, MINOR_UNIT) }
  function Patch(v: nat): nat { Unpack(v, PATCHES, 1) }

  predicate InRange(major: nat, minor: nat, patch: nat) {
    major < MAJORS && minor < MINORS && patch < PATCHES
  }

  // Packing and extracting are mutual inverses on in-range components and on words with bit 63
  // clear; whatever is packed, bit 63 is clear.
  lemma PackExtract(major: nat, minor: nat, patch: nat)
    ensures Version(major, minor, patch) < SIGN
    ensures var v := Version(major, minor, patch);
            Major(v) == major && Minor(v) == minor && Patch(v) == patch <==> InRange(major, minor, patch)
  {
    var a, b, c := major % MAJORS, minor % MINORS, patch % PATCHES;
    Fields(a, b, c);
    assert Version(major, minor, patch) == a * MAJOR_UNIT + b * MINOR_UNIT + c;
  }

  // Fields in range are found again where they were put.
  lemma Fields(a: nat, b: nat, c: nat)
    requires InRange(a, b, c)
    ensures var v := a * MAJOR_UNIT + b * MINOR_UNIT + c;
            Major(v) == a && Minor(v) == b && Patch(v) == c && v < SIGN
  {
  }

  lemma ExtractPack(v: nat)
    requires v < WORD
    ensures InRange(Major(v), Minor(v), Patch(v))
    ensures Version(Major(v), Minor(v), Patch(v)) == v <==> v < SIGN
  {
    var a, b, c := v / MAJOR_UNIT, v / MINOR_UNIT % MINORS, v % PATCHES;
    Digits(v, a, b, c);
    assert Version(Major(v), Minor(v), Patch(v)) == a % MAJORS * MAJOR_UNIT + b * MINOR_UNIT + c;
    assert a < MAJORS ==> a % MAJORS == a;
  }

  lemma Digits(v: nat, a: nat, b: nat, c: nat)
    requires a == v / MAJOR_UNIT && b == v / MINOR_UNIT % MINORS && c == v % PATCHES
    ensures v == a * MAJOR_UNIT + b * MINOR_UNIT + c && b < MINORS && c < PATCHES
  {
  }

  predicate LexLess(a: (nat, nat, nat), b: (nat, nat, nat)) {
    a.0 < b.0 || (a.0 == b.0 && (a.1 < b.1 || (a.1 == b.1 && a.2 < b.2)))
  }

  // Comparing packed numbers is comparing (major, minor, patch), as section 11 of Semantic
  // Versioning 2.0.0 orders plain versions.
  lemma OrderPreserved(a: (nat, nat, nat), b: (nat, nat, nat))
    requires InRange(a.0, a.1, a.2) && InRange(b.0, b.1, b.2)
    ensures Version(a.0, a.1, a.2) < Version(b.0, b.1, b.2) <==> LexLess(a, b)
  {
  }

  // scap_apply_semver_check on extracted components, as scap_is_api_compatible calls it.
  predicate Compatible(driver: nat, required: nat) {
    if Major(driver) != Major(required) then false
    else if Minor(driver) < Minor(required) then false
    else if Minor(driver) == Minor(required) && Patch(driver) < Patch(required) then false
    else true
  }

  // A driver is compatible exactly if it has the required major version and its packed number is
  // not lower.
  lemma CompatibleIsAtLeast(driver: nat, required: nat)
    requires driver < SIGN && required < SIGN
    ensures Compatible(driver, required) <==> Major(driver) == Major(required) && driver >= required
  {
    ExtractPack(driver);
    ExtractPack(required);
    OrderPreserved((Major(driver), Minor(driver), Patch(driver)), (Major(required), Minor(required), Patch(required)));
  }
}
