/** The seeded 32-bit FNV-1a hash that orders candidates in the puzzle build
    (`hashString` in tools/build-puzzles.mjs). The source works on
    JavaScript numbers: `^=` and `Math.imul` act on the 32-bit pattern and
    `>>> 0` reads it back as unsigned, so the model computes on `bv32`
    throughout. */
module Fnv {
  import opened Text

  const OffsetBasis: bv32 := 0x811C_9DC5
  const Prime: bv32 := 0x0100_0193

  /** `Math.imul(h, Prime)`: the product modulo 2^32. */
  function MulPrime(h: bv32): bv32
  {
    h * Prime
  }

  /** `h ^= unit`. */
  function Xor(h: bv32, unit: int): bv32
    requires 0 <= unit < 0x1_0000
  {
    h ^ (unit as bv32)
  }

  /** One round: xor in a UTF-16 code unit, then multiply by the prime. */
  function Step(h: bv32, unit: int): bv32
    requires 0 <= unit < 0x1_0000
  {
    MulPrime(Xor(h, unit))
  }

  predicate IsCodeUnits(units: seq<int>)
  {
    forall k :: 0 <= k < |units| ==> 0 <= units[k] < 0x1_0000
  }

  /** The rounds over `units`, from the state `h`. */
  function HashFrom(h: bv32, units: seq<int>): bv32
    requires IsCodeUnits(units)
  {
    if |units| == 0 then h else Step(HashFrom(h, units[..|units| - 1]), units[|units| - 1])
  }

  /** `hashString`: the hash of the string's UTF-16 code units. */
  function HashString(s: string): (r: bv32)
    ensures |s| == 0 ==> r == OffsetBasis
  {
    HashFrom(OffsetBasis, CodeUnits(s))
  }

  /** Hashing a concatenation continues from the hash of the first part. */
  lemma {:induction false} HashFromConcat(h: bv32, a: seq<int>, b: seq<int>)
    requires IsCodeUnits(a) && IsCodeUnits(b)
    ensures IsCodeUnits(a + b)
    ensures HashFrom(h, a + b) == HashFrom(HashFrom(h, a), b)
  {
    if |b| > 0 {
      assert (a + b)[..|a + b| - 1] == a + b[..|b| - 1];
      HashFromConcat(h, a, b[..|b| - 1]);
    } else {
      assert a + b == a;
    }
  }

  /** The hash of `a + b` is the hash of `b` started from the hash of `a`. */
  lemma HashStringConcat(a: string, b: string)
    ensures HashString(a + b) == HashFrom(HashString(a), CodeUnits(b))
  {
    CodeUnitsConcat(a, b);
    HashFromConcat(OffsetBasis, CodeUnits(a), CodeUnits(b));
  }

  /** The loop of `hashString` as written. */
  method HashStringLoop(input: string) returns (r: bv32)
    ensures r == HashString(input)
  {
    var units := CodeUnits(input);
    var hash := OffsetBasis;
    var idx := 0;
    while idx < |units|
      invariant 0 <= idx <= |units|
      invariant hash == HashFrom(OffsetBasis, units[..idx])
    {
      assert units[..idx + 1][..idx] == units[..idx];
      hash := Xor(hash, units[idx]);
      hash := MulPrime(hash);
      idx := idx + 1;
    }
    assert units[..idx] == units;
    r := hash;
  }

  /** The published FNV-1a 32-bit test vectors. */
  lemma VectorEmpty()
    ensures HashString("") == 0x811C_9DC5
  {
  }

  lemma VectorA()
    ensures HashString("a") == 0xE40C_292C
  {
    CodeUnitsBmp("a");
    var a: seq<int> := [97];
    assert CodeUnits("a") == a;
    assert a[..0] == [];
  }

  lemma FoobarUnits()
    ensures CodeUnits("foobar") == [102, 111, 111, 98, 97, 114]
  {
    CodeUnitsBmp("foobar");
  }

  lemma FoobarRounds(u: seq<int>)
    requires u == [102, 111, 111, 98, 97, 114]
    ensures HashFrom(OffsetBasis, u) == 0xBF9C_F968
  {
    assert u[..1][..0] == [];
    assert Step(OffsetBasis, 102) == 0xE30C_2799;
    assert HashFrom(OffsetBasis, u[..1]) == 0xE30C_2799;
    assert u[..2][..1] == u[..1];
    assert Step(0xE30C_2799, 111) == 0x6222_E842;
    assert HashFrom(OffsetBasis, u[..2]) == 0x6222_E842;
    assert u[..3][..2] == u[..2];
    assert Step(0x6222_E842, 111) == 0xA9F3_7ED7;
    assert HashFrom(OffsetBasis, u[..3]) == 0xA9F3_7ED7;
    assert u[..4][..3] == u[..3];
    assert Step(0xA9F3_7ED7, 98) == 0x3F50_76EF;
    assert HashFrom(OffsetBasis, u[..4]) == 0x3F50_76EF;
    assert u[..5][..4] == u[..4];
    assert Step(0x3F50_76EF, 97) == 0x39AA_A18A;
    assert HashFrom(OffsetBasis, u[..5]) == 0x39AA_A18A;
    assert u[..5] == u[..|u| - 1];
    assert Step(0x39AA_A18A, 114) == 0xBF9C_F968;
  }

  lemma VectorFoobar()
    ensures HashString("foobar") == 0xBF9C_F968
  {
    FoobarUnits();
    FoobarRounds(CodeUnits("foobar"));
  }
}
