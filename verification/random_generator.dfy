/** Choosing a puzzle from a seed string (src/puzzles/random-generator.js). */
module RandomGenerator {
  import opened Text
  import opened Results

  const TwoTo31: int := 0x8000_0000
  const TwoTo32: int := 0x1_0000_0000

  /** JavaScript's ToInt32: the integer congruent to `x` modulo 2^32 in
      [-2^31, 2^31), as `x | 0` and the shift operators compute it. */
  function ToInt32(x: int): (r: int)
    ensures -TwoTo31 <= r < TwoTo31
    ensures (x - r) % TwoTo32 == 0
  {
    var m := x % TwoTo32;
    if m >= TwoTo31 then m - TwoTo32 else m
  }

  /** ToInt32 only depends on its argument modulo 2^32. */
  lemma ToInt32Congruent(x: int, y: int)
    requires (x - y) % TwoTo32 == 0
    ensures ToInt32(x) == ToInt32(y)
  {
    assert x % TwoTo32 == y % TwoTo32 by {
      var k := (x - y) / TwoTo32;
      assert x == y + k * TwoTo32;
    }
  }

  /** One step of the hash as the source writes it:
      `hash = (hash << 5) - hash + code; hash |= 0`. `<<` works on the 32-bit
      value, the subtraction and the addition on exact numbers. */
  function ShiftStep(h: int, code: int): int
  {
    ToInt32(ToInt32(h * 32) - h + code)
  }

  /** The same step as a multiplication: h := ToInt32(31 * h + code). */
  function MulStep(h: int, code: int): int
  {
    ToInt32(31 * h + code)
  }

  /** The shift form and the multiplication form agree. */
  lemma ShiftStepIsMulStep(h: int, code: int)
    ensures ShiftStep(h, code) == MulStep(h, code)
  {
    var s := ToInt32(h * 32);
    NegatedMultiple(h * 32 - s);
    assert (s - h + code) - (31 * h + code) == -(h * 32 - s);
    ToInt32Congruent(s - h + code, 31 * h + code);
  }

  /** The negation of a multiple of 2^32 is one. */
  lemma NegatedMultiple(a: int)
    requires a % TwoTo32 == 0
    ensures (-a) % TwoTo32 == 0
  {
    var k := a / TwoTo32;
    assert -a == (-k) * TwoTo32;
  }

  /** The hash of a sequence of code units, folded from the left from 0. */
  function Fold(units: seq<int>): (h: int)
    ensures -TwoTo31 <= h < TwoTo31
  {
    if |units| == 0 then 0 else MulStep(Fold(units[..|units| - 1]), units[|units| - 1])
  }

  /** `Math.abs`. */
  function Abs(x: int): nat
  {
    if x < 0 then -x else x
  }

  /** `hashSeed`: the absolute value of the fold over the UTF-16 code units
      of the seed. */
  function HashSeed(seed: string): (r: nat)
    ensures r <= TwoTo31
  {
    Abs(Fold(CodeUnits(seed)))
  }

  /** The loop of `hashSeed` as written, over `charCodeAt`. */
  method HashSeedLoop(seed: string) returns (r: nat)
    ensures r == HashSeed(seed)
  {
    var units := CodeUnits(seed);
    var hash := 0;
    var idx := 0;
    while idx < |units|
      invariant 0 <= idx <= |units|
      invariant hash == Fold(units[..idx])
    {
      ShiftStepIsMulStep(hash, units[idx]);
      hash := ToInt32(hash * 32) - hash + units[idx];
      hash := ToInt32(hash);
      assert units[..idx + 1][..idx] == units[..idx];
      idx := idx + 1;
    }
    assert units[..idx] == units;
    r := if hash < 0 then -hash else hash;
  }

  lemma ExampleUnits()
    ensures CodeUnits("xfjfxtf") == [120, 102, 106, 102, 120, 116, 102]
  {
    CodeUnitsBmp("xfjfxtf");
  }

  lemma ExampleFold()
    ensures Fold([120, 102, 106, 102, 120, 116, 102]) == -TwoTo31
  {
    var u: seq<int> := [120, 102, 106, 102, 120, 116, 102];
    assert u[..1][..0] == [];
    assert Fold(u[..1]) == 120;
    assert u[..2][..1] == u[..1];
    assert Fold(u[..2]) == 3822;
    assert u[..3][..2] == u[..2];
    assert Fold(u[..3]) == 118588;
    assert u[..4][..3] == u[..3];
    assert Fold(u[..4]) == 3676330;
    assert u[..5][..4] == u[..4];
    assert Fold(u[..5]) == 113966350;
    assert u[..6][..5] == u[..5];
    assert Fold(u[..6]) == -762010330;
    assert u[..6] == u[..|u| - 1];
  }

  /** The hash reaches 2^31: the fold of `xfjfxtf` is -2^31, whose absolute
      value does not fit a signed 32-bit integer. */
  lemma HashSeedReachesTwoTo31()
    ensures HashSeed("xfjfxtf") == TwoTo31
  {
    ExampleUnits();
    ExampleFold();
  }

  /** `pickPuzzleBySeed`: the puzzle at the seed's hash modulo the list
      length, or the error the source throws for an empty list. */
  function PickPuzzleBySeed<T>(puzzles: seq<T>, seed: string): (r: Result<T>)
    ensures |puzzles| == 0 <==> r == Err("No puzzles available")
    ensures r.Ok? ==> r.value == puzzles[HashSeed(seed) % |puzzles|]
    ensures r.Ok? ==> r.value in puzzles
  {
    if |puzzles| == 0 then Err("No puzzles available")
    else Ok(puzzles[HashSeed(seed) % |puzzles|])
  }
}
