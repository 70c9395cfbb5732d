/** String operations the program takes from JavaScript's `String`:
    `trim`, `toLowerCase`, the `^[a-z]+$` test, the letter set of a word,
    UTF-16 code units (`charCodeAt`) and number formatting. */
module Text {
  import opened Seqs

  /** The characters `String.prototype.trim` removes: the ECMAScript
      WhiteSpace and LineTerminator code points. */
  predicate IsJsSpace(c: char)
  {
    var v := c as int;
    (0x09 <= v <= 0x0D) || v == 0x20 || v == 0xA0 || v == 0x1680
    || (0x2000 <= v <= 0x200A) || v == 0x2028 || v == 0x2029 || v == 0x202F
    || v == 0x205F || v == 0x3000 || v == 0xFEFF
  }

  ghost predicate AllSpace(s: string)
  {
    forall i :: 0 <= i < |s| ==> IsJsSpace(s[i])
  }

  /** The number of white-space characters `s` starts with. */
  function LeadingSpace(s: string): (i: nat)
    ensures i <= |s| && AllSpace(s[..i])
    ensures i < |s| ==> !IsJsSpace(s[i])
  {
    if |s| > 0 && IsJsSpace(s[0]) then
      var k := LeadingSpace(s[1..]);
      assert s[..k + 1] == [s[0]] + s[1..][..k];
      k + 1
    else 0
  }

  /** The length of `s` without its trailing white space. */
  function TrailingStart(s: string): (j: nat)
    ensures j <= |s| && AllSpace(s[j..])
    ensures j > 0 ==> !IsJsSpace(s[j - 1])
  {
    if |s| > 0 && IsJsSpace(s[|s| - 1]) then
      var k := TrailingStart(s[..|s| - 1]);
      assert s[k..] == s[..|s| - 1][k..] + [s[|s| - 1]];
      k
    else |s|
  }

  /** `String.prototype.trim`: `s` without the white space at either end. */
  function Trim(s: string): (r: string)
    ensures exists i, j :: 0 <= i <= j <= |s| && r == s[i..j] && AllSpace(s[..i]) && AllSpace(s[j..])
    ensures |r| > 0 ==> !IsJsSpace(r[0]) && !IsJsSpace(r[|r| - 1])
  {
    var i := LeadingSpace(s);
    var t := s[i..];
    var j := TrailingStart(t);
    assert t[j..] == s[i + j..];
    assert t[..j] == s[i..i + j];
    t[..j]
  }

  /** Trimming a string that neither starts nor ends with white space
      changes nothing. */
  lemma TrimUnspaced(s: string)
    requires |s| > 0 ==> !IsJsSpace(s[0]) && !IsJsSpace(s[|s| - 1])
    ensures Trim(s) == s
  {
    assert LeadingSpace(s) == 0;
    assert s[0..] == s;
    assert TrailingStart(s) == |s|;
  }

  /** `toLowerCase` on one character. Only the ASCII capitals and the
      Kelvin sign (U+212A, whose lower case is `k`) are mapped: they are the
      characters whose lower case falls in `a`-`z`, which is all that the
      letter checks downstream can observe. */
  function LowerChar(c: char): (r: char)
    ensures 'a' <= r <= 'z' <==> ('a' <= c <= 'z' || 'A' <= c <= 'Z' || c as int == 0x212A)
    ensures !('A' <= r <= 'Z')
  {
    if 'A' <= c <= 'Z' then (c as int + 32) as char
    else if c as int == 0x212A then 'k'
    else c
  }

  /** `String.prototype.toLowerCase`, character by character. */
  function Lower(s: string): (r: string)
    ensures |r| == |s|
    ensures forall i :: 0 <= i < |s| ==> r[i] == LowerChar(s[i])
  {
    if |s| == 0 then [] else [LowerChar(s[0])] + Lower(s[1..])
  }

  /** Lower-casing twice is lower-casing once. */
  lemma LowerIdempotent(s: string)
    ensures Lower(Lower(s)) == Lower(s)
  {
  }

  /** Lower-casing never turns a character into white space or back. */
  lemma LowerCharSpace(c: char)
    ensures IsJsSpace(LowerChar(c)) <==> IsJsSpace(c)
  {
  }

  predicate IsLowerLetter(c: char)
  {
    'a' <= c <= 'z'
  }

  /** The regular expression `^[a-z]+$`: non-empty, lower-case ASCII only. */
  predicate IsAlphaWord(s: string)
  {
    |s| > 0 && forall i :: 0 <= i < |s| ==> IsLowerLetter(s[i])
  }

  /** The distinct letters of a word (`new Set(word)` used for membership). */
  function LetterSet(s: string): set<char>
  {
    set c | c in s
  }

  /** The distinct letters of a word in first-occurrence order
      (`new Set(word)` when it is iterated). */
  function UniqueLetters(s: string): (r: seq<char>)
    ensures Distinct(r)
    ensures forall c :: c in r <==> c in s
  {
    Dedup(s)
  }

  /** The UTF-16 code units of one character, as `charCodeAt` sees them:
      characters outside the Basic Multilingual Plane become a surrogate
      pair. */
  function CharUnits(c: char): (r: seq<int>)
    ensures 1 <= |r| <= 2
    ensures forall k :: 0 <= k < |r| ==> 0 <= r[k] < 0x1_0000
    ensures |r| == 1 <==> (c as int) < 0x1_0000
  {
    var v := c as int;
    if v < 0x1_0000 then [v]
    else [0xD800 + (v - 0x1_0000) / 0x400, 0xDC00 + (v - 0x1_0000) % 0x400]
  }

  /** The UTF-16 code units of a string. */
  function CodeUnits(s: string): (r: seq<int>)
    ensures |r| >= |s|
    ensures forall k :: 0 <= k < |r| ==> 0 <= r[k] < 0x1_0000
  {
    if |s| == 0 then [] else CharUnits(s[0]) + CodeUnits(s[1..])
  }

  /** Every character lies in the Basic Multilingual Plane, so each is one
      UTF-16 code unit. */
  predicate InBmp(s: string)
  {
    forall i :: 0 <= i < |s| ==> (s[i] as int) < 0x1_0000
  }

  /** A string has as many code units as characters exactly when all its
      characters lie in the Basic Multilingual Plane. */
  lemma {:induction false} CodeUnitsLength(s: string)
    ensures |CodeUnits(s)| == |s| <==> InBmp(s)
  {
    if |s| > 0 {
      CodeUnitsLength(s[1..]);
      assert InBmp(s) <==> (s[0] as int) < 0x1_0000 && InBmp(s[1..]) by {
        if (s[0] as int) < 0x1_0000 && InBmp(s[1..]) {
          forall i | 0 <= i < |s| ensures (s[i] as int) < 0x1_0000 {
            if i > 0 {
              assert s[i] == s[1..][i - 1];
            }
          }
        }
      }
    }
  }

  /** `s.length`: the number of UTF-16 code units. It is the number of
      characters for a string in the Basic Multilingual Plane and larger
      otherwise. */
  function JsLength(s: string): (n: nat)
    ensures n >= |s|
  {
    if |s| == 0 then 0 else (if (s[0] as int) < 0x1_0000 then 1 else 2) + JsLength(s[1..])
  }

  /** `JsLength` counts the code units `charCodeAt` walks through. */
  lemma {:induction false} JsLengthUnits(s: string)
    ensures JsLength(s) == |CodeUnits(s)|
  {
    if |s| > 0 {
      JsLengthUnits(s[1..]);
    }
  }

  /** The code units of a two-character string in the Basic Multilingual
      Plane. */
  lemma JsLengthPair(r: string)
    requires |r| == 2 && (r[0] as int) < 0x1_0000 && (r[1] as int) < 0x1_0000
    ensures JsLength(r) == 2
  {
    var t := r[1..];
    assert |t| == 1 && t[0] == r[1];
    JsLengthOne(t);
  }

  /** The code units of one character. */
  lemma JsLengthOne(r: string)
    requires |r| == 1
    ensures JsLength(r) == if (r[0] as int) < 0x1_0000 then 1 else 2
  {
    assert r[1..] == [];
  }

  /** A string in the Basic Multilingual Plane is as long in code units as
      in characters, and only such a string is. */
  lemma JsLengthBmp(s: string)
    ensures JsLength(s) == |s| <==> InBmp(s)
  {
    JsLengthUnits(s);
    CodeUnitsLength(s);
  }

  lemma {:induction false} CodeUnitsConcat(a: string, b: string)
    ensures CodeUnits(a + b) == CodeUnits(a) + CodeUnits(b)
  {
    if |a| == 0 {
      assert a + b == b;
    } else {
      assert (a + b)[1..] == a[1..] + b;
      CodeUnitsConcat(a[1..], b);
    }
  }

  /** A BMP string has one code unit per character. */
  lemma {:induction false} CodeUnitsBmp(s: string)
    requires forall i :: 0 <= i < |s| ==> (s[i] as int) < 0x1_0000
    ensures CodeUnits(s) == seq(|s|, i requires 0 <= i < |s| => s[i] as int)
  {
    if |s| > 0 {
      CodeUnitsBmp(s[1..]);
    }
  }

  function DigitChar(d: nat): char
    requires d < 10
  {
    ('0' as int + d) as char
  }

  /** Decimal rendering of a natural number, as template literals print it. */
  function NatToString(n: nat): (r: string)
    ensures |r| > 0
  {
    if n < 10 then [DigitChar(n)] else NatToString(n / 10) + [DigitChar(n % 10)]
  }
}
