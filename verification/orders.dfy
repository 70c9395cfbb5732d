/** Total orders and the stable sort used wherever the program calls
    `Array.prototype.sort` with a comparator, plus the lexicographic order on
    strings that stands for both the default string sort and `localeCompare`
    on the lower-case keys the program compares. */
module Orders {
  import opened Seqs

  /** Every two values are comparable. */
  ghost predicate Total<T(!new)>(le: (T, T) -> bool)
  {
    forall a, b :: le(a, b) || le(b, a)
  }

  ghost predicate Transitive<T(!new)>(le: (T, T) -> bool)
  {
    forall a, b, c :: le(a, b) && le(b, c) ==> le(a, c)
  }

  ghost predicate Antisymmetric<T(!new)>(le: (T, T) -> bool)
  {
    forall a, b :: le(a, b) && le(b, a) ==> a == b
  }

  lemma TotalReflexive<T(!new)>(le: (T, T) -> bool, x: T)
    requires Total(le)
    ensures le(x, x)
  {
    assert le(x, x) || le(x, x);
  }

  /** Each element is ordered before its successor. */
  ghost predicate Sorted<T>(le: (T, T) -> bool, s: seq<T>)
  {
    forall i :: 0 < i < |s| ==> le(s[i - 1], s[i])
  }

  /** Inserts `x` before the first element it is ordered before. Placing `x`
      ahead of elements equal to it keeps the sort below stable. */
  function Insert<T(==,!new)>(x: T, s: seq<T>, le: (T, T) -> bool): (r: seq<T>)
    requires Total(le)
    requires Sorted(le, s)
    ensures Sorted(le, r)
    ensures multiset(r) == multiset(s) + multiset{x}
    ensures |r| == |s| + 1
    ensures |s| > 0 ==> r[0] == x || r[0] == s[0]
    ensures |s| == 0 ==> r == [x]
  {
    if |s| == 0 then [x]
    else if le(x, s[0]) then [x] + s
    else
      assert s == [s[0]] + s[1..];
      [s[0]] + Insert(x, s[1..], le)
  }

  /** Stable insertion sort: a permutation of `s` ordered by `le`. */
  function SortBy<T(==,!new)>(s: seq<T>, le: (T, T) -> bool): (r: seq<T>)
    requires Total(le)
    ensures Sorted(le, r)
    ensures multiset(r) == multiset(s)
    ensures |r| == |s|
  {
    if |s| == 0 then []
    else
      assert s == [s[0]] + s[1..];
      Insert(s[0], SortBy(s[1..], le), le)
  }

  /** Sorting a sorted sequence leaves it as it is. */
  lemma {:induction false} SortBySorted<T(!new)>(s: seq<T>, le: (T, T) -> bool)
    requires Total(le) && Sorted(le, s)
    ensures SortBy(s, le) == s
  {
    if |s| > 0 {
      SortBySorted(s[1..], le);
      assert s == [s[0]] + s[1..];
    }
  }

  /** Under a transitive order, adjacent ordering orders every pair. */
  lemma {:induction false} SortedPairwise<T(!new)>(le: (T, T) -> bool, s: seq<T>)
    requires Transitive(le)
    requires Sorted(le, s)
    ensures forall i, j :: 0 <= i < j < |s| ==> le(s[i], s[j])
  {
    if |s| > 1 {
      SortedPairwise(le, s[1..]);
      forall i, j | 0 <= i < j < |s| ensures le(s[i], s[j]) {
        if i > 0 {
          assert le(s[1..][i - 1], s[1..][j - 1]);
        } else if j > 1 {
          assert le(s[1..][0], s[1..][j - 1]);
        }
      }
    }
  }

  /** The first `k` elements of a sorted list are sorted and come before
      the rest. */
  lemma SortedFront<T(!new)>(le: (T, T) -> bool, s: seq<T>, k: nat)
    requires Transitive(le) && Sorted(le, s) && k <= |s|
    ensures Sorted(le, s[..k])
    ensures multiset(s) - multiset(s[..k]) == multiset(s[k..])
    ensures forall i, y :: 0 <= i < k && y in multiset(s[k..]) ==> le(s[i], y)
  {
    SortedPairwise(le, s);
    assert s == s[..k] + s[k..];
    assert multiset(s) == multiset(s[..k]) + multiset(s[k..]);
    forall i, y | 0 <= i < k && y in multiset(s[k..]) ensures le(s[i], y) {
      var j :| 0 <= j < |s[k..]| && s[k..][j] == y;
      assert s[k + j] == y;
    }
  }

  /** Two sorted permutations of the same elements start with the same one. */
  lemma SortedHeads<T(!new)>(le: (T, T) -> bool, a: seq<T>, b: seq<T>)
    requires Total(le) && Transitive(le) && Antisymmetric(le)
    requires Sorted(le, a) && Sorted(le, b)
    requires multiset(a) == multiset(b) && |a| > 0
    ensures |b| > 0 && a[0] == b[0]
  {
    assert |b| == |multiset(b)| == |a|;
    SortedPairwise(le, a);
    SortedPairwise(le, b);
    assert a[0] in multiset(b);
    assert b[0] in multiset(a);
    var i :| 0 <= i < |b| && b[i] == a[0];
    var j :| 0 <= j < |a| && a[j] == b[0];
    assert le(b[0], a[0]) by {
      if i > 0 { assert le(b[0], b[i]); } else { TotalReflexive(le, a[0]); }
    }
    assert le(a[0], b[0]) by {
      if j > 0 { assert le(a[0], a[j]); } else { TotalReflexive(le, b[0]); }
    }
  }

  /** The result of sorting does not depend on the algorithm: under a total,
      transitive and antisymmetric order two sorted permutations of the same
      elements are equal. So the stable insertion sort above returns what
      any correct sort returns. */
  lemma {:induction false} SortedUnique<T(!new)>(le: (T, T) -> bool, a: seq<T>, b: seq<T>)
    requires Total(le) && Transitive(le) && Antisymmetric(le)
    requires Sorted(le, a) && Sorted(le, b)
    requires multiset(a) == multiset(b)
    ensures a == b
  {
    if |a| == 0 {
      assert |b| == |multiset(b)| == 0;
    } else {
      SortedHeads(le, a, b);
      MultisetCons(a);
      MultisetCons(b);
      assert multiset(a[1..]) == multiset(b[1..]) by {
        forall x ensures multiset(a[1..])[x] == multiset(b[1..])[x] {
          assert multiset(a)[x] == multiset(b)[x];
        }
      }
      assert Sorted(le, a[1..]) && Sorted(le, b[1..]) by {
        forall i | 0 < i < |a| - 1 ensures le(a[1..][i - 1], a[1..][i]) {
          assert a[1..][i - 1] == a[i] && a[1..][i] == a[i + 1];
        }
        forall i | 0 < i < |b| - 1 ensures le(b[1..][i - 1], b[1..][i]) {
          assert b[1..][i - 1] == b[i] && b[1..][i] == b[i + 1];
        }
      }
      SortedUnique(le, a[1..], b[1..]);
      assert a == [a[0]] + a[1..];
      assert b == [b[0]] + b[1..];
    }
  }

  /** Lexicographic order on strings: a prefix comes first, otherwise the
      first differing character decides. */
  predicate StrLe(a: string, b: string)
  {
    |a| == 0 || (|b| > 0 && (a[0] < b[0] || (a[0] == b[0] && StrLe(a[1..], b[1..]))))
  }

  /** Strict lexicographic order. */
  predicate StrLt(a: string, b: string)
  {
    StrLe(a, b) && a != b
  }

  lemma {:induction false} StrLeTotalAt(a: string, b: string)
    ensures StrLe(a, b) || StrLe(b, a)
  {
    if |a| > 0 && |b| > 0 && a[0] == b[0] {
      StrLeTotalAt(a[1..], b[1..]);
    }
  }

  lemma {:induction false} StrLeTransitiveAt(a: string, b: string, c: string)
    requires StrLe(a, b) && StrLe(b, c)
    ensures StrLe(a, c)
  {
    if |a| > 0 && a[0] == b[0] && b[0] == c[0] {
      StrLeTransitiveAt(a[1..], b[1..], c[1..]);
    }
  }

  lemma {:induction false} StrLeAntisymmetricAt(a: string, b: string)
    requires StrLe(a, b) && StrLe(b, a)
    ensures a == b
  {
    if |a| > 0 {
      StrLeAntisymmetricAt(a[1..], b[1..]);
      assert a == [a[0]] + a[1..];
      assert b == [b[0]] + b[1..];
    }
  }

  /** `StrLe` is a total order on strings. */
  lemma StrLeTotalOrder()
    ensures Total(StrLe) && Transitive(StrLe) && Antisymmetric(StrLe)
  {
    forall a, b ensures StrLe(a, b) || StrLe(b, a) {
      StrLeTotalAt(a, b);
    }
    forall a, b, c | StrLe(a, b) && StrLe(b, c) ensures StrLe(a, c) {
      StrLeTransitiveAt(a, b, c);
    }
    forall a, b | StrLe(a, b) && StrLe(b, a) ensures a == b {
      StrLeAntisymmetricAt(a, b);
    }
  }

  /** `Array.prototype.sort()` with no comparator, on strings. */
  function SortStrings(s: seq<string>): (r: seq<string>)
    ensures Sorted(StrLe, r)
    ensures multiset(r) == multiset(s)
    ensures |r| == |s|
  {
    StrLeTotalOrder();
    SortBy(s, StrLe)
  }

  /** Order on characters, for sorting the letters of a word. */
  predicate CharLe(a: char, b: char)
  {
    a <= b
  }

  /** `Array.prototype.sort()` with no comparator, on single letters. */
  function SortChars(s: seq<char>): (r: seq<char>)
    ensures Sorted(CharLe, r)
    ensures multiset(r) == multiset(s)
    ensures |r| == |s|
  {
    SortBy(s, CharLe)
  }

  /** A sorted duplicate-free sequence of strings is strictly increasing. */
  lemma StrictlySortedStrings(s: seq<string>)
    requires Sorted(StrLe, s)
    requires forall i, j :: 0 <= i < j < |s| ==> s[i] != s[j]
    ensures forall i, j :: 0 <= i < j < |s| ==> StrLt(s[i], s[j])
  {
    StrLeTotalOrder();
    SortedPairwise(StrLe, s);
  }
}
