/** Sequence helpers shared by every part of the model: filtering, counting
    and the insertion-ordered "set" that JavaScript's `Set` provides when it
    is iterated. */
module Seqs {

  /** The elements of `s` that satisfy `p`, in their original order
      (`Array.prototype.filter`). */
  function Filter<T(!new)>(s: seq<T>, p: T -> bool): (r: seq<T>)
    ensures |r| <= |s|
    ensures forall x :: x in r <==> x in s && p(x)
    ensures multiset(r) <= multiset(s)
  {
    if |s| == 0 then []
    else
      assert s == [s[0]] + s[1..];
      (if p(s[0]) then [s[0]] else []) + Filter(s[1..], p)
  }

  /** Filtering distributes over concatenation. */
  lemma {:induction false} FilterConcat<T(!new)>(a: seq<T>, b: seq<T>, p: T -> bool)
    ensures Filter(a + b, p) == Filter(a, p) + Filter(b, p)
  {
    if |a| == 0 {
      assert a + b == b;
    } else {
      assert (a + b)[1..] == a[1..] + b;
      FilterConcat(a[1..], b, p);
    }
  }

  /** Filtering a sequence extended by one element. */
  lemma FilterSnoc<T(!new)>(s: seq<T>, x: T, p: T -> bool)
    ensures Filter(s + [x], p) == Filter(s, p) + (if p(x) then [x] else [])
  {
    FilterConcat(s, [x], p);
  }

  /** Filtering keeps every element when all of them satisfy `p`. */
  lemma {:induction false} FilterAll<T(!new)>(s: seq<T>, p: T -> bool)
    requires forall i :: 0 <= i < |s| ==> p(s[i])
    ensures Filter(s, p) == s
  {
    if |s| > 0 {
      FilterAll(s[1..], p);
    }
  }

  /** No element occurs twice. */
  ghost predicate Distinct<T>(s: seq<T>)
  {
    forall i, j :: 0 <= i < j < |s| ==> s[i] != s[j]
  }

  /** The elements of `s` without repetitions, each at its first occurrence:
      the iteration order of a JavaScript `Set` built by adding `s` in order. */
  function Dedup<T(==,!new)>(s: seq<T>): (r: seq<T>)
    ensures Distinct(r)
    ensures forall x :: x in r <==> x in s
    ensures |r| <= |s|
  {
    if |s| == 0 then []
    else
      var d := Dedup(s[..|s| - 1]);
      var x := s[|s| - 1];
      assert forall y :: y in s <==> y in s[..|s| - 1] || y == x by {
        assert s == s[..|s| - 1] + [x];
      }
      if x in d then d else d + [x]
  }

  /** Appending to an insertion-ordered set (`Set.prototype.add`). */
  function Add<T(==,!new)>(s: seq<T>, x: T): (r: seq<T>)
    requires Distinct(s)
    ensures Distinct(r)
    ensures forall y :: y in r <==> y in s || y == x
    ensures x in s ==> r == s
  {
    if x in s then s else s + [x]
  }

  /** The elements of `s` other than `x`, in order (`filter(y => y !== x)`);
      on an insertion-ordered set this is `Set.prototype.delete`. */
  function Remove<T(==,!new)>(s: seq<T>, x: T): (r: seq<T>)
    ensures forall y :: y in r <==> y in s && y != x
    ensures Distinct(s) ==> Distinct(r)
    ensures Distinct(s) && x in s ==> |r| == |s| - 1
    ensures x !in s ==> r == s
  {
    if |s| == 0 then []
    else
      var rest := Remove(s[1..], x);
      assert s == [s[0]] + s[1..];
      DistinctTail(s);
      if s[0] == x then rest else [s[0]] + rest
  }

  /** The tail of a duplicate-free sequence is duplicate-free and lacks
      the head. */
  lemma DistinctTail<T>(s: seq<T>)
    requires |s| > 0
    ensures Distinct(s) ==> Distinct(s[1..]) && s[0] !in s[1..]
  {
    if Distinct(s) {
      forall i, j | 0 <= i < j < |s| - 1 ensures s[1..][i] != s[1..][j] {
        assert s[1..][i] == s[i + 1] && s[1..][j] == s[j + 1];
      }
    }
  }

  /** In a duplicate-free sequence, counting the elements that satisfy `p`
      counts the set of such elements. */
  lemma DistinctFilterCard<T(!new)>(s: seq<T>, p: T -> bool)
    requires Distinct(s)
    ensures |Filter(s, p)| == |set x | x in s && p(x)|
  {
    var r := Filter(s, p);
    DistinctMultiset(s);
    DistinctMultiset(r);
    DistinctCard(r);
    assert (set x | x in r) == (set x | x in s && p(x));
  }

  /** A duplicate-free sequence has as many elements as its set. */
  lemma {:induction false} DistinctCard<T>(s: seq<T>)
    requires Distinct(s)
    ensures |s| == |set x | x in s|
  {
    if |s| > 0 {
      var t := s[1..];
      assert Distinct(t) by {
        forall i, j | 0 <= i < j < |t| ensures t[i] != t[j] {
          assert s[i + 1] != s[j + 1];
        }
      }
      DistinctCard(t);
      assert s[0] !in t;
      assert (set x | x in s) == (set x | x in t) + {s[0]};
    }
  }

  /** Distinctness is multiplicity at most one. */
  lemma {:induction false} DistinctMultiset<T>(s: seq<T>)
    ensures Distinct(s) <==> forall x :: multiset(s)[x] <= 1
  {
    if |s| > 0 {
      var h, t := s[0], s[1..];
      assert s == [h] + t;
      DistinctMultiset(t);
      if Distinct(s) {
        assert h !in t;
        assert Distinct(t) by {
          forall i, j | 0 <= i < j < |t| ensures t[i] != t[j] {
            assert s[i + 1] != s[j + 1];
          }
        }
        forall x ensures multiset(s)[x] <= 1 {
          assert multiset(s)[x] == multiset{h}[x] + multiset(t)[x];
        }
      } else if forall x :: multiset(s)[x] <= 1 {
        assert multiset(s)[h] == 1 + multiset(t)[h];
        assert h !in t;
        forall x ensures multiset(t)[x] <= 1 {
          assert multiset(s)[x] == multiset{h}[x] + multiset(t)[x];
        }
        forall i, j | 0 <= i < j < |s| ensures s[i] != s[j] {
          if i == 0 {
            assert s[j] == t[j - 1];
          } else {
            assert s[i] == t[i - 1] && s[j] == t[j - 1];
          }
        }
        assert false;
      }
    }
  }

  /** A permutation of a duplicate-free sequence is duplicate-free. */
  lemma DistinctPermutation<T>(a: seq<T>, b: seq<T>)
    requires multiset(a) == multiset(b)
    requires Distinct(a)
    ensures Distinct(b)
  {
    DistinctMultiset(a);
    DistinctMultiset(b);
  }

  /** The members of a sequence (`new Set(s)` read for membership). */
  function Elements<T(!new)>(s: seq<T>): (r: set<T>)
    ensures forall x :: x in r <==> x in s
  {
    set x | x in s
  }

  /** A permutation has the same members. */
  lemma PermutationMembers<T(!new)>(a: seq<T>, b: seq<T>)
    requires multiset(a) == multiset(b)
    ensures forall x :: x in a <==> x in b
    ensures Elements(a) == Elements(b)
  {
    forall x ensures x in a <==> x in b {
      assert x in a <==> x in multiset(a);
      assert x in b <==> x in multiset(b);
    }
  }

  /** `f` applied to every element (`Array.prototype.map`). */
  function Map<A, B>(s: seq<A>, f: A -> B): (r: seq<B>)
    ensures |r| == |s|
    ensures forall i :: 0 <= i < |s| ==> r[i] == f(s[i])
  {
    if |s| == 0 then [] else [f(s[0])] + Map(s[1..], f)
  }

  lemma MapConcat<A, B>(a: seq<A>, b: seq<A>, f: A -> B)
    ensures Map(a + b, f) == Map(a, f) + Map(b, f)
  {
    assert forall i :: 0 <= i < |a| + |b| ==> Map(a + b, f)[i] == (Map(a, f) + Map(b, f))[i];
  }

  /** Removing the element at `k` before mapping removes one copy of its image. */
  lemma MapRemoveAt<A, B>(b: seq<A>, k: nat, f: A -> B)
    requires k < |b|
    ensures multiset(Map(b, f)) == multiset(Map(b[..k] + b[k + 1..], f)) + multiset{f(b[k])}
  {
    var x, y := b[..k], b[k + 1..];
    var m := Map(b, f);
    MapConcat(x, y, f);
    assert Map(x, f) == m[..k];
    assert Map(y, f) == m[k + 1..];
    MultisetRemoveAt(m, k);
  }

  /** Mapping preserves the sub-multiset relation. */
  lemma {:induction false} MapSubMultiset<A, B>(a: seq<A>, b: seq<A>, f: A -> B)
    requires multiset(a) <= multiset(b)
    ensures multiset(Map(a, f)) <= multiset(Map(b, f))
  {
    if |a| > 0 {
      var h := a[0];
      assert h in multiset(b);
      var k :| 0 <= k < |b| && b[k] == h;
      var rest := b[..k] + b[k + 1..];
      MultisetRemoveAt(b, k);
      assert a == [h] + a[1..];
      assert multiset(a[1..]) <= multiset(rest);
      MapSubMultiset(a[1..], rest, f);
      MapRemoveAt(b, k, f);
      var tail := Map(a[1..], f);
      assert Map(a, f) == [f(h)] + tail;
      assert multiset([f(h)] + tail) == multiset{f(h)} + multiset(tail);
    }
  }

  /** An element of either part is an element of the concatenation. */
  lemma InConcat<T>(a: seq<T>, b: seq<T>, x: T)
    requires x in a || x in b
    ensures x in a + b
  {
    if x in a {
      var i :| 0 <= i < |a| && a[i] == x;
      assert (a + b)[i] == x;
    } else {
      var i :| 0 <= i < |b| && b[i] == x;
      assert (a + b)[|a| + i] == x;
    }
  }

  /** The multiset of a non-empty sequence: its head and its tail. */
  lemma MultisetCons<T>(s: seq<T>)
    requires |s| > 0
    ensures multiset(s) == multiset{s[0]} + multiset(s[1..])
  {
    assert s == [s[0]] + s[1..];
  }

  /** Removing the element at `k` removes one copy from the multiset. */
  lemma MultisetRemoveAt<T>(s: seq<T>, k: nat)
    requires k < |s|
    ensures multiset(s[..k] + s[k + 1..]) == multiset(s) - multiset{s[k]}
  {
    assert s == s[..k] + [s[k]] + s[k + 1..];
  }

  /** The sum of `f` over `s`, accumulated from the left. */
  function Sum<T>(s: seq<T>, f: T -> int): int
  {
    if |s| == 0 then 0 else Sum(s[..|s| - 1], f) + f(s[|s| - 1])
  }

  lemma {:induction false} SumConcat<T>(a: seq<T>, b: seq<T>, f: T -> int)
    ensures Sum(a + b, f) == Sum(a, f) + Sum(b, f)
  {
    if |b| == 0 {
      assert a + b == a;
    } else {
      assert (a + b)[..|a + b| - 1] == a + b[..|b| - 1];
      SumConcat(a, b[..|b| - 1], f);
    }
  }

  /** Replacing one element changes the sum by the difference. */
  lemma SumUpdate<T>(s: seq<T>, i: nat, x: T, f: T -> int)
    requires i < |s|
    ensures Sum(s[i := x], f) == Sum(s, f) - f(s[i]) + f(x)
  {
    assert s == s[..i] + [s[i]] + s[i + 1..];
    assert s[i := x] == s[..i] + [x] + s[i + 1..];
    SumConcat(s[..i] + [s[i]], s[i + 1..], f);
    SumConcat(s[..i], [s[i]], f);
    SumConcat(s[..i] + [x], s[i + 1..], f);
    SumConcat(s[..i], [x], f);
    assert Sum([s[i]], f) == f(s[i]) by { assert [s[i]][..0] == []; }
    assert Sum([x], f) == f(x) by { assert [x][..0] == []; }
  }

  /** Taking one element out of a sum. */
  lemma SumRemoveAt<T>(s: seq<T>, k: nat, f: T -> int)
    requires k < |s|
    ensures Sum(s, f) == Sum(s[..k] + s[k + 1..], f) + f(s[k])
  {
    var front := s[..k + 1];
    assert front[..k] == s[..k] && front[k] == s[k];
    assert Sum(front, f) == Sum(s[..k], f) + f(s[k]);
    assert s == front + s[k + 1..];
    SumConcat(front, s[k + 1..], f);
    SumConcat(s[..k], s[k + 1..], f);
  }


  /** The sum does not depend on the order of the elements. */
  lemma {:induction false} SumPermutation<T>(a: seq<T>, b: seq<T>, f: T -> int)
    requires multiset(a) == multiset(b)
    ensures Sum(a, f) == Sum(b, f)
  {
    if |a| == 0 {
      assert |b| == |multiset(b)| == 0;
    } else {
      var x := a[|a| - 1];
      var a' := a[..|a| - 1];
      assert x in multiset(b);
      var k :| 0 <= k < |b| && b[k] == x;
      var b' := b[..k] + b[k + 1..];
      MultisetRemoveAt(a, |a| - 1);
      assert a[|a|..] == [];
      assert a' + [] == a';
      MultisetRemoveAt(b, k);
      assert multiset(a') == multiset(b');
      SumPermutation(a', b', f);
      SumRemoveAt(b, k, f);
      assert Sum(a, f) == Sum(a', f) + f(x);
    }
  }

}
