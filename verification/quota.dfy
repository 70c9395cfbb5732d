/** `selectByQuota` (tools/build-puzzles.mjs): fills the 30/50/20 tier
    quotas from hash-ordered buckets, borrows across tiers for shortages,
    and tops up from a hash-ordered pool of what is left. */
module Quota {
  import opened Seqs
  import opened Orders
  import opened Results
  import opened Tiers
  import opened Fnv
  import opened Annotation
  import opened Assign

  /** The candidates labelled with tier `d`, in order. */
  function OfTier(cs: seq<Labelled>, d: Difficulty): (r: seq<Labelled>)
    ensures forall x :: x in r <==> x in cs && x.difficulty == d
    ensures multiset(r) <= multiset(cs)
  {
    if |cs| == 0 then []
    else
      assert cs == [cs[0]] + cs[1..];
      (if cs[0].difficulty == d then [cs[0]] else []) + OfTier(cs[1..], d)
  }

  /** The one-element multiset of `x` if it is in tier `d`. */
  function TierBag(x: Labelled, d: Difficulty): multiset<Labelled>
  {
    if x.difficulty == d then multiset{x} else multiset{}
  }

  lemma OfTierCons(cs: seq<Labelled>, d: Difficulty)
    requires |cs| > 0
    ensures multiset(OfTier(cs, d)) == TierBag(cs[0], d) + multiset(OfTier(cs[1..], d))
  {
  }

  lemma TierBags(x: Labelled)
    ensures TierBag(x, Simple) + TierBag(x, Medium) + TierBag(x, Hard) == multiset{x}
  {
  }

  lemma Regroup<T>(a: multiset<T>, b: multiset<T>, c: multiset<T>, x: multiset<T>, y: multiset<T>, z: multiset<T>)
    ensures (x + a) + (y + b) + (z + c) == (x + y + z) + (a + b + c)
  {
  }

  /** Multiset arithmetic: `a + g == t + r` and `r + e <= g` give `a + e <= t`. */
  lemma Cancel<T>(a: multiset<T>, g: multiset<T>, t: multiset<T>, r: multiset<T>, e: multiset<T>)
    requires a + g == t + r && r + e <= g
    ensures a + e <= t
  {
    forall x ensures (a + e)[x] <= t[x] {
      assert (a + g)[x] == (t + r)[x];
      assert (r + e)[x] <= g[x];
    }
  }

  lemma AddCancel<T>(x: multiset<T>, s: multiset<T>, p: multiset<T>, e: multiset<T>)
    requires x + s == p + (s + e)
    ensures x == p + e
  {
    forall y ensures x[y] == (p + e)[y] {
      assert (x + s)[y] == (p + (s + e))[y];
    }
  }

  /** Moving `e` out of the leftovers into the selection keeps the total. */
  lemma Shift<T>(a: multiset<T>, e: multiset<T>, l: multiset<T>, l2: multiset<T>, c: multiset<T>)
    requires l2 + e <= l && a + l <= c
    ensures (a + e) + l2 <= c
  {
    forall x ensures ((a + e) + l2)[x] <= c[x] {
      assert (l2 + e)[x] <= l[x];
      assert (a + l)[x] <= c[x];
    }
  }

  /** The three tiers split the list. */
  lemma {:induction false} OfTierPartition(cs: seq<Labelled>)
    ensures multiset(OfTier(cs, Simple)) + multiset(OfTier(cs, Medium)) + multiset(OfTier(cs, Hard)) == multiset(cs)
  {
    if |cs| > 0 {
      var x, t := cs[0], cs[1..];
      OfTierPartition(t);
      OfTierCons(cs, Simple);
      OfTierCons(cs, Medium);
      OfTierCons(cs, Hard);
      TierBags(x);
      Regroup(multiset(OfTier(t, Simple)), multiset(OfTier(t, Medium)), multiset(OfTier(t, Hard)),
        TierBag(x, Simple), TierBag(x, Medium), TierBag(x, Hard));
      MultisetCons(cs);
    }
  }

  lemma {:induction false} OfTierConcat(a: seq<Labelled>, b: seq<Labelled>, d: Difficulty)
    ensures OfTier(a + b, d) == OfTier(a, d) + OfTier(b, d)
  {
    if |a| == 0 {
      assert a + b == b;
    } else {
      assert (a + b)[1..] == a[1..] + b;
      OfTierConcat(a[1..], b, d);
    }
  }

  lemma {:induction false} OfTierSame(s: seq<Labelled>, d: Difficulty)
    requires forall x :: x in s ==> x.difficulty == d
    ensures OfTier(s, d) == s
  {
    if |s| > 0 {
      assert s[0] in s;
      OfTierSame(s[1..], d);
    }
  }

  lemma {:induction false} OfTierOther(s: seq<Labelled>, d: Difficulty)
    requires forall x :: x in s ==> x.difficulty != d
    ensures OfTier(s, d) == []
  {
    if |s| > 0 {
      assert s[0] in s;
      OfTierOther(s[1..], d);
    }
  }

  /** `hashString(prefix + coreKey)`, the bucket sort key, read as the
      unsigned number `>>> 0` yields. */
  function HashOf(prefix: string, x: Labelled): int
  {
    HashString(prefix + x.Key()) as int
  }

  /** The bucket comparator: by hash, then by core key. */
  predicate HashLe(prefix: string, a: Labelled, b: Labelled)
  {
    HashOf(prefix, a) < HashOf(prefix, b) ||
    (HashOf(prefix, a) == HashOf(prefix, b) && StrLe(a.Key(), b.Key()))
  }

  function HashOrder(prefix: string): (Labelled, Labelled) -> bool
  {
    (a, b) => HashLe(prefix, a, b)
  }

  lemma HashOrderTotal(prefix: string)
    ensures Total(HashOrder(prefix)) && Transitive(HashOrder(prefix))
  {
    forall a, b ensures HashLe(prefix, a, b) || HashLe(prefix, b, a) {
      StrLeTotalAt(a.Key(), b.Key());
    }
    forall a, b, c | HashLe(prefix, a, b) && HashLe(prefix, b, c) ensures HashLe(prefix, a, c) {
      if HashOf(prefix, a) == HashOf(prefix, b) == HashOf(prefix, c) {
        StrLeTransitiveAt(a.Key(), b.Key(), c.Key());
      }
    }
  }

  /** `${startDate}:${difficulty}:` */
  function BucketPrefix(startDate: string, d: Difficulty): string
  {
    startDate + ":" + d.Name() + ":"
  }

  /** `${startDate}:fallback:` */
  function FallbackPrefix(startDate: string): string
  {
    startDate + ":fallback:"
  }

  /** The bucket of tier `d`: its candidates in hash order. */
  function Bucket(cs: seq<Labelled>, d: Difficulty, startDate: string): (r: seq<Labelled>)
    ensures multiset(r) == multiset(OfTier(cs, d))
    ensures Sorted(HashOrder(BucketPrefix(startDate, d)), r)
  {
    HashOrderTotal(BucketPrefix(startDate, d));
    SortBy(OfTier(cs, d), HashOrder(BucketPrefix(startDate, d)))
  }

  function Min(a: int, b: int): int
  {
    if a < b then a else b
  }

  /** `s.slice(0, n)` for `n >= 0`. */
  function Head<T>(s: seq<T>, n: int): (r: seq<T>)
    requires n >= 0
    ensures |r| == Min(n, |s|)
    ensures s == r + s[|r|..]
  {
    s[..Min(n, |s|)]
  }

  /** The selection state: per tier the chosen candidates, the unused rest
      of the bucket, and how many the quota still lacks. */
  datatype Pools = Pools(selected: PerTier<seq<Labelled>>, leftovers: PerTier<seq<Labelled>>, shortages: PerTier<nat>)

  /** The tiers a shortage borrows from, in order. */
  function BorrowOrder(d: Difficulty): (r: (Difficulty, Difficulty))
    ensures r.0 != d && r.1 != d && r.0 != r.1
  {
    match d
    case Simple => (Medium, Hard)
    case Medium => (Simple, Hard)
    case Hard => (Medium, Simple)
  }

  /** A bucket cut at its target: the selected head, the leftovers, and
      the shortage `max(0, target - selected)`. */
  function Cut(b: seq<Labelled>, target: int): (r: (seq<Labelled>, seq<Labelled>, nat))
    requires target >= 0
    ensures r.0 + r.1 == b
    ensures |r.0| + r.2 == target
    ensures r.2 > 0 ==> r.1 == []
  {
    var sel := Head(b, target);
    (sel, b[|sel|..], target - |sel|)
  }

  /** The quota of each tier filled from its own bucket as far as it goes. */
  function Initial(cs: seq<Labelled>, count: int, startDate: string): Pools
    requires count >= 0
  {
    var t := ComputeDifficultyTargets(count);
    TargetsRounding(count);
    var s := Cut(Bucket(cs, Simple, startDate), t.simple);
    var m := Cut(Bucket(cs, Medium, startDate), t.medium);
    var h := Cut(Bucket(cs, Hard, startDate), t.hard);
    Pools(PerTier(s.0, m.0, h.0), PerTier(s.1, m.1, h.1), PerTier(s.2, m.2, h.2))
  }

  /** The position of the first candidate whose guardrails admit tier
      `d`, or the length when there is none. */
  function FirstMatch(left: seq<Labelled>, d: Difficulty): (k: nat)
    ensures k <= |left|
    ensures k < |left| ==> d in left[k].Matches()
    ensures forall i :: 0 <= i < k ==> d !in left[i].Matches()
  {
    if |left| == 0 then 0
    else if d in left[0].Matches() then 0
    else 1 + FirstMatch(left[1..], d)
  }

  /** The inner `while` of the borrow loop: shifts candidates off `left`
      until one whose guardrails admit tier `d`. The ones shifted before it
      are gone, and so is everything when none matches. */
  function TakeMatching(left: seq<Labelled>, d: Difficulty): (r: (Option<Labelled>, seq<Labelled>))
  {
    var k := FirstMatch(left, d);
    if k < |left| then (Some(left[k]), left[k + 1..]) else (None, [])
  }

  /** The inner `while` over one source tier: the first admissible
      leftover of tier `source`, relabelled `d`, and the leftovers after
      the shifts. */
  function BorrowFrom(d: Difficulty, source: Difficulty, left: PerTier<seq<Labelled>>): (r: (Option<Labelled>, PerTier<seq<Labelled>>))
    ensures r.0.Some? ==> r.0.value.difficulty == d && d in r.0.value.Matches()
  {
    var (o, rest) := TakeMatching(left.Get(source), d);
    (if o.Some? then Some(Labelled(o.value.entry, d)) else None, left.Set(source, rest))
  }

  /** One borrow for tier `d`: tries the tiers in borrow order and stops
      at the first that yields a candidate. */
  function Borrow(d: Difficulty, left: PerTier<seq<Labelled>>): (r: (Option<Labelled>, PerTier<seq<Labelled>>))
    ensures r.0.Some? ==> r.0.value.difficulty == d && d in r.0.value.Matches()
  {
    var (s1, s2) := BorrowOrder(d);
    var first := BorrowFrom(d, s1, left);
    if first.0.Some? then first else BorrowFrom(d, s2, first.1)
  }

  /** The inner `while` finds nothing exactly when no candidate of the
      list admits tier `d`. */
  lemma TakeMatchingNone(left: seq<Labelled>, d: Difficulty)
    ensures TakeMatching(left, d).0.None? <==> forall x :: x in left ==> d !in x.Matches()
  {
  }

  /** A borrow comes back empty exactly when neither source tier holds a
      leftover whose guardrails admit tier `d`. */
  lemma BorrowNone(d: Difficulty, left: PerTier<seq<Labelled>>)
    ensures Borrow(d, left).0.None? <==>
      && (forall x :: x in left.Get(BorrowOrder(d).0) ==> d !in x.Matches())
      && (forall x :: x in left.Get(BorrowOrder(d).1) ==> d !in x.Matches())
  {
  }

  /** No leftover can be borrowed for tier `d` any more: the loop breaks. */
  predicate Exhausted(d: Difficulty, p: Pools)
  {
    Borrow(d, p.leftovers).0.None?
  }

  /** One pass of the body of `while (shortages[d] > 0)`: either a
      borrowed candidate joins tier `d` and its shortage drops by one, or
      only the shifted leftovers change and the loop breaks. */
  function Step(d: Difficulty, p: Pools): (r: Pools)
    requires p.shortages.Get(d) > 0
    ensures !Exhausted(d, p) ==> r.shortages.Get(d) == p.shortages.Get(d) - 1
    ensures Exhausted(d, p) ==> r == p.(leftovers := Borrow(d, p.leftovers).1)
  {
    var borrowed := Borrow(d, p.leftovers);
    if borrowed.0.None? then p.(leftovers := borrowed.1)
    else Took(d, p, borrowed.0.value, borrowed.1)
  }

  /** The `while (shortages[d] > 0)` loop. */
  function Fill(d: Difficulty, p: Pools): Pools
    decreases p.shortages.Get(d)
  {
    if p.shortages.Get(d) == 0 then p
    else if Exhausted(d, p) then Step(d, p)
    else Fill(d, Step(d, p))
  }

  /** The borrow loop over `DIFFICULTY_ORDER`. */
  function BorrowAll(p: Pools): Pools
  {
    Fill(Hard, Fill(Medium, Fill(Simple, p)))
  }

  function AllSelected(p: Pools): seq<Labelled>
  {
    p.selected.simple + p.selected.medium + p.selected.hard
  }

  function AllLeftovers(p: Pools): seq<Labelled>
  {
    p.leftovers.simple + p.leftovers.medium + p.leftovers.hard
  }

  /** The selection after borrowing, topped up from the leftovers in
      fallback hash order and cut to `count`. */
  function Finish(p: Pools, count: int, startDate: string): (r: seq<Labelled>)
    requires count >= 0
    ensures |r| <= count
  {
    var chosen := AllSelected(p);
    var topped :=
      if |chosen| < count then
        HashOrderTotal(FallbackPrefix(startDate));
        var pool := SortBy(AllLeftovers(p), HashOrder(FallbackPrefix(startDate)));
        chosen + Head(pool, count - |chosen|)
      else chosen;
    Head(topped, count)
  }

  /** `selectByQuota`. The count is a non-negative integer, as the
      argument parser produces. */
  function SelectByQuota(cs: seq<Labelled>, count: int, startDate: string): (r: seq<Labelled>)
    requires count >= 0
    ensures |r| <= count
  {
    Finish(BorrowAll(Initial(cs, count, startDate)), count, startDate)
  }

  /** The annotated candidates a list uses, with multiplicity; a borrowed
      candidate is the same candidate under another label. */
  ghost function Bag(s: seq<Labelled>): multiset<Annotated>
  {
    multiset(Entries(s))
  }

  lemma BagConcat(a: seq<Labelled>, b: seq<Labelled>)
    ensures Bag(a + b) == Bag(a) + Bag(b)
  {
    MapConcat(a, b, EntryOf);
  }

  lemma BagMono(a: seq<Labelled>, b: seq<Labelled>)
    requires multiset(a) <= multiset(b)
    ensures Bag(a) <= Bag(b)
  {
    MapSubMultiset(a, b, EntryOf);
  }

  ghost function TierSum(p: PerTier<seq<Labelled>>): multiset<Annotated>
  {
    Bag(p.simple) + Bag(p.medium) + Bag(p.hard)
  }

  lemma TierSumSet(p: PerTier<seq<Labelled>>, d: Difficulty, v: seq<Labelled>)
    ensures TierSum(p.Set(d, v)) + Bag(p.Get(d)) == TierSum(p) + Bag(v)
  {
  }

  function OptBag(o: Option<Labelled>): multiset<Annotated>
  {
    if o.Some? then multiset{o.value.entry} else multiset{}
  }

  /** Every element of `s` is an input. */
  ghost predicate Inputs(s: seq<Labelled>, cs: seq<Labelled>)
  {
    forall x :: x in s ==> x in cs
  }

  /** Every element of `s` is an input, or carries a label its guardrails
      admit. */
  ghost predicate Fits(s: seq<Labelled>, cs: seq<Labelled>)
  {
    forall x :: x in s ==> x in cs || x.difficulty in x.Matches()
  }

  lemma InputsFit(s: seq<Labelled>, cs: seq<Labelled>)
    requires Inputs(s, cs)
    ensures Fits(s, cs)
  {
  }

  /** What the selection state keeps while quotas are filled: no input is
      used twice across the selected and leftover lists, leftovers are
      inputs, and selected candidates are inputs or admissibly relabelled
      ones. */
  ghost predicate PoolsOk(p: Pools, cs: seq<Labelled>)
  {
    && TierSum(p.selected) + TierSum(p.leftovers) <= Bag(cs)
    && (forall d :: Fits(p.selected.Get(d), cs))
    && (forall d :: Inputs(p.leftovers.Get(d), cs))
  }

  lemma InitialTier(cs: seq<Labelled>, d: Difficulty, startDate: string, target: int)
    requires target >= 0
    ensures var c := Cut(Bucket(cs, d, startDate), target);
      && Bag(c.0) + Bag(c.1) == Bag(OfTier(cs, d))
      && Inputs(c.0, cs) && Inputs(c.1, cs)
  {
    var b := Bucket(cs, d, startDate);
    var c := Cut(b, target);
    BagConcat(c.0, c.1);
    BagMono(b, OfTier(cs, d));
    BagMono(OfTier(cs, d), b);
    forall x | x in c.0 + c.1 ensures x in cs {
      assert x in multiset(b);
    }
  }

  lemma InitialOk(cs: seq<Labelled>, count: int, startDate: string)
    requires count >= 0
    ensures PoolsOk(Initial(cs, count, startDate), cs)
  {
    var t := ComputeDifficultyTargets(count);
    TargetsRounding(count);
    var p := Initial(cs, count, startDate);
    InitialTier(cs, Simple, startDate, t.simple);
    InitialTier(cs, Medium, startDate, t.medium);
    InitialTier(cs, Hard, startDate, t.hard);
    var a, b, c := OfTier(cs, Simple), OfTier(cs, Medium), OfTier(cs, Hard);
    OfTierPartition(cs);
    BagConcat(a, b);
    BagConcat(a + b, c);
    assert multiset(a + b + c) == multiset(cs);
    BagMono(a + b + c, cs);
    var cutS := Cut(Bucket(cs, Simple, startDate), t.simple);
    var cutM := Cut(Bucket(cs, Medium, startDate), t.medium);
    var cutH := Cut(Bucket(cs, Hard, startDate), t.hard);
    assert p.selected == PerTier(cutS.0, cutM.0, cutH.0);
    assert p.leftovers == PerTier(cutS.1, cutM.1, cutH.1);
    Regroup(Bag(cutS.1), Bag(cutM.1), Bag(cutH.1), Bag(cutS.0), Bag(cutM.0), Bag(cutH.0));
    assert TierSum(p.selected) + TierSum(p.leftovers) == Bag(a + b + c);
    assert TierSum(p.selected) + TierSum(p.leftovers) <= Bag(cs);
    forall d ensures Fits(p.selected.Get(d), cs) && Inputs(p.leftovers.Get(d), cs) {
      var cut := match d case Simple => cutS case Medium => cutM case Hard => cutH;
      assert p.selected.Get(d) == cut.0 && p.leftovers.Get(d) == cut.1;
      InputsFit(cut.0, cs);
    }
  }

  /** The shifted candidates and the taken one leave the list; the rest
      is a suffix of it. */
  lemma TakeBag(left: seq<Labelled>, d: Difficulty)
    ensures var r := TakeMatching(left, d);
      && Bag(r.1) + OptBag(r.0) <= Bag(left)
      && (forall x :: x in r.1 ==> x in left)
      && (r.0.Some? ==> r.0.value in left && d in r.0.value.Matches())
  {
    var k := FirstMatch(left, d);
    if k < |left| {
      assert left == left[..k] + [left[k]] + left[k + 1..];
      BagConcat(left[..k] + [left[k]], left[k + 1..]);
      BagConcat(left[..k], [left[k]]);
    }
  }

  lemma BorrowFromBag(d: Difficulty, source: Difficulty, left: PerTier<seq<Labelled>>, cs: seq<Labelled>)
    requires forall e :: Inputs(left.Get(e), cs)
    ensures var r := BorrowFrom(d, source, left);
      && TierSum(r.1) + OptBag(r.0) <= TierSum(left)
      && (forall e :: Inputs(r.1.Get(e), cs))
  {
    var (o, rest) := TakeMatching(left.Get(source), d);
    TakeBag(left.Get(source), d);
    TierSumSet(left, source, rest);
    var r := BorrowFrom(d, source, left);
    assert r.1 == left.Set(source, rest);
    assert OptBag(r.0) == OptBag(o);
    Cancel(TierSum(r.1), Bag(left.Get(source)), TierSum(left), Bag(rest), OptBag(o));
    forall e ensures Inputs(r.1.Get(e), cs) {
      if e != source {
        assert r.1.Get(e) == left.Get(e);
      }
    }
  }

  lemma BorrowBag(d: Difficulty, left: PerTier<seq<Labelled>>, cs: seq<Labelled>)
    requires forall e :: Inputs(left.Get(e), cs)
    ensures var r := Borrow(d, left);
      && TierSum(r.1) + OptBag(r.0) <= TierSum(left)
      && (forall e :: Inputs(r.1.Get(e), cs))
  {
    var (s1, s2) := BorrowOrder(d);
    BorrowFromBag(d, s1, left, cs);
    var first := BorrowFrom(d, s1, left);
    if first.0.None? {
      BorrowFromBag(d, s2, first.1, cs);
    }
  }

  /** The pools after one successful borrow for tier `d`. */
  function Took(d: Difficulty, p: Pools, b: Labelled, left: PerTier<seq<Labelled>>): Pools
    requires p.shortages.Get(d) > 0
  {
    Pools(
      p.selected.Set(d, p.selected.Get(d) + [b]),
      left,
      p.shortages.Set(d, p.shortages.Get(d) - 1))
  }

  /** One pass of the loop body keeps the pools' invariant. */
  lemma StepOk(d: Difficulty, p: Pools, cs: seq<Labelled>)
    requires PoolsOk(p, cs) && p.shortages.Get(d) > 0
    ensures PoolsOk(Step(d, p), cs)
  {
    var b := Borrow(d, p.leftovers).0;
    var left := Borrow(d, p.leftovers).1;
    BorrowBag(d, p.leftovers, cs);
    if b.Some? {
      var sel := p.selected.Get(d);
      var q := Took(d, p, b.value, left);
      assert Step(d, p) == q;
      TierSumSet(p.selected, d, sel + [b.value]);
      BagConcat(sel, [b.value]);
      assert Bag([b.value]) == OptBag(b);
      assert q.selected == p.selected.Set(d, sel + [b.value]);
      var added := Bag(sel + [b.value]);
      assert TierSum(q.selected) + Bag(sel) == TierSum(p.selected) + added;
      assert added == Bag(sel) + OptBag(b);
      AddCancel(TierSum(q.selected), Bag(sel), TierSum(p.selected), OptBag(b));
      Shift(TierSum(p.selected), OptBag(b), TierSum(p.leftovers), TierSum(q.leftovers), Bag(cs));
      assert TierSum(q.selected) + TierSum(q.leftovers) <= Bag(cs);
      TookFits(d, p, b.value, left, cs);
    }
  }

  lemma TookFits(d: Difficulty, p: Pools, b: Labelled, left: PerTier<seq<Labelled>>, cs: seq<Labelled>)
    requires p.shortages.Get(d) > 0
    requires forall e :: Fits(p.selected.Get(e), cs)
    requires b.difficulty == d && d in b.Matches()
    ensures forall e :: Fits(Took(d, p, b, left).selected.Get(e), cs)
  {
    var q := Took(d, p, b, left);
    forall e ensures Fits(q.selected.Get(e), cs) {
      if e != d {
        assert q.selected.Get(e) == p.selected.Get(e);
      } else {
        assert q.selected.Get(e) == p.selected.Get(d) + [b];
      }
    }
  }

  /** While candidates can be borrowed, the loop continues from one pass
      of its body. */
  lemma FillUnfold(d: Difficulty, p: Pools)
    requires p.shortages.Get(d) > 0 && !Exhausted(d, p)
    ensures Fill(d, p) == Fill(d, Step(d, p))
  {
  }

  lemma {:induction false} FillOk(d: Difficulty, p: Pools, cs: seq<Labelled>)
    requires PoolsOk(p, cs)
    ensures PoolsOk(Fill(d, p), cs)
    decreases p.shortages.Get(d)
  {
    if p.shortages.Get(d) == 0 {
      assert Fill(d, p) == p;
    } else if Exhausted(d, p) {
      StepOk(d, p, cs);
      assert Fill(d, p) == Step(d, p);
    } else {
      var q := Step(d, p);
      StepOk(d, p, cs);
      FillOk(d, q, cs);
      FillUnfold(d, p);
      assert Fill(d, p) == Fill(d, q);
    }
  }



  lemma BorrowAllOk(p: Pools, cs: seq<Labelled>)
    requires PoolsOk(p, cs)
    ensures PoolsOk(BorrowAll(p), cs)
  {
    FillOk(Simple, p, cs);
    FillOk(Medium, Fill(Simple, p), cs);
    FillOk(Hard, Fill(Medium, Fill(Simple, p)), cs);
  }

  lemma AllBags(t: PerTier<seq<Labelled>>)
    ensures Bag(t.simple + t.medium + t.hard) == TierSum(t)
  {
    BagConcat(t.simple, t.medium);
    BagConcat(t.simple + t.medium, t.hard);
  }

  lemma FitsConcat(a: seq<Labelled>, b: seq<Labelled>, cs: seq<Labelled>)
    requires Fits(a, cs) && Fits(b, cs)
    ensures Fits(a + b, cs)
  {
  }

  lemma InputsConcat(a: seq<Labelled>, b: seq<Labelled>, cs: seq<Labelled>)
    requires Inputs(a, cs) && Inputs(b, cs)
    ensures Inputs(a + b, cs)
  {
  }

  lemma FitsPrefix(s: seq<Labelled>, n: int, cs: seq<Labelled>)
    requires n >= 0 && Fits(s, cs)
    ensures Fits(Head(s, n), cs)
  {
    forall x | x in Head(s, n) ensures x in cs || x.difficulty in x.Matches() {
      assert x in s;
    }
  }

  lemma InputsSub(a: seq<Labelled>, b: seq<Labelled>, cs: seq<Labelled>)
    requires Inputs(b, cs) && multiset(a) <= multiset(b)
    ensures Inputs(a, cs)
  {
    forall x | x in a ensures x in cs {
      assert x in multiset(b);
    }
  }

  lemma FinishOk(p: Pools, count: int, startDate: string, cs: seq<Labelled>)
    requires count >= 0
    requires PoolsOk(p, cs)
    ensures Bag(Finish(p, count, startDate)) <= Bag(cs)
    ensures Fits(Finish(p, count, startDate), cs)
  {
    var chosen := AllSelected(p);
    var rest := AllLeftovers(p);
    AllBags(p.selected);
    AllBags(p.leftovers);
    assert Fits(p.selected.Get(Simple), cs) && Fits(p.selected.Get(Medium), cs) && Fits(p.selected.Get(Hard), cs);
    FitsConcat(p.selected.simple, p.selected.medium, cs);
    FitsConcat(p.selected.simple + p.selected.medium, p.selected.hard, cs);
    assert Inputs(p.leftovers.Get(Simple), cs) && Inputs(p.leftovers.Get(Medium), cs) && Inputs(p.leftovers.Get(Hard), cs);
    InputsConcat(p.leftovers.simple, p.leftovers.medium, cs);
    InputsConcat(p.leftovers.simple + p.leftovers.medium, p.leftovers.hard, cs);
    var topped := chosen;
    if |chosen| < count {
      HashOrderTotal(FallbackPrefix(startDate));
      var pool := SortBy(rest, HashOrder(FallbackPrefix(startDate)));
      var extra := Head(pool, count - |chosen|);
      assert multiset(extra) <= multiset(rest) by {
        assert multiset(pool) == multiset(extra) + multiset(pool[|extra|..]) by {
          assert pool == extra + pool[|extra|..];
        }
      }
      BagMono(extra, rest);
      BagConcat(chosen, extra);
      InputsSub(extra, rest, cs);
      InputsFit(extra, cs);
      FitsConcat(chosen, extra, cs);
      topped := chosen + extra;
    }
    var r := Head(topped, count);
    assert r == Finish(p, count, startDate);
    assert multiset(r) <= multiset(topped) by {
      assert topped == r + topped[|r|..];
    }
    BagMono(r, topped);
    FitsPrefix(topped, count, cs);
  }

  /** The fallback top-up and the final cut draw only on the pools they
      are given: the selected lists and the leftovers that survived. */
  lemma FinishDrawsFromPools(p: Pools, count: int, startDate: string)
    requires count >= 0
    ensures Bag(Finish(p, count, startDate)) <= TierSum(p.selected) + TierSum(p.leftovers)
  {
    var chosen := AllSelected(p);
    var rest := AllLeftovers(p);
    AllBags(p.selected);
    AllBags(p.leftovers);
    var topped := chosen;
    if |chosen| < count {
      HashOrderTotal(FallbackPrefix(startDate));
      var pool := SortBy(rest, HashOrder(FallbackPrefix(startDate)));
      var extra := Head(pool, count - |chosen|);
      assert multiset(extra) <= multiset(rest) by {
        assert multiset(pool) == multiset(extra) + multiset(pool[|extra|..]) by {
          assert pool == extra + pool[|extra|..];
        }
      }
      BagMono(extra, rest);
      BagConcat(chosen, extra);
      topped := chosen + extra;
    }
    var r := Head(topped, count);
    assert r == Finish(p, count, startDate);
    assert multiset(r) <= multiset(topped) by {
      assert topped == r + topped[|r|..];
    }
    BagMono(r, topped);
  }

  /** The result draws only on what survives the borrow loop: a leftover
      shifted off a pool while a shortage borrows is used up, and the
      fallback cannot return it. The surviving pools in turn hold each
      input at most once. */
  lemma SelectByQuotaFromSurvivors(cs: seq<Labelled>, count: int, startDate: string)
    requires count >= 0
    ensures var q := BorrowAll(Initial(cs, count, startDate));
      && Bag(SelectByQuota(cs, count, startDate)) <= TierSum(q.selected) + TierSum(q.leftovers)
      && TierSum(q.selected) + TierSum(q.leftovers) <= Bag(cs)
  {
    var p := Initial(cs, count, startDate);
    InitialOk(cs, count, startDate);
    BorrowAllOk(p, cs);
    FinishDrawsFromPools(BorrowAll(p), count, startDate);
  }

  /** `t` is the front of `pool` in fallback hash order: sorted, drawn from
      the pool, and ordered before everything of the pool it leaves out. */
  ghost predicate FallbackFront(t: seq<Labelled>, pool: seq<Labelled>, startDate: string)
  {
    && Sorted(HashOrder(FallbackPrefix(startDate)), t)
    && multiset(t) <= multiset(pool)
    && forall i, y :: 0 <= i < |t| && y in multiset(pool) - multiset(t) ==> HashOrder(FallbackPrefix(startDate))(t[i], y)
  }

  /** The front `n` of a list sorted by `le`: sorted, drawn from the list,
      and ordered before the rest. */
  lemma SortedHead(left: seq<Labelled>, n: nat, le: (Labelled, Labelled) -> bool)
    requires Total(le) && Transitive(le)
    ensures var t := Head(SortBy(left, le), n);
      && |t| == Min(n, |left|)
      && Sorted(le, t)
      && multiset(t) <= multiset(left)
      && forall i, y :: 0 <= i < |t| && y in multiset(left) - multiset(t) ==> le(t[i], y)
  {
    var pool := SortBy(left, le);
    var t := Head(pool, n);
    assert t == pool[..|t|];
    SortedFront(le, pool, |t|);
  }

  /** What the top-up does: the result has `min(count, selected +
      leftovers)` entries; when the selection fits, it comes first and is
      followed by the front of the leftovers in fallback hash order, and
      otherwise it is cut to `count`. */
  lemma FinishShape(p: Pools, count: int, startDate: string)
    requires count >= 0
    ensures var r := Finish(p, count, startDate);
      var chosen := AllSelected(p);
      && |r| == Min(count, |chosen| + |AllLeftovers(p)|)
      && (|chosen| >= count ==> r == chosen[..count])
      && (|chosen| <= count ==> r[..|chosen|] == chosen && FallbackFront(r[|chosen|..], AllLeftovers(p), startDate))
  {
    var chosen := AllSelected(p);
    var r := Finish(p, count, startDate);
    if |chosen| < count {
      var le := HashOrder(FallbackPrefix(startDate));
      HashOrderTotal(FallbackPrefix(startDate));
      var extra := Head(SortBy(AllLeftovers(p), le), count - |chosen|);
      SortedHead(AllLeftovers(p), count - |chosen|, le);
      assert r == chosen + extra;
      assert r[|chosen|..] == extra;
    } else if |chosen| == count {
      assert r == chosen;
      assert r[|chosen|..] == [];
    }
  }

  /** The fallback fills the shortfall: `selectByQuota` returns
      `min(count, selected + leftovers)` candidates of the pools that
      survive the borrow loop, the selection first and then the leftovers
      in fallback hash order, the first ones of that order. */
  lemma SelectByQuotaFallback(cs: seq<Labelled>, count: int, startDate: string)
    requires count >= 0
    ensures var q := BorrowAll(Initial(cs, count, startDate));
      var r := SelectByQuota(cs, count, startDate);
      var chosen := AllSelected(q);
      && |r| == Min(count, |chosen| + |AllLeftovers(q)|)
      && (|chosen| >= count ==> r == chosen[..count])
      && (|chosen| <= count ==> r[..|chosen|] == chosen && FallbackFront(r[|chosen|..], AllLeftovers(q), startDate))
  {
    FinishShape(BorrowAll(Initial(cs, count, startDate)), count, startDate);
  }

  /** Every selected candidate is an input, used at most once; one taken
      from another tier's leftovers carries a tier its guardrails admit.
      So when every input's label is admissible, so is every output's. */
  lemma SelectByQuotaUses(cs: seq<Labelled>, count: int, startDate: string)
    requires count >= 0
    ensures var r := SelectByQuota(cs, count, startDate);
      && Bag(r) <= Bag(cs)
      && (forall x :: x in r ==> x in cs || x.difficulty in x.Matches())
      && ((forall x :: x in cs ==> x.difficulty in x.Matches()) ==> forall x :: x in r ==> x.difficulty in x.Matches())
  {
    var p := Initial(cs, count, startDate);
    InitialOk(cs, count, startDate);
    BorrowAllOk(p, cs);
    FinishOk(BorrowAll(p), count, startDate, cs);
  }

  /** A list of one tier, then one of the next, then one of the last:
      each tier of the whole is its own part. */
  lemma OfTierParts(a: seq<Labelled>, b: seq<Labelled>, c: seq<Labelled>)
    requires forall x :: x in a ==> x.difficulty == Simple
    requires forall x :: x in b ==> x.difficulty == Medium
    requires forall x :: x in c ==> x.difficulty == Hard
    ensures OfTier(a + b + c, Simple) == a
    ensures OfTier(a + b + c, Medium) == b
    ensures OfTier(a + b + c, Hard) == c
  {
    OfTierConcat(a + b, c, Simple);
    OfTierConcat(a + b, c, Medium);
    OfTierConcat(a + b, c, Hard);
    OfTierConcat(a, b, Simple);
    OfTierConcat(a, b, Medium);
    OfTierConcat(a, b, Hard);
    OfTierSame(a, Simple);
    OfTierOther(a, Medium);
    OfTierOther(a, Hard);
    OfTierOther(b, Simple);
    OfTierSame(b, Medium);
    OfTierOther(b, Hard);
    OfTierOther(c, Simple);
    OfTierOther(c, Medium);
    OfTierSame(c, Hard);
  }

  lemma BucketTier(cs: seq<Labelled>, d: Difficulty, startDate: string, n: int)
    requires 0 <= n <= |OfTier(cs, d)|
    ensures |Head(Bucket(cs, d, startDate), n)| == n
    ensures forall x :: x in Head(Bucket(cs, d, startDate), n) ==> x.difficulty == d
  {
    var b := Bucket(cs, d, startDate);
    assert |multiset(b)| == |multiset(OfTier(cs, d))|;
    forall x | x in Head(b, n) ensures x.difficulty == d {
      assert x in multiset(b);
    }
  }

  /** With no shortage the borrow loop changes nothing. */
  lemma BorrowAllIdle(p: Pools)
    requires p.shortages == PerTier(0, 0, 0)
    ensures BorrowAll(p) == p
  {
    assert Fill(Simple, p) == p;
    assert Fill(Medium, p) == p;
  }

  lemma InitialFull(cs: seq<Labelled>, count: int, startDate: string)
    requires count >= 0
    requires |OfTier(cs, Simple)| >= ComputeDifficultyTargets(count).simple
    requires |OfTier(cs, Medium)| >= ComputeDifficultyTargets(count).medium
    requires |OfTier(cs, Hard)| >= ComputeDifficultyTargets(count).hard
    ensures var t := ComputeDifficultyTargets(count);
      var p := Initial(cs, count, startDate);
      && p.selected == PerTier(
        Head(Bucket(cs, Simple, startDate), t.simple),
        Head(Bucket(cs, Medium, startDate), t.medium),
        Head(Bucket(cs, Hard, startDate), t.hard))
      && p.shortages == PerTier(0, 0, 0)
  {
    var t := ComputeDifficultyTargets(count);
    TargetsRounding(count);
    BucketTier(cs, Simple, startDate, t.simple);
    BucketTier(cs, Medium, startDate, t.medium);
    BucketTier(cs, Hard, startDate, t.hard);
  }

  /** When the buckets are full: the selection is the start of each bucket in
      hash order up to its target, simple then medium then hard, and each
      tier appears exactly as often as its target asks. */
  lemma SelectByQuotaExact(cs: seq<Labelled>, count: int, startDate: string)
    requires count >= 0
    requires |OfTier(cs, Simple)| >= ComputeDifficultyTargets(count).simple
    requires |OfTier(cs, Medium)| >= ComputeDifficultyTargets(count).medium
    requires |OfTier(cs, Hard)| >= ComputeDifficultyTargets(count).hard
    ensures var t := ComputeDifficultyTargets(count);
      var r := SelectByQuota(cs, count, startDate);
      && r == Head(Bucket(cs, Simple, startDate), t.simple)
        + Head(Bucket(cs, Medium, startDate), t.medium)
        + Head(Bucket(cs, Hard, startDate), t.hard)
      && |OfTier(r, Simple)| == t.simple
      && |OfTier(r, Medium)| == t.medium
      && |OfTier(r, Hard)| == t.hard
  {
    var t := ComputeDifficultyTargets(count);
    TargetsRounding(count);
    BucketTier(cs, Simple, startDate, t.simple);
    BucketTier(cs, Medium, startDate, t.medium);
    BucketTier(cs, Hard, startDate, t.hard);
    var hs := Head(Bucket(cs, Simple, startDate), t.simple);
    var hm := Head(Bucket(cs, Medium, startDate), t.medium);
    var hh := Head(Bucket(cs, Hard, startDate), t.hard);
    var p := Initial(cs, count, startDate);
    InitialFull(cs, count, startDate);
    BorrowAllIdle(p);
    assert AllSelected(p) == hs + hm + hh;
    assert Finish(p, count, startDate) == hs + hm + hh;
    OfTierParts(hs, hm, hh);
  }

  lemma ShortfallInitial(x: Labelled, startDate: string)
    requires x.difficulty == Simple
    ensures Initial([x], 1, startDate) == Pools(PerTier([], [], []), PerTier([x], [], []), PerTier(0, 1, 0))
  {
    var cs := [x];
    assert ComputeDifficultyTargets(1) == PerTier(0, 1, 0);
    assert OfTier(cs, Simple) == [x];
    assert OfTier(cs, Medium) == [] && OfTier(cs, Hard) == [];
    var b := Bucket(cs, Simple, startDate);
    assert |b| == 1 && b[0] in multiset(b);
    assert b == [x];
  }

  lemma ShortfallBorrow(x: Labelled)
    requires x.Matches() == [Simple]
    ensures Borrow(Medium, PerTier([x], [], [])) == (None, PerTier([], [], []))
  {
    assert FirstMatch([x], Medium) == 1;
    assert TakeMatching([x], Medium) == (None, []);
  }

  /** The borrow loop can lose candidates: with a count of one the targets
      are 0/1/0, and a lone simple candidate that only the simple
      guardrail admits is shifted off the simple leftovers while the medium
      quota borrows, so the fallback pool is empty and nothing is
      selected although a candidate was eligible. */
  lemma SelectByQuotaShortfall(x: Labelled, startDate: string)
    requires x.difficulty == Simple && x.Matches() == [Simple]
    ensures SelectByQuota([x], 1, startDate) == []
  {
    var p := Initial([x], 1, startDate);
    ShortfallInitial(x, startDate);
    ShortfallBorrow(x);
    var q := Pools(PerTier([], [], []), PerTier([], [], []), PerTier(0, 1, 0));
    assert Fill(Simple, p) == p;
    assert Fill(Medium, p) == q;
    assert BorrowAll(p) == q;
    assert AllLeftovers(q) == [];
  }
}
