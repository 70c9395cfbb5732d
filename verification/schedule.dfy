/** `interleaveForSchedule` (tools/build-puzzles.mjs): the selected
    candidates are ordered by the cadence medium, simple, medium, hard,
    falling back to the first tier with candidates left when the preferred
    one is empty. */
module Schedule {
  import opened Tiers
  import opened Assign
  import opened Quota

  /** The cadence of tiers. */
  const Pattern: seq<Difficulty> := [Medium, Simple, Medium, Hard]

  /** The candidates still queued, over all tiers. */
  function Queued(q: PerTier<seq<Labelled>>): nat
  {
    |q.simple| + |q.medium| + |q.hard|
  }

  /** The first tier in `DIFFICULTY_ORDER` with a candidate queued. */
  function Fallback(q: PerTier<seq<Labelled>>): (r: Difficulty)
    requires Queued(q) > 0
    ensures |q.Get(r)| > 0
    ensures forall d :: Rank(d) < Rank(r) ==> |q.Get(d)| == 0
  {
    if |q.simple| > 0 then Simple else if |q.medium| > 0 then Medium else Hard
  }

  /** The tier the next candidate comes from at pattern position `idx`:
      the preferred one if it has a candidate, else the fallback. */
  function Pick(q: PerTier<seq<Labelled>>, idx: nat): (r: Difficulty)
    requires Queued(q) > 0
    ensures |q.Get(r)| > 0
    ensures |q.Get(Pattern[idx % 4])| > 0 ==> r == Pattern[idx % 4]
    ensures |q.Get(Pattern[idx % 4])| == 0 ==> forall d :: Rank(d) < Rank(r) ==> |q.Get(d)| == 0
  {
    var preferred := Pattern[idx % 4];
    if |q.Get(preferred)| > 0 then preferred else Fallback(q)
  }

  /** `byDifficulty[d].shift()`: the queues without the head of tier `d`. */
  function Pop(q: PerTier<seq<Labelled>>, d: Difficulty): (r: PerTier<seq<Labelled>>)
    requires |q.Get(d)| > 0
    ensures Queued(r) == Queued(q) - 1
  {
    match d
    case Simple => q.(simple := q.simple[1..])
    case Medium => q.(medium := q.medium[1..])
    case Hard => q.(hard := q.hard[1..])
  }

  /** The loop from pattern position `idx` on. The position advances
      whichever tier the candidate comes from. */
  function Interleave(q: PerTier<seq<Labelled>>, idx: nat): (r: seq<Labelled>)
    ensures |r| == Queued(q)
    decreases Queued(q)
  {
    if Queued(q) == 0 then []
    else
      var d := Pick(q, idx);
      [q.Get(d)[0]] + Interleave(Pop(q, d), idx + 1)
  }

  /** The queues of the three tiers, in input order. */
  function Queues(cs: seq<Labelled>): PerTier<seq<Labelled>>
  {
    PerTier(OfTier(cs, Simple), OfTier(cs, Medium), OfTier(cs, Hard))
  }

  /** `interleaveForSchedule`. */
  function InterleaveForSchedule(cs: seq<Labelled>): (r: seq<Labelled>)
    ensures |r| == |cs|
  {
    OfTierPartition(cs);
    assert |multiset(cs)| == |cs|;
    Interleave(Queues(cs), 0)
  }

  /** The queued candidates, with multiplicity. */
  function Pending(q: PerTier<seq<Labelled>>): multiset<Labelled>
  {
    multiset(q.simple) + multiset(q.medium) + multiset(q.hard)
  }

  lemma PendingPop(q: PerTier<seq<Labelled>>, d: Difficulty)
    requires |q.Get(d)| > 0
    ensures Pending(q) == multiset{q.Get(d)[0]} + Pending(Pop(q, d))
  {
    var queue := q.Get(d);
    assert queue == [queue[0]] + queue[1..];
  }

  /** Everything queued is emitted, once. */
  lemma {:induction false} InterleavePermutation(q: PerTier<seq<Labelled>>, idx: nat)
    ensures multiset(Interleave(q, idx)) == Pending(q)
    decreases Queued(q)
  {
    if Queued(q) > 0 {
      var d := Pick(q, idx);
      var queue := q.Get(d);
      var rest := Pop(q, d);
      InterleavePermutation(rest, idx + 1);
      PendingPop(q, d);
      assert Interleave(q, idx) == [queue[0]] + Interleave(rest, idx + 1);
    }
  }

  /** Each queue holds candidates of its own tier. */
  ghost predicate Homogeneous(q: PerTier<seq<Labelled>>)
  {
    && (forall x :: x in q.simple ==> x.difficulty == Simple)
    && (forall x :: x in q.medium ==> x.difficulty == Medium)
    && (forall x :: x in q.hard ==> x.difficulty == Hard)
  }

  lemma HomogeneousPop(q: PerTier<seq<Labelled>>, d: Difficulty)
    requires Homogeneous(q) && |q.Get(d)| > 0
    ensures Homogeneous(Pop(q, d))
    ensures q.Get(d)[0].difficulty == d
  {
  }

  lemma OfTierHead(h: Labelled, rest: seq<Labelled>, e: Difficulty)
    ensures OfTier([h] + rest, e) == (if h.difficulty == e then [h] else []) + OfTier(rest, e)
  {
    assert ([h] + rest)[1..] == rest;
  }

  lemma PopGet(q: PerTier<seq<Labelled>>, d: Difficulty, e: Difficulty)
    requires |q.Get(d)| > 0
    ensures Pop(q, d).Get(e) == if d == e then q.Get(d)[1..] else q.Get(e)
  {
  }

  lemma TierStep(q: PerTier<seq<Labelled>>, d: Difficulty, tail: seq<Labelled>, e: Difficulty)
    requires |q.Get(d)| > 0 && q.Get(d)[0].difficulty == d
    requires OfTier(tail, e) == Pop(q, d).Get(e)
    ensures OfTier([q.Get(d)[0]] + tail, e) == q.Get(e)
  {
    var queue := q.Get(d);
    var h := queue[0];
    OfTierHead(h, tail, e);
    PopGet(q, d, e);
    if d == e {
      assert OfTier([h] + tail, e) == [h] + queue[1..];
      assert queue == [h] + queue[1..];
    } else {
      assert OfTier([h] + tail, e) == OfTier(tail, e);
    }
  }

  /** Each tier comes out in its queue's order. */
  lemma {:induction false} InterleaveTier(q: PerTier<seq<Labelled>>, idx: nat, e: Difficulty)
    requires Homogeneous(q)
    ensures OfTier(Interleave(q, idx), e) == q.Get(e)
    decreases Queued(q)
  {
    if Queued(q) == 0 {
      assert q.Get(e) == [];
    } else {
      var d := Pick(q, idx);
      var queue := q.Get(d);
      var rest := Pop(q, d);
      HomogeneousPop(q, d);
      InterleaveTier(rest, idx + 1, e);
      var tail := Interleave(rest, idx + 1);
      assert Interleave(q, idx) == [queue[0]] + tail;
      TierStep(q, d, tail, e);
    }
  }

  lemma QueuesHomogeneous(cs: seq<Labelled>)
    ensures Homogeneous(Queues(cs))
  {
  }

  /** The schedule is a permutation of the selection. */
  lemma InterleaveForSchedulePermutation(cs: seq<Labelled>)
    ensures multiset(InterleaveForSchedule(cs)) == multiset(cs)
  {
    var q := Queues(cs);
    OfTierPartition(cs);
    assert InterleaveForSchedule(cs) == Interleave(q, 0);
    InterleavePermutation(q, 0);
  }

  lemma QueuesGet(cs: seq<Labelled>, d: Difficulty)
    ensures Queues(cs).Get(d) == OfTier(cs, d)
  {
  }

  /** Within each tier the schedule keeps the selection's order. */
  lemma InterleaveForScheduleTier(cs: seq<Labelled>, d: Difficulty)
    ensures OfTier(InterleaveForSchedule(cs), d) == OfTier(cs, d)
  {
    var q := Queues(cs);
    assert InterleaveForSchedule(cs) == Interleave(q, 0);
    QueuesHomogeneous(cs);
    InterleaveTier(q, 0, d);
    QueuesGet(cs, d);
  }

  /** The preferred tier is taken when it has a candidate. */
  lemma PickPreferred(q: PerTier<seq<Labelled>>, idx: nat)
    requires |q.Get(Pattern[idx % 4])| > 0
    ensures Pick(q, idx) == Pattern[idx % 4]
  {
  }

  /** One full round of the cadence from a position at its start takes
      two medium candidates, one simple and one hard, when there are
      enough. */
  lemma RoundUnfold(q: PerTier<seq<Labelled>>, idx: nat)
    requires idx % 4 == 0
    requires |q.medium| >= 2 && |q.simple| >= 1 && |q.hard| >= 1
    ensures Interleave(q, idx) ==
      [q.medium[0], q.simple[0], q.medium[1], q.hard[0]]
      + Interleave(PerTier(q.simple[1..], q.medium[2..], q.hard[1..]), idx + 4)
  {
    var q1 := PerTier(q.simple, q.medium[1..], q.hard);
    var q2 := PerTier(q.simple[1..], q.medium[1..], q.hard);
    var q3 := PerTier(q.simple[1..], q.medium[2..], q.hard);
    var q4 := PerTier(q.simple[1..], q.medium[2..], q.hard[1..]);
    assert Pattern[idx % 4] == Medium && Pattern[(idx + 1) % 4] == Simple;
    assert Pattern[(idx + 2) % 4] == Medium && Pattern[(idx + 3) % 4] == Hard;
    PickPreferred(q, idx);
    PickPreferred(q1, idx + 1);
    PickPreferred(q2, idx + 2);
    PickPreferred(q3, idx + 3);
    assert q2.medium[1..] == q.medium[2..];
    var t4 := Interleave(q4, idx + 4);
    var t3 := Interleave(q3, idx + 3);
    var t2 := Interleave(q2, idx + 2);
    var t1 := Interleave(q1, idx + 1);
    assert t3 == [q.hard[0]] + t4;
    assert t2 == [q.medium[1]] + t3;
    assert t1 == [q.simple[0]] + t2;
    assert Interleave(q, idx) == [q.medium[0]] + t1;
  }

  /** One full round of a homogeneous queue: its first four picks carry the
      cadence's labels, and what is left is homogeneous. */
  lemma RoundLabels(q: PerTier<seq<Labelled>>)
    requires Homogeneous(q)
    requires |q.medium| >= 2 && |q.simple| >= 1 && |q.hard| >= 1
    ensures q.medium[0].difficulty == Pattern[0] && q.simple[0].difficulty == Pattern[1]
    ensures q.medium[1].difficulty == Pattern[2] && q.hard[0].difficulty == Pattern[3]
    ensures Homogeneous(PerTier(q.simple[1..], q.medium[2..], q.hard[1..]))
  {
    assert q.medium[0] in q.medium && q.medium[1] in q.medium;
    assert q.simple[0] in q.simple && q.hard[0] in q.hard;
    assert forall x :: x in q.simple[1..] ==> x in q.simple;
    assert forall x :: x in q.medium[2..] ==> x in q.medium;
    assert forall x :: x in q.hard[1..] ==> x in q.hard;
  }

  /** A position one round later has the same place in the cadence. */
  lemma RoundOffset(j: int)
    requires j >= 4
    ensures (j - 4) % 4 == j % 4
  {
  }

  /** While every tier has enough candidates, the schedule follows the
      cadence medium, simple, medium, hard exactly: `k` full rounds need
      `2k` medium, `k` simple and `k` hard candidates. */
  lemma {:induction false} Cadence(q: PerTier<seq<Labelled>>, idx: nat, k: nat)
    requires idx % 4 == 0 && Homogeneous(q)
    requires |q.medium| >= 2 * k && |q.simple| >= k && |q.hard| >= k
    ensures |Interleave(q, idx)| >= 4 * k
    ensures forall j :: 0 <= j < 4 * k ==> Interleave(q, idx)[j].difficulty == Pattern[j % 4]
    decreases k
  {
    if k > 0 {
      var next := PerTier(q.simple[1..], q.medium[2..], q.hard[1..]);
      RoundUnfold(q, idx);
      RoundLabels(q);
      Cadence(next, idx + 4, k - 1);
      var head := [q.medium[0], q.simple[0], q.medium[1], q.hard[0]];
      var rest := Interleave(next, idx + 4);
      var r := head + rest;
      assert Interleave(q, idx) == r;
      forall j | 0 <= j < 4 * k ensures r[j].difficulty == Pattern[j % 4] {
        if j >= 4 {
          assert r[j] == rest[j - 4];
          RoundOffset(j);
        } else {
          assert r[j] == head[j];
        }
      }
    }
  }


  /** The cadence from the start of the selection. */
  lemma InterleaveForScheduleCadence(cs: seq<Labelled>, k: nat)
    requires |OfTier(cs, Medium)| >= 2 * k && |OfTier(cs, Simple)| >= k && |OfTier(cs, Hard)| >= k
    ensures forall j :: 0 <= j < 4 * k ==> InterleaveForSchedule(cs)[j].difficulty == Pattern[j % 4]
  {
    QueuesHomogeneous(cs);
    Cadence(Queues(cs), 0, k);
  }

  /** The last two turns of the example: medium's turn, then simple's. */
  lemma ExampleTail(m3: Labelled, s2: Labelled)
    ensures Interleave(PerTier([s2], [m3], []), 4) == [m3, s2]
  {
    var q4 := PerTier([s2], [m3], []);
    var q5 := PerTier([s2], [], []);
    var empty := PerTier([], [], []);
    PickPreferred(q4, 4);
    assert Pop(q4, Medium) == q5;
    PickPreferred(q5, 5);
    assert Pop(q5, Simple) == empty;
    assert Interleave(q5, 5) == [s2] + Interleave(empty, 6);
  }

  lemma ExampleRun(m1: Labelled, m2: Labelled, m3: Labelled, s1: Labelled, s2: Labelled, h1: Labelled)
    ensures Interleave(PerTier([s1, s2], [m1, m2, m3], [h1]), 0) == [m1, s1, m2, h1, m3, s2]
  {
    var q := PerTier([s1, s2], [m1, m2, m3], [h1]);
    RoundUnfold(q, 0);
    assert PerTier(q.simple[1..], q.medium[2..], q.hard[1..]) == PerTier([s2], [m3], []);
    ExampleTail(m3, s2);
  }

  /** A selection whose tiers are three medium candidates, two simple
      and one hard, in that order within each tier, is scheduled medium,
      simple, medium, hard, medium, simple: two full rounds of the cadence
      would need a second hard candidate, but the sixth turn is simple's. */
  lemma InterleaveExample(cs: seq<Labelled>, m1: Labelled, m2: Labelled, m3: Labelled, s1: Labelled, s2: Labelled, h1: Labelled)
    requires OfTier(cs, Medium) == [m1, m2, m3]
    requires OfTier(cs, Simple) == [s1, s2]
    requires OfTier(cs, Hard) == [h1]
    ensures InterleaveForSchedule(cs) == [m1, s1, m2, h1, m3, s2]
  {
    assert Queues(cs) == PerTier([s1, s2], [m1, m2, m3], [h1]);
    ExampleRun(m1, m2, m3, s1, s2, h1);
  }

  /** The fallback in action: with one medium and three simple candidates,
      the second medium turn and the hard turn both fall back to the simple
      tier, the first in `DIFFICULTY_ORDER` with candidates left. */
  lemma FallbackExample(cs: seq<Labelled>, m1: Labelled, s1: Labelled, s2: Labelled, s3: Labelled)
    requires OfTier(cs, Medium) == [m1]
    requires OfTier(cs, Simple) == [s1, s2, s3]
    requires OfTier(cs, Hard) == []
    ensures InterleaveForSchedule(cs) == [m1, s1, s2, s3]
  {
    assert Queues(cs) == PerTier([s1, s2, s3], [m1], []);
    FallbackRun(m1, s1, s2, s3);
  }

  lemma FallbackRun(m1: Labelled, s1: Labelled, s2: Labelled, s3: Labelled)
    ensures Interleave(PerTier([s1, s2, s3], [m1], []), 0) == [m1, s1, s2, s3]
  {
    var q0 := PerTier([s1, s2, s3], [m1], []);
    PickPreferred(q0, 0);
    assert Pop(q0, Medium) == PerTier([s1, s2, s3], [], []);
    SimpleRun(s1, s2, s3);
  }

  /** Three simple candidates alone, from the cadence's simple turn. */
  lemma SimpleRun(s1: Labelled, s2: Labelled, s3: Labelled)
    ensures Interleave(PerTier([s1, s2, s3], [], []), 1) == [s1, s2, s3]
  {
    var q1 := PerTier([s1, s2, s3], [], []);
    var q2 := PerTier([s2, s3], [], []);
    var q3 := PerTier([s3], [], []);
    assert Pop(q1, Simple) == q2;
    assert Pop(q2, Simple) == q3;
    assert Pop(q3, Simple) == PerTier([], [], []);
    assert Interleave(q3, 3) == [s3];
    assert Interleave(q2, 2) == [s2, s3];
  }
}
