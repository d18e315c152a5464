/** The behaviour mix: which of every twenty users browse, hold or order. */
module Groups {

  datatype Mix = Mix(browse: int, hold: int, order: int) {
    predicate Valid() {
      browse >= 0 && hold >= 0 && order >= 0 && browse + hold + order == 100
    }
  }

  datatype Behaviour = Browse | Hold | Order

  function GroupOf(index: int, seed: int, m: Mix): Behaviour {
    var bucket := (index + seed) % 20 * 5;
    if bucket < m.browse then Browse else if bucket < m.browse + m.hold then Hold else Order
  }

  /** How many of the n users from `start` behave this way. */
  function Members(start: int, n: nat, seed: int, m: Mix, b: Behaviour): nat {
    if n == 0 then 0
    else Members(start, n - 1, seed, m, b) + if GroupOf(start + (n - 1), seed, m) == b then 1 else 0
  }

  lemma {:induction false} MembersFromFront(start: int, n: nat, seed: int, m: Mix, b: Behaviour)
    ensures Members(start, n + 1, seed, m, b)
         == (if GroupOf(start, seed, m) == b then 1 else 0) + Members(start + 1, n, seed, m, b)
  {
    if n > 0 {
      MembersFromFront(start, n - 1, seed, m, b);
      assert start + 1 + (n - 1) == start + n;
    }
  }

  lemma {:induction false} RepeatsEveryTwenty(index: int, seed: int, m: Mix)
    ensures GroupOf(index + 20, seed, m) == GroupOf(index, seed, m)
  {
    assert (index + 20 + seed) % 20 == (index + seed) % 20;
  }

  lemma {:induction false} SlideByOne(start: int, seed: int, m: Mix, b: Behaviour)
    ensures Members(start + 1, 20, seed, m, b) == Members(start, 20, seed, m, b)
  {
    MembersFromFront(start, 20, seed, m, b);
    RepeatsEveryTwenty(start, seed, m);
  }

  /** Every twenty consecutive users have the same mix, wherever they start. */
  lemma {:induction false} AnyTwentyAreAlike(start: int, origin: int, seed: int, m: Mix, b: Behaviour)
    ensures Members(start, 20, seed, m, b) == Members(origin, 20, seed, m, b)
    decreases if start < origin then origin - start else start - origin
  {
    if start < origin {
      AnyTwentyAreAlike(start + 1, origin, seed, m, b);
      SlideByOne(start, seed, m, b);
    } else if start > origin {
      AnyTwentyAreAlike(start - 1, origin, seed, m, b);
      SlideByOne(start - 1, seed, m, b);
    }
  }

  /** The number of buckets 0, 5, 10, ... below a percentage. */
  function Buckets(percent: int): int {
    (percent + 4) / 5
  }

  function Min(a: int, b: int): int {
    if a < b then a else b
  }

  lemma {:induction false} MembersFromAligned(n: nat, seed: int, m: Mix)
    requires m.Valid() && n <= 20
    ensures Members(-seed, n, seed, m, Browse) == Min(n, Buckets(m.browse))
    ensures Members(-seed, n, seed, m, Hold) == Min(n, Buckets(m.browse + m.hold)) - Min(n, Buckets(m.browse))
    ensures Members(-seed, n, seed, m, Order) == n - Min(n, Buckets(m.browse + m.hold))
  {
    if n > 0 {
      MembersFromAligned(n - 1, seed, m);
      assert -seed + (n - 1) + seed == n - 1 && (n - 1) % 20 == n - 1;
    }
  }

  lemma {:induction false} BucketsAreExact(percent: int)
    requires 0 <= percent <= 100
    ensures Buckets(percent) <= 20 && (Buckets(percent) * 5 == percent <==> percent % 5 == 0)
  {
  }

  lemma {:induction false} BlockMembers(start: int, n: nat, seed: int, m: Mix)
    requires m.Valid() && n == 20
    ensures Members(start, n, seed, m, Browse) == Min(n, Buckets(m.browse))
    ensures Members(start, n, seed, m, Hold) == Min(n, Buckets(m.browse + m.hold)) - Min(n, Buckets(m.browse))
    ensures Members(start, n, seed, m, Order) == n - Min(n, Buckets(m.browse + m.hold))
  {
    AnyTwentyAreAlike(start, -seed, seed, m, Browse);
    AnyTwentyAreAlike(start, -seed, seed, m, Hold);
    AnyTwentyAreAlike(start, -seed, seed, m, Order);
    MembersFromAligned(n, seed, m);
  }

  /** A block of twenty has exactly the configured mix if and only if the two boundaries are
      multiples of five percent. */
  lemma {:induction false} BlockIsExactIffMultiplesOfFive(start: int, seed: int, m: Mix)
    requires m.Valid()
    ensures && Members(start, 20, seed, m, Browse) * 5 == m.browse
            && Members(start, 20, seed, m, Hold) * 5 == m.hold
            && Members(start, 20, seed, m, Order) * 5 == m.order
            <==> m.browse % 5 == 0 && m.hold % 5 == 0
  {
    BlockMembers(start, 20, seed, m);
    BucketsAreExact(m.browse);
    BucketsAreExact(m.browse + m.hold);
  }

  lemma {:induction false} MembersAdd(start: int, n: nat, more: nat, seed: int, m: Mix, b: Behaviour)
    ensures Members(start, n + more, seed, m, b)
         == Members(start, n, seed, m, b) + Members(start + n, more, seed, m, b)
  {
    if more > 0 {
      MembersAdd(start, n, more - 1, seed, m, b);
      assert start + n + (more - 1) == start + (n + more - 1);
    }
  }

  lemma {:induction false} ManyBlocks(start: int, blocks: nat, seed: int, m: Mix, b: Behaviour)
    ensures Members(start, 20 * blocks, seed, m, b) == blocks * Members(start, 20, seed, m, b)
  {
    if blocks > 0 {
      var before := 20 * (blocks - 1);
      ManyBlocks(start, blocks - 1, seed, m, b);
      var block := Members(start, 20, seed, m, b);
      assert blocks * block == (blocks - 1) * block + block;
      MembersAdd(start, before, 20, seed, m, b);
      AnyTwentyAreAlike(start + before, start, seed, m, b);
      assert 20 * blocks == before + 20;
    }
  }

  /** The configured 60/25/15 gives exactly 12, 5 and 3 per block, so a population of whole blocks
      is split exactly. */
  lemma {:induction false} ConfiguredMixIsExact(start: int, blocks: nat, seed: int)
    ensures var m := Mix(60, 25, 15);
            && Members(start, 20 * blocks, seed, m, Browse) == 12 * blocks
            && Members(start, 20 * blocks, seed, m, Hold) == 5 * blocks
            && Members(start, 20 * blocks, seed, m, Order) == 3 * blocks
  {
    var m := Mix(60, 25, 15);
    BlockIsExactIffMultiplesOfFive(start, seed, m);
    ManyBlocks(start, blocks, seed, m, Browse);
    ManyBlocks(start, blocks, seed, m, Hold);
    ManyBlocks(start, blocks, seed, m, Order);
  }

  /** The divisibility test on a stage, n * percent divisible by one hundred, does not make the
      split exact: 61 percent of the first hundred users is 65 of them. */
  lemma {:induction false} DivisibleStageNeedNotBeExact(seed: int)
    ensures var m := Mix(61, 24, 15);
            && m.Valid() && 100 * m.browse % 100 == 0 && 100 * m.hold % 100 == 0 && 100 * m.order % 100 == 0
            && Members(0, 20 * 5, seed, m, Browse) == 65
  {
    var m := Mix(61, 24, 15);
    MembersFromAligned(20, seed, m);
    AnyTwentyAreAlike(0, -seed, seed, m, Browse);
    ManyBlocks(0, 5, seed, m, Browse);
  }
}
