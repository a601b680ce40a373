/** The sum check at the end of tests/integration/test_integration.c, in binary32 arithmetic.
    Every value there is a non-negative integer, so a float is modelled by the integer it denotes; the
    exponent is unbounded, since no world that fits in a C int comes near the overflow threshold. */
module Binary32 {

  const SIGNIFICAND_LIMIT: nat := 0x100_0000

  /** n is a binary32 number: a significand below 2^24, doubled any number of times. */
  predicate Representable(n: nat) {
    n < SIGNIFICAND_LIMIT || (n % 2 == 0 && Representable(n / 2))
  }

  predicate EvenSignificand(n: nat) {
    if n < SIGNIFICAND_LIMIT then n % 2 == 0 else EvenSignificand(n / 2)
  }

  function Distance(a: nat, b: nat): nat {
    if a < b then b - a else a - b
  }

  predicate IsFloat(n: nat) {
    Representable(n)
  }

  /** f is x under roundTiesToEven (IEEE 754-2019, section 4.3.1): no binary32 number is nearer,
      and if another is as near then f has the even significand. */
  ghost predicate Rounds(x: nat, f: nat) {
    && IsFloat(f)
    && (forall g :: IsFloat(g) ==> Distance(f, x) <= Distance(g, x))
    && ((exists g :: IsFloat(g) && g != f && Distance(g, x) == Distance(f, x)) ==> EvenSignificand(f))
  }

  /** Rounding a number that is already binary32 does nothing, and nothing else. */
  lemma ExactStaysExact(x: nat, f: nat)
    requires Representable(x)
    ensures Rounds(x, f) <==> f == x
  {
    assert IsFloat(x) && Distance(x, x) == 0;
  }

  /** In particular every integer up to 2^24. */
  lemma SmallStaysExact(x: nat, f: nat)
    requires x <= SIGNIFICAND_LIMIT
    ensures Rounds(x, f) <==> f == x
  {
    ExactStaysExact(x, f);
  }

  // ---- the reduction ----

  /** A reduction tree over ranks, with the float computed at each node; rank r contributes the
      value r + 1. */
  datatype Tree = Leaf(rank: nat, value: nat) | Node(left: Tree, right: Tree, value: nat)

  function Leaves(t: Tree): seq<nat> {
    match t
    case Leaf(rank, _) => [rank]
    case Node(l, r, _) => Leaves(l) + Leaves(r)
  }

  function Ranks(lo: nat, hi: nat): (ranks: seq<nat>)
    requires lo <= hi
    ensures |ranks| == hi - lo
    decreases hi
  {
    if lo == hi then [] else Ranks(lo, hi - 1) + [hi - 1]
  }

  /** The tree reduces every rank of the world exactly once. */
  predicate Covers(t: Tree, world: nat) {
    multiset(Leaves(t)) == multiset(Ranks(0, world))
  }

  /** Every conversion and every addition along the tree was correctly rounded. */
  ghost predicate Computed(t: Tree) {
    match t
    case Leaf(rank, v) => Rounds(rank + 1, v)
    case Node(l, r, v) => Computed(l) && Computed(r) && Rounds(l.value + r.value, v)
  }

  function Sum(ranks: seq<nat>): nat {
    if ranks == [] then 0 else ranks[0] + 1 + Sum(ranks[1..])
  }

  lemma {:induction false} SumOfConcat(a: seq<nat>, b: seq<nat>)
    ensures Sum(a + b) == Sum(a) + Sum(b)
  {
    if a == [] {
      assert a + b == b;
    } else {
      assert (a + b)[1..] == a[1..] + b;
      SumOfConcat(a[1..], b);
    }
  }

  lemma SumWithout(b: seq<nat>, i: nat)
    requires i < |b|
    ensures Sum(b) == b[i] + 1 + Sum(b[..i] + b[i + 1..])
  {
    assert b == b[..i] + b[i..];
    assert b[i..][1..] == b[i + 1..];
    SumOfConcat(b[..i], b[i..]);
    SumOfConcat(b[..i], b[i + 1..]);
  }

  lemma ElementsWithout(b: seq<nat>, i: nat)
    requires i < |b|
    ensures multiset(b[..i] + b[i + 1..]) == multiset(b) - multiset{b[i]}
  {
    assert b == b[..i] + [b[i]] + b[i + 1..];
  }

  /** The first element of a, taken out of both. */
  lemma TakeOut(a: seq<nat>, b: seq<nat>) returns (rest: seq<nat>)
    requires a != [] && multiset(a) == multiset(b)
    ensures multiset(a[1..]) == multiset(rest) && Sum(b) == a[0] + 1 + Sum(rest)
  {
    hide Sum;
    assert a[0] in multiset(a);
    assert a[0] in b;
    var i :| 0 <= i < |b| && b[i] == a[0];
    rest := b[..i] + b[i + 1..];
    SumWithout(b, i);
    ElementsWithout(b, i);
    ElementsWithout(a, 0);
    assert a[..0] + a[1..] == a[1..];
  }

  lemma {:induction false} SumIgnoresOrder(a: seq<nat>, b: seq<nat>)
    requires multiset(a) == multiset(b)
    ensures Sum(a) == Sum(b)
    decreases |a|
  {
    if a == [] {
      assert |multiset(b)| == 0;
    } else {
      var rest := TakeOut(a, b);
      SumIgnoresOrder(a[1..], rest);
    }
  }

  /** Twice the sum of the values of the ranks below world. */
  lemma {:induction false} SumOfRanks(world: nat)
    ensures 2 * Sum(Ranks(0, world)) == world * (world + 1)
  {
    if world == 0 {
    } else {
      SumOfRanks(world - 1);
      SumOfConcat(Ranks(0, world - 1), [world - 1]);
      assert Sum([world - 1]) == world;
      assert world * (world + 1) == (world - 1) * world + 2 * world;
    }
  }

  lemma SumOfLeaf(t: Tree)
    requires t.Leaf?
    ensures Sum(Leaves(t)) == t.rank + 1
  {
  }

  lemma SumOfNode(t: Tree)
    requires t.Node?
    ensures Sum(Leaves(t)) == Sum(Leaves(t.left)) + Sum(Leaves(t.right))
  {
    SumOfConcat(Leaves(t.left), Leaves(t.right));
  }

  /** While the total stays within 2^24 no addition in the tree rounds. */
  lemma {:induction false} SmallSumsAreExact(t: Tree)
    requires Sum(Leaves(t)) <= SIGNIFICAND_LIMIT && Computed(t)
    ensures t.value == Sum(Leaves(t))
  {
    hide Rounds, Sum, Leaves;
    SmallStaysExact(Sum(Leaves(t)), t.value);
    if t.Leaf? {
      SumOfLeaf(t);
    } else {
      SumOfNode(t);
      SmallSumsAreExact(t.left);
      SmallSumsAreExact(t.right);
    }
  }

  /** e is (float)world * (float)(world + 1) / 2.0f: two conversions, a product and a halving, each
      correctly rounded. */
  ghost predicate IsExpected(world: nat, e: nat) {
    exists a: nat, b: nat, p: nat ::
      Rounds(world, a) && Rounds(world + 1, b) && Rounds(a * b, p) && p % 2 == 0 && Rounds(p / 2, e)
  }

  /** The largest world whose rank sum fits in a binary32 significand. */
  const MAX_WORLD: nat := 5792

  lemma {:induction false} MoreRanksMore(lo: nat, hi: nat)
    requires lo <= hi
    ensures Sum(Ranks(0, lo)) <= Sum(Ranks(0, hi))
    decreases hi
  {
    if lo == hi {
    } else {
      MoreRanksMore(lo, hi - 1);
      SumOfConcat(Ranks(0, hi - 1), [hi - 1]);
    }
  }

  lemma RankSumFits(world: nat)
    requires world <= MAX_WORLD
    ensures Sum(Ranks(0, world)) <= SIGNIFICAND_LIMIT
  {
    MoreRanksMore(world, MAX_WORLD);
    SumOfRanks(MAX_WORLD);
  }

  /** The test's own expression is exact, and has no other value. */
  lemma ExpectedIsExact(world: nat, e: nat)
    requires world <= MAX_WORLD
    ensures IsExpected(world, e) <==> e == Sum(Ranks(0, world))
  {
    hide Rounds;
    RankSumFits(world);
    SumOfRanks(world);
    var h := Sum(Ranks(0, world));
    assert Representable(h) && Representable(2 * h);
    assert (2 * h) / 2 == h;
    ExactStaysExact(world, world);
    ExactStaysExact(world + 1, world + 1);
    ExactStaysExact(2 * h, 2 * h);
    ExactStaysExact(h, e);
    if IsExpected(world, e) {
      var a: nat, b: nat, p: nat :|
        Rounds(world, a) && Rounds(world + 1, b) && Rounds(a * b, p) && p % 2 == 0 && Rounds(p / 2, e);
      ExactStaysExact(world, a);
      ExactStaysExact(world + 1, b);
      ExactStaysExact(2 * h, p);
    }
  }

  /** Up to 5792 ranks, every correctly rounded reduction, along whatever tree, is
      world(world+1)/2. */
  lemma ReductionIsExact(t: Tree, world: nat)
    requires Covers(t, world) && Computed(t) && world <= MAX_WORLD
    ensures 2 * t.value == world * (world + 1)
  {
    hide Rounds;
    SumIgnoresOrder(Leaves(t), Ranks(0, world));
    SumOfRanks(world);
    RankSumFits(world);
    SmallSumsAreExact(t);
  }

  // ---- the comparison loop ----

  /** Accepts exactly the expected elements; in particular every element that was reduced along
      some tree over all the ranks. */
  method CheckSums(recv: array<nat>, world: nat, expected: nat) returns (ok: bool)
    requires IsExpected(world, expected)
    ensures ok <==> forall i :: 0 <= i < recv.Length ==> recv[i] == expected
    ensures world <= MAX_WORLD && (forall i :: 0 <= i < recv.Length ==> ReducedSomehow(recv[i], world)) ==> ok
  {
    hide IsExpected, Computed, Covers;
    ok := true;
    for i := 0 to recv.Length
      invariant ok <==> forall j :: 0 <= j < i ==> recv[j] == expected
    {
      if recv[i] != expected {
        ok := false;
      }
    }
    if world <= MAX_WORLD {
      forall i | 0 <= i < recv.Length && ReducedSomehow(recv[i], world) ensures recv[i] == expected {
        var t :| Covers(t, world) && Computed(t) && t.value == recv[i];
        ReductionIsExact(t, world);
        ExpectedIsExact(world, expected);
        SumOfRanks(world);
      }
    }
  }

  ghost predicate ReducedSomehow(value: nat, world: nat) {
    exists t :: Covers(t, world) && Computed(t) && t.value == value
  }
}
