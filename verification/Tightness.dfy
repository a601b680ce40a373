/** The sum check fails for every world above 5792: whatever value is expected, some correctly
    rounded reduction differs from it. Two trees that end in different floats are built, one way
    below 23200 ranks and another from there on. */
module Tightness {
  import opened Binary32
  import opened Rounding

  // ---- building trees ----

  function One(rank: nat): Tree {
    Leaf(rank, Round(rank + 1))
  }

  function Add(l: Tree, r: Tree): Tree {
    Node(l, r, Round(l.value + r.value))
  }

  lemma OneIsComputed(rank: nat)
    ensures Computed(One(rank))
  {
    RoundIsRounded(rank + 1);
  }

  lemma AddIsComputed(l: Tree, r: Tree)
    requires Computed(l) && Computed(r)
    ensures Computed(Add(l, r))
  {
    RoundIsRounded(l.value + r.value);
    hide Round, Rounds;
  }

  lemma OneLeaf(rank: nat)
    ensures Leaves(One(rank)) == [rank]
  {
  }

  lemma AddLeaves(l: Tree, r: Tree)
    ensures multiset(Leaves(Add(l, r))) == multiset(Leaves(l)) + multiset(Leaves(r))
  {
    hide Round;
  }

  lemma AddRounds(l: Tree, r: Tree)
    ensures Add(l, r).value == Round(l.value + r.value)
  {
  }

  lemma AddCovers(l: Tree, r: Tree, world: nat)
    requires multiset(Ranks(0, world)) == multiset(Leaves(l)) + multiset(Leaves(r))
    ensures Covers(Add(l, r), world)
  {
    hide Round, Ranks;
  }

  /** The ranks in the given order, one at a time. */
  function Chain(ranks: seq<nat>): Tree
    requires ranks != []
  {
    if |ranks| == 1 then One(ranks[0])
    else Add(Chain(ranks[..|ranks| - 1]), One(ranks[|ranks| - 1]))
  }

  lemma {:induction false} ChainIsComputed(ranks: seq<nat>)
    requires ranks != []
    ensures Computed(Chain(ranks)) && Leaves(Chain(ranks)) == ranks
    decreases |ranks|
  {
    hide Round, Computed;
    OneIsComputed(ranks[|ranks| - 1]);
    if |ranks| == 1 {
    } else {
      var front := ranks[..|ranks| - 1];
      ChainIsComputed(front);
      AddIsComputed(Chain(front), One(ranks[|ranks| - 1]));
    }
  }

  /** After t, the ranks below k from the top down. */
  function Under(t: Tree, k: nat): Tree
    decreases k
  {
    if k == 0 then t else Under(Add(t, One(k - 1)), k - 1)
  }

  lemma {:induction false} UnderIsComputed(t: Tree, k: nat)
    requires Computed(t)
    ensures Computed(Under(t, k))
    ensures multiset(Leaves(Under(t, k))) == multiset(Leaves(t)) + multiset(Ranks(0, k))
    decreases k
  {
    hide Round, Computed, Leaves, Add;
    if k == 0 {
    } else {
      OneIsComputed(k - 1);
      AddIsComputed(t, One(k - 1));
      AddLeaves(t, One(k - 1));
      OneLeaf(k - 1);
      UnderIsComputed(Add(t, One(k - 1)), k - 1);
    }
  }

  lemma {:induction false} RanksSplit(lo: nat, mid: nat, hi: nat)
    requires lo <= mid <= hi
    ensures Ranks(lo, hi) == Ranks(lo, mid) + Ranks(mid, hi)
    decreases hi
  {
    if mid == hi {
    } else {
      RanksSplit(lo, mid, hi - 1);
    }
  }

  lemma SumOfOneMore(ranks: seq<nat>, rank: nat)
    ensures Sum(ranks + [rank]) == Sum(ranks) + rank + 1
  {
    SumOfConcat(ranks, [rank]);
    assert Sum([rank]) == rank + 1;
  }

  // ---- at least 23200 ranks: small values vanish one by one, but not three at once ----

  /** The ranks from the last one down to m. */
  function Down(world: nat, m: nat): Tree
    requires m < world
    decreases world - m
  {
    if m == world - 1 then One(m) else Add(Down(world, m + 1), One(m))
  }

  lemma {:induction false} DownIsComputed(world: nat, m: nat)
    requires m < world
    ensures Computed(Down(world, m))
    ensures multiset(Leaves(Down(world, m))) == multiset(Ranks(m, world))
    decreases world - m
  {
    hide Round, Computed;
    OneIsComputed(m);
    RanksSplit(m, m + 1, world);
    assert Ranks(m, m + 1) == [m];
    if m == world - 1 {
    } else {
      DownIsComputed(world, m + 1);
      AddIsComputed(Down(world, m + 1), One(m));
    }
  }

  /** The sum so far is a float, and at least the value last added. */
  lemma DownAtLeast(world: nat, m: nat)
    requires m < world
    ensures Representable(Down(world, m).value) && Round(m + 1) <= Down(world, m).value
  {
    hide Round, Representable;
    if m < world - 1 {
      RoundStaysBeside(Down(world, m + 1).value + Round(m + 1), Round(m + 1));
    }
  }

  lemma AddGrows(x: nat, v: nat)
    requires Representable(x) && v <= x
    ensures x <= Round(x + v) <= 2 * x
  {
    hide Round, Representable;
    Doubled(x);
    RoundStaysBeside(x + v, x);
    RoundStaysBeside(x + v, 2 * x);
  }

  lemma DownGrows(world: nat, m: nat)
    requires m + 1 < world
    ensures Down(world, m + 1).value <= Down(world, m).value <= 2 * Down(world, m + 1).value
  {
    hide Round, Representable;
    var x := Down(world, m + 1).value;
    assert Down(world, m).value == Round(x + Round(m + 1));
    hide Down;
    DownAtLeast(world, m + 1);
    RoundIsMonotone(m + 1, m + 2);
    AddGrows(x, Round(m + 1));
  }

  /** Multiples of 16 up to 2^28 are floats. */
  lemma Sixteenfold(q: nat)
    requires q <= SIGNIFICAND_LIMIT
    ensures Representable(16 * q)
  {
    assert Representable(q);
    hide Representable;
    Doubled(q);
    Doubled(2 * q);
    Doubled(4 * q);
    Doubled(8 * q);
  }

  /** Below 2^28 a rounding moves a number by at most 8. */
  lemma RoundsByEight(x: nat)
    requires Round(x) < 0x1000_0000
    ensures x <= Round(x) + 8
  {
    hide Round, Representable;
    Sixteenfold(SIGNIFICAND_LIMIT);
    RoundStaysBeside(x, 0x1000_0000);
    var q := (x + 8) / 16;
    Sixteenfold(q);
    NothingNearer(x, 16 * q);
  }

  /** Until the sum reaches 2^28, each rank costs at most 16. */
  lemma {:induction false} LosesLittle(world: nat, m: nat)
    requires m < world
    ensures || Down(world, m).value >= 0x1000_0000
            || Sum(Ranks(0, world)) <= Sum(Ranks(0, m)) + Down(world, m).value + 16 * (world - m)
    decreases world - m
  {
    hide Round, Sum;
    SumOfOneMore(Ranks(0, m), m);
    if m == world - 1 {
      if Down(world, m).value < 0x1000_0000 {
        RoundsByEight(m + 1);
      }
    } else {
      LosesLittle(world, m + 1);
      DownGrows(world, m);
      if Down(world, m).value < 0x1000_0000 {
        DownAtLeast(world, m);
        RoundsByEight(m + 1);
        RoundsByEight(Down(world, m + 1).value + Round(m + 1));
      }
    }
  }

  lemma {:induction false} LargeTotal(world: nat)
    requires world >= 23200
    ensures Sum(Ranks(0, world)) >= Sum(Ranks(0, 12)) + 0x1000_0000 + 16 * world
  {
    hide Sum;
    if world == 23200 {
      SumOfRanks(23200);
      SumOfRanks(12);
    } else {
      LargeTotal(world - 1);
      SumOfOneMore(Ranks(0, world - 1), world - 1);
    }
  }

  /** The value m is at most three quarters of half an ulp of the sum of the ranks from m up. */
  predicate Vanishing(world: nat, m: nat)
    requires m < world
  {
    4 * m <= 3 * HalfUlp(Down(world, m).value)
  }

  lemma VanishesAtTwelve(world: nat)
    requires world >= 23200
    ensures Vanishing(world, 12)
  {
    hide HalfUlp, Round;
    LosesLittle(world, 12);
    LargeTotal(world);
    HalfUlpRange(Down(world, 12).value);
  }

  lemma LastNeverVanishes(world: nat)
    requires world >= 23200
    ensures !Vanishing(world, world - 1)
  {
    assert Representable(0);
    hide Round, Representable;
    var x := Round(world);
    NothingNearer(world, 0);
    if x >= SIGNIFICAND_LIMIT {
      HalfUlpRange(x);
    }
  }

  /** The highest point, going up from m, from which values start to vanish. */
  lemma {:induction false} TurningPoint(world: nat, m: nat) returns (k: nat)
    requires world >= 23200 && m < world - 1 && Vanishing(world, m)
    ensures m <= k < world - 1 && Vanishing(world, k) && !Vanishing(world, k + 1)
    decreases world - m
  {
    hide Vanishing;
    if m + 1 == world - 1 {
      LastNeverVanishes(world);
      k := m;
    } else if Vanishing(world, m + 1) {
      k := TurningPoint(world, m + 1);
    } else {
      k := m;
    }
  }

  /** At the turning point, m is between three eighths and three quarters of half an ulp. */
  lemma TurningPointBounds(world: nat, m: nat)
    requires 12 <= m < world - 1 && Vanishing(world, m) && !Vanishing(world, m + 1)
    ensures var h := HalfUlp(Down(world, m).value); h >= 16 && 8 * (m + 1) > 3 * h && 4 * m <= 3 * h
    ensures Down(world, m).value >= SIGNIFICAND_LIMIT
  {
    var x, y := Down(world, m + 1).value, Down(world, m).value;
    DownGrows(world, m);
    assert HalfUlp(y) >= 16;
    assert y >= SIGNIFICAND_LIMIT;
    HalfUlpRange(y);
    assert x >= SIGNIFICAND_LIMIT;
    assert HalfUlp(2 * x) == 2 * HalfUlp(x) by {
      assert 2 * x / 2 == x;
    }
    HalfUlpIsMonotone(y, 2 * x);
  }

  /** Values that vanish leave the sum as it is. */
  lemma {:induction false} UnderKeepsValue(t: Tree, k: nat)
    requires Representable(t.value) && t.value >= SIGNIFICAND_LIMIT
    requires HalfUlp(t.value) >= 16 && 4 * k <= 3 * HalfUlp(t.value)
    ensures Under(t, k).value == t.value
    decreases k
  {
    hide Round, Representable, HalfUlp;
    if k == 0 {
    } else {
      ValueVanishes(t.value, k);
      UnderKeepsValue(Add(t, One(k - 1)), k - 1);
    }
  }

  lemma ValueVanishes(x: nat, k: nat)
    requires Representable(x) && x >= SIGNIFICAND_LIMIT
    requires HalfUlp(x) >= 16 && 4 * k <= 3 * HalfUlp(x)
    ensures Round(x + Round(k)) == x
  {
    hide Round, Representable, HalfUlp, PowerOfTwo;
    assert PowerOfTwo(HalfUlp(x)) by {
      HalfUlpRange(x);
    }
    PowerDivides(HalfUlp(x));
    var p := HalfUlp(x) / 4;
    assert HalfUlp(x) == 4 * p;
    Scaled(3, p);
    RoundStaysBeside(k, 3 * p);
    Absorb(x, Round(k));
  }

  function Triple(m: nat): Tree
    requires m >= 3
  {
    Add(Add(One(m - 3), One(m - 2)), One(m - 1))
  }

  lemma TripleIsComputed(m: nat)
    requires m >= 3
    ensures Computed(Triple(m)) && Leaves(Triple(m)) == [m - 3, m - 2, m - 1]
  {
    hide Round, Computed;
    OneIsComputed(m - 3);
    OneIsComputed(m - 2);
    OneIsComputed(m - 1);
    AddIsComputed(One(m - 3), One(m - 2));
    AddIsComputed(Add(One(m - 3), One(m - 2)), One(m - 1));
    assert Leaves(Add(One(m - 3), One(m - 2))) == [m - 3, m - 2];
  }

  /** Three values of at least three eighths make more than one, however they are rounded. */
  lemma TripleIsBig(m: nat, h: nat)
    requires PowerOfTwo(h) && m >= 12 && 8 * (m + 1) > 3 * h
    ensures Triple(m).value > h
  {
    if h <= 32 {
      TripleOfSmall(m);
    } else {
      PowerDivides(h);
      PowerDivides(h / 4);
      var p := h / 4 / 4 / 2;
      assert p >= 2 && h == 32 * p && PowerOfTwo(p);
      TripleOfLarge(m, p);
    }
  }

  lemma TripleOfSmall(m: nat)
    requires m >= 12
    ensures Triple(m).value >= 33
  {
    hide Round;
    RoundStaysBeside(m, 12);
    RoundStaysBeside(m - 1, 11);
    RoundStaysBeside(m - 2, 10);
    RoundStaysBeside(Round(m - 2) + Round(m - 1), 21);
    RoundStaysBeside(Round(Round(m - 2) + Round(m - 1)) + Round(m), 33);
  }

  lemma TripleOfLarge(m: nat, p: nat)
    requires PowerOfTwo(p) && p >= 2 && m >= 12 * p
    ensures Triple(m).value >= 33 * p
  {
    hide Round, Representable, PowerOfTwo;
    Scaled(11, p);
    Scaled(22, p);
    Scaled(33, p);
    RoundStaysBeside(m, 11 * p);
    RoundStaysBeside(m - 1, 11 * p);
    RoundStaysBeside(m - 2, 11 * p);
    RoundStaysBeside(Round(m - 2) + Round(m - 1), 22 * p);
    RoundStaysBeside(Round(Round(m - 2) + Round(m - 1)) + Round(m), 33 * p);
  }

  lemma LowRanks(world: nat, m: nat)
    requires 3 <= m < world
    ensures multiset(Ranks(0, world)) == multiset(Ranks(m, world)) + multiset(Ranks(0, m))
    ensures multiset(Ranks(0, m)) == multiset(Ranks(0, m - 3)) + multiset([m - 3, m - 2, m - 1])
  {
    hide Ranks;
    RanksSplit(0, m, world);
    RanksSplit(0, m - 3, m);
    ThreeRanks(m - 3);
  }

  lemma ThreeRanks(k: nat)
    ensures Ranks(k, k + 3) == [k, k + 1, k + 2]
  {
    assert Ranks(k, k + 1) == [k];
    assert Ranks(k, k + 2) == [k, k + 1];
  }

  /** Adding the values from m down one at a time. */
  lemma OneByOne(world: nat, m: nat) returns (t: Tree)
    requires 12 <= m < world - 1 && Vanishing(world, m) && !Vanishing(world, m + 1)
    ensures Covers(t, world) && Computed(t) && t.value == Down(world, m).value
  {
    hide Round, Representable, HalfUlp, Computed, Vanishing, Down, Under;
    TurningPointBounds(world, m);
    DownIsComputed(world, m);
    DownAtLeast(world, m);
    t := Under(Down(world, m), m);
    UnderIsComputed(Down(world, m), m);
    UnderKeepsValue(Down(world, m), m);
    LowRanks(world, m);
  }

  /** The same, but with the three largest of them added to each other first. */
  lemma ThreeAtOnce(world: nat, m: nat) returns (t: Tree)
    requires 12 <= m < world - 1 && Vanishing(world, m) && !Vanishing(world, m + 1)
    ensures Covers(t, world) && Computed(t) && t.value > Down(world, m).value
  {
    hide Round, Representable, HalfUlp, PowerOfTwo, Computed, Vanishing, Down, Under, Triple, Covers, Leaves, Ranks;
    TurningPointBounds(world, m);
    DownIsComputed(world, m);
    DownAtLeast(world, m);
    var x, y := Under(Down(world, m), m - 3), Triple(m);
    UnderIsComputed(Down(world, m), m - 3);
    UnderKeepsValue(Down(world, m), m - 3);
    TripleIsComputed(m);
    AddIsComputed(x, y);
    HalfUlpRange(x.value);
    TripleIsBig(m, HalfUlp(x.value));
    Push(x.value, y.value);
    t := Add(x, y);
    LowRanks(world, m);
    AddCovers(x, y, world);
  }

  lemma LargeWorldsDiffer(world: nat) returns (t: Tree, u: Tree)
    requires world >= 23200
    ensures Covers(t, world) && Computed(t) && Covers(u, world) && Computed(u) && t.value != u.value
  {
    hide Computed, Vanishing, Down, Covers;
    VanishesAtTwelve(world);
    var m := TurningPoint(world, 12);
    t := OneByOne(world, m);
    u := ThreeAtOnce(world, m);
  }

  // ---- from 5793 to 23199 ranks: an exact sum, then the two ties ----

  /** Moving a range of ranks up by one adds one for each rank. */
  lemma {:induction false} ShiftedSum(lo: nat, n: nat)
    ensures Sum(Ranks(lo + 1, lo + 1 + n)) == Sum(Ranks(lo, lo + n)) + n
  {
    if n == 0 {
    } else {
      ShiftedSum(lo, n - 1);
      SumOfOneMore(Ranks(lo, lo + n - 1), lo + n - 1);
      SumOfOneMore(Ranks(lo + 1, lo + n), lo + n);
    }
  }

  /** 64 ranks in a row have a sum that is a multiple of 32. */
  lemma {:induction false} BlockSum(lo: nat)
    ensures Sum(Ranks(lo, lo + 64)) == 64 * lo + 2080
  {
    if lo == 0 {
      SumOfRanks(64);
    } else {
      BlockSum(lo - 1);
      ShiftedSum(lo - 1, 64);
    }
  }

  /** 64 ranks in a row: a tree whose value is exact. */
  lemma Block(lo: nat) returns (t: Tree)
    requires lo <= 23200
    ensures Computed(t) && multiset(Leaves(t)) == multiset(Ranks(lo, lo + 64))
    ensures t.value == Sum(Ranks(lo, lo + 64)) == 32 * (2 * lo + 65)
  {
    hide Computed, Sum, Chain;
    t := Chain(Ranks(lo, lo + 64));
    ChainIsComputed(Ranks(lo, lo + 64));
    BlockSum(lo);
    SmallSumsAreExact(t);
  }

  /** Whole blocks add up exactly: every partial sum is a multiple of 32 of at most 2^29. */
  lemma {:induction false} BlocksAddUp(lo: nat, n: nat) returns (t: Tree, q: nat)
    requires n > 0 && lo + 64 * n <= 23200
    ensures Computed(t) && multiset(Leaves(t)) == multiset(Ranks(lo, lo + 64 * n))
    ensures t.value == Sum(Ranks(lo, lo + 64 * n)) == 32 * q
    decreases n
  {
    hide Computed, Leaves, Sum, Round, Add, Ranks;
    var hi := lo + 64 * (n - 1);
    var block := Block(hi);
    if n == 1 {
      t, q := block, 2 * hi + 65;
    } else {
      var front, p := BlocksAddUp(lo, n - 1);
      t, q := Add(front, block), p + 2 * hi + 65;
      AddIsComputed(front, block);
      RanksSplit(lo, hi, hi + 64);
      SumOfConcat(Ranks(lo, hi), Ranks(hi, hi + 64));
      SumIsSmall(lo, hi + 64);
      AddExactly(front, block, q);
      AddLeaves(front, block);
    }
  }

  lemma SumIsSmall(lo: nat, hi: nat)
    requires lo <= hi <= 23200
    ensures Sum(Ranks(lo, hi)) <= 0x2000_0000
  {
    hide Sum;
    RanksSplit(0, lo, hi);
    SumOfConcat(Ranks(0, lo), Ranks(lo, hi));
    MoreRanksMore(hi, 23200);
    SumOfRanks(23200);
  }

  lemma AddExactly(l: Tree, r: Tree, q: nat)
    requires l.value + r.value == 32 * q && q <= SIGNIFICAND_LIMIT
    ensures Add(l, r).value == l.value + r.value
  {
    hide Round, Representable;
    Sixteenfold(q);
    Doubled(16 * q);
    RoundExact(32 * q);
  }

  lemma {:induction false} RankAt(hi: nat, i: nat)
    requires i < hi
    ensures Ranks(0, hi)[i] == i
  {
    if i == hi - 1 {
    } else {
      RankAt(hi - 1, i);
    }
  }

  function Without(ranks: seq<nat>, i: nat): seq<nat>
    requires i < |ranks|
  {
    ranks[..i] + ranks[i + 1..]
  }

  /** The ranks below lo, except those with the values h and 2h. */
  function Others(h: nat, lo: nat): (others: seq<nat>)
    requires 0 < h && 2 * h <= lo
    ensures |others| == lo - 2
  {
    Without(Without(Ranks(0, lo), 2 * h - 1), h - 1)
  }

  lemma PutBack(ranks: seq<nat>, i: nat)
    requires i < |ranks|
    ensures multiset(ranks) == multiset(Without(ranks, i)) + multiset([ranks[i]])
    ensures Sum(ranks) == Sum(Without(ranks, i)) + ranks[i] + 1
  {
    SumWithout(ranks, i);
    ElementsWithout(ranks, i);
    assert ranks[i] in multiset(ranks);
  }

  lemma PutBothBack(ranks: seq<nat>, i: nat, j: nat)
    requires j < i < |ranks|
    ensures multiset(ranks) == multiset(Without(Without(ranks, i), j)) + multiset([ranks[j]]) + multiset([ranks[i]])
    ensures Sum(ranks) == Sum(Without(Without(ranks, i), j)) + ranks[j] + 1 + ranks[i] + 1
  {
    hide Sum;
    assert Without(ranks, i)[j] == ranks[j];
    hide Without;
    PutBack(ranks, i);
    PutBack(Without(ranks, i), j);
  }

  lemma OthersAreTheRest(h: nat, lo: nat)
    requires 0 < h && 2 * h <= lo
    ensures multiset(Ranks(0, lo)) == multiset(Others(h, lo)) + multiset([h - 1]) + multiset([2 * h - 1])
    ensures Sum(Ranks(0, lo)) == Sum(Others(h, lo)) + 3 * h
  {
    hide Ranks, Sum, Without;
    RankAt(lo, h - 1);
    RankAt(lo, 2 * h - 1);
    PutBothBack(Ranks(0, lo), 2 * h - 1, h - 1);
  }

  /** All ranks but two, with a sum that was rounded once at most. */
  lemma AllButTwo(world: nat, h: nat) returns (t: Tree)
    requires MAX_WORLD < world <= 23200 && 0 < h <= 16
    ensures Sum(Ranks(0, world)) >= 3 * h
    ensures Computed(t) && t.value == Round(Sum(Ranks(0, world)) - 3 * h)
    ensures multiset(Ranks(0, world)) == multiset(Leaves(t)) + multiset([h - 1]) + multiset([2 * h - 1])
  {
    hide Computed, Leaves, Sum, Round, Add, Ranks, Others, Chain;
    var n := world / 64 - 1;
    var lo := world - 64 * n;
    var blocks, _ := BlocksAddUp(lo, n);
    OthersAreTheRest(h, lo);
    var low := Others(h, lo);
    assert Sum(Ranks(0, lo)) <= SIGNIFICAND_LIMIT by {
      MoreRanksMore(lo, MAX_WORLD);
      SumOfRanks(MAX_WORLD);
    }
    ChainIsComputed(low);
    SmallSumsAreExact(Chain(low));
    RanksSplit(0, lo, world);
    SumOfConcat(Ranks(0, lo), Ranks(lo, world));
    t := Add(blocks, Chain(low));
    AddIsComputed(blocks, Chain(low));
    AddLeaves(blocks, Chain(low));
    AddRounds(blocks, Chain(low));
  }

  /** Half an ulp and a whole one, in either order, on either side of a tie. */
  lemma TwoTies(x: nat, h: nat)
    requires Representable(x) && x >= SIGNIFICAND_LIMIT && h == HalfUlp(x) > 0
    requires x + 4 * h <= 2 * SIGNIFICAND_LIMIT * h
    ensures Round(Round(x + h) + 2 * h) != Round(Round(x + 2 * h) + h)
  {
    hide Representable, HalfUlp, EvenSignificand, Round;
    Tie(x);
    WholeUlp(x);
    NextIsOther(x);
    var y := x + 2 * h;
    RoundExact(y);
    assert Representable(y) by {
      NextFloat(x, Above(x + 1));
    }
    Tie(y);
    WholeUlp(y);
  }

  /** The two orders of the values h and 2h after all the others. */
  lemma TwoOrders(world: nat, h: nat) returns (t: Tree, u: Tree)
    requires MAX_WORLD < world <= 23200 && 0 < h <= 16 && PowerOfTwo(h)
    requires SIGNIFICAND_LIMIT * h + 3 * h <= Sum(Ranks(0, world)) <= 2 * SIGNIFICAND_LIMIT * h - h
    ensures Covers(t, world) && Computed(t) && Covers(u, world) && Computed(u) && t.value != u.value
  {
    hide Computed, Leaves, Sum, Round, Add, Ranks, Representable, HalfUlp, PowerOfTwo;
    var rest := AllButTwo(world, h);
    InBinade(Sum(Ranks(0, world)) - 3 * h, h);
    TwoTies(rest.value, h);
    var a, b := One(h - 1), One(2 * h - 1);
    OneIsComputed(h - 1);
    OneIsComputed(2 * h - 1);
    assert a.value == h && b.value == 2 * h by {
      RoundSmall(h);
      RoundSmall(2 * h);
    }
    OneLeaf(h - 1);
    OneLeaf(2 * h - 1);
    t, u := Add(Add(rest, a), b), Add(Add(rest, b), a);
    AddTwo(rest, a, b, world);
    AddTwo(rest, b, a, world);
  }

  lemma RoundSmall(x: nat)
    requires x <= SIGNIFICAND_LIMIT
    ensures Round(x) == x
  {
    RoundExact(x);
  }

  lemma AddTwo(rest: Tree, a: Tree, b: Tree, world: nat)
    requires Computed(rest) && Computed(a) && Computed(b)
    requires multiset(Ranks(0, world)) == multiset(Leaves(rest)) + multiset(Leaves(a)) + multiset(Leaves(b))
    ensures Computed(Add(Add(rest, a), b)) && Covers(Add(Add(rest, a), b), world)
    ensures Add(Add(rest, a), b).value == Round(Round(rest.value + a.value) + b.value)
  {
    hide Computed, Round, Leaves, Add, Ranks;
    AddIsComputed(rest, a);
    AddIsComputed(Add(rest, a), b);
    AddRounds(rest, a);
    AddRounds(Add(rest, a), b);
    AddLeaves(rest, a);
    AddLeaves(Add(rest, a), b);
  }

  lemma InBinade(x: nat, h: nat)
    requires 0 < h <= 16 && PowerOfTwo(h)
    requires SIGNIFICAND_LIMIT * h <= x <= 2 * SIGNIFICAND_LIMIT * h - 4 * h
    ensures HalfUlp(Round(x)) == h
    ensures SIGNIFICAND_LIMIT * h <= Round(x) <= 2 * SIGNIFICAND_LIMIT * h - 4 * h
  {
    hide Round, Representable, HalfUlp;
    Scaled(SIGNIFICAND_LIMIT / 2, h);
    Scaled(SIGNIFICAND_LIMIT - 2, h);
    Doubled(SIGNIFICAND_LIMIT / 2 * h);
    Doubled((SIGNIFICAND_LIMIT - 2) * h);
    RoundStaysBeside(x, SIGNIFICAND_LIMIT * h);
    RoundStaysBeside(x, 2 * SIGNIFICAND_LIMIT * h - 4 * h);
    HalfUlpIs(Round(x), h);
  }

  lemma TotalBetween(lo: nat, world: nat, hi: nat)
    requires lo <= world <= hi
    ensures lo * (lo + 1) <= 2 * Sum(Ranks(0, world)) <= hi * (hi + 1)
  {
    hide Sum;
    MoreRanksMore(lo, world);
    MoreRanksMore(world, hi);
    SumOfRanks(lo);
    SumOfRanks(hi);
  }

  lemma SmallWorldsDiffer(world: nat) returns (t: Tree, u: Tree)
    requires MAX_WORLD < world < 23200
    ensures Covers(t, world) && Computed(t) && Covers(u, world) && Computed(u) && t.value != u.value
  {
    hide Computed, Covers, Sum, Ranks;
    assert PowerOfTwo(1) && PowerOfTwo(2) && PowerOfTwo(4) && PowerOfTwo(8) && PowerOfTwo(16);
    hide PowerOfTwo;
    if world <= 8191 {
      TotalBetween(5793, world, 8191);
      t, u := TwoOrders(world, 1);
    } else if world <= 11584 {
      TotalBetween(8192, world, 11584);
      t, u := TwoOrders(world, 2);
    } else if world <= 16383 {
      TotalBetween(11585, world, 16383);
      t, u := TwoOrders(world, 4);
    } else if world <= 23169 {
      TotalBetween(16384, world, 23169);
      t, u := TwoOrders(world, 8);
    } else {
      TotalBetween(23170, world, 23199);
      t, u := TwoOrders(world, 16);
    }
  }

  // ---- the bound ----

  /** Above 5792 ranks no expected value is right: some correctly rounded reduction differs from it. */
  lemma AlwaysAMismatch(world: nat, e: nat) returns (t: Tree)
    requires world > MAX_WORLD
    ensures Covers(t, world) && Computed(t) && t.value != e
  {
    hide Computed, Covers;
    var u;
    if world < 23200 {
      t, u := SmallWorldsDiffer(world);
    } else {
      t, u := LargeWorldsDiffer(world);
    }
    t := if t.value == e then u else t;
  }

  /** The test's expression always has a value. */
  lemma SomethingIsExpected(world: nat) returns (e: nat)
    ensures IsExpected(world, e)
  {
    if world <= MAX_WORLD {
      e := Sum(Ranks(0, world));
      ExpectedIsExact(world, e);
    } else {
      hide Rounds, Round, Representable;
      var a, b := Round(world), Round(world + 1);
      RoundIsRounded(world);
      RoundIsRounded(world + 1);
      assert a >= 5793 && b >= 5793 by {
        RoundSmall(5793);
        RoundIsMonotone(5793, world);
        RoundIsMonotone(5793, world + 1);
      }
      ProductIsLarge(a, b);
      var product := a * b;
      var p := Round(product);
      RoundIsRounded(product);
      LargeIsEven(product);
      e := Round(p / 2);
      RoundIsRounded(p / 2);
    }
  }

  lemma LargeIsEven(x: nat)
    requires x >= SIGNIFICAND_LIMIT
    ensures Round(x) % 2 == 0
  {
    assert Representable(SIGNIFICAND_LIMIT) && Representable(Round(x));
    RoundStaysBeside(x, SIGNIFICAND_LIMIT);
  }

  lemma ProductIsLarge(a: nat, b: nat)
    requires a >= 5793 && b >= 5793
    ensures a * b >= SIGNIFICAND_LIMIT
  {
    assert a * b >= 5793 * b;
  }

  /** The check can only fail on a wrong sum: every correctly rounded reduction equals every correctly
      rounded value of the test's expression. */
  ghost predicate CheckIsSound(world: nat) {
    forall t, e :: Covers(t, world) && Computed(t) && IsExpected(world, e) ==> t.value == e
  }

  /** The check never rejects a correctly rounded reduction exactly up to 5792 ranks. */
  lemma BoundIsTight(world: nat)
    ensures CheckIsSound(world) <==> world <= MAX_WORLD
  {
    hide Computed, Covers, IsExpected;
    if world <= MAX_WORLD {
      forall t, e | Covers(t, world) && Computed(t) && IsExpected(world, e) ensures t.value == e {
        ReductionIsExact(t, world);
        ExpectedIsExact(world, e);
        SumOfRanks(world);
      }
    } else {
      var e := SomethingIsExpected(world);
      var t := AlwaysAMismatch(world, e);
      assert !(Covers(t, world) && Computed(t) && IsExpected(world, e) ==> t.value == e);
    }
  }
}
