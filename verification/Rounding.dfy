/** Rounding to binary32 as a function, and the spacing of binary32 numbers from 2^24 up. */
module Rounding {
  import opened Binary32

  /** The greatest binary32 number that is at most x. */
  function Below(x: nat): (f: nat)
    ensures Representable(f) && f <= x
  {
    if x < SIGNIFICAND_LIMIT then x else 2 * Below(x / 2)
  }

  /** The least binary32 number that is at least x. */
  function Above(x: nat): (f: nat)
    ensures Representable(f) && x <= f
  {
    if x <= SIGNIFICAND_LIMIT then x else 2 * Above((x + 1) / 2)
  }

  lemma {:induction false} BelowIsGreatest(x: nat, g: nat)
    requires Representable(g) && g <= x
    ensures g <= Below(x)
    decreases x
  {
    if x < SIGNIFICAND_LIMIT {
    } else if g < SIGNIFICAND_LIMIT {
      BelowIsGreatest(x / 2, SIGNIFICAND_LIMIT / 2);
    } else {
      BelowIsGreatest(x / 2, g / 2);
    }
  }

  lemma {:induction false} AboveIsLeast(x: nat, g: nat)
    requires Representable(g) && x <= g
    ensures Above(x) <= g
    decreases x
  {
    if x <= SIGNIFICAND_LIMIT {
    } else {
      AboveIsLeast((x + 1) / 2, g / 2);
    }
  }

  lemma AboveIsAtLeastHalf(x: nat)
    requires x >= SIGNIFICAND_LIMIT
    ensures Above(x + 1) == 2 * Above(x / 2 + 1) && Above(x / 2 + 1) > SIGNIFICAND_LIMIT / 2
  {
    assert (x + 2) / 2 == x / 2 + 1;
  }

  /** Of two neighbours exactly one has an even significand. */
  lemma {:induction false} OneIsEven(x: nat)
    ensures EvenSignificand(Below(x)) <==> !EvenSignificand(Above(x + 1))
  {
    if x < SIGNIFICAND_LIMIT {
      assert EvenSignificand(SIGNIFICAND_LIMIT / 2);
    } else {
      OneIsEven(x / 2);
      BelowIsGreatest(x / 2, SIGNIFICAND_LIMIT / 2);
      AboveIsAtLeastHalf(x);
    }
  }

  lemma TieHasEven(x: nat)
    requires !Representable(x)
    ensures EvenSignificand(Below(x)) <==> !EvenSignificand(Above(x))
  {
    OneIsEven(x);
    AboveIsLeast(x, Above(x + 1));
    AboveIsLeast(x + 1, Above(x));
  }

  /** The nearer neighbour, and of two equally near ones the even one. */
  function Round(x: nat): (f: nat)
    ensures Representable(f)
  {
    var b, a := Below(x), Above(x);
    if x - b < a - x then b else if a - x < x - b then a else if EvenSignificand(b) then b else a
  }

  lemma NothingNearer(x: nat, g: nat)
    requires Representable(g)
    ensures Distance(Round(x), x) <= Distance(g, x)
    ensures Distance(Round(x), x) == Distance(g, x) && g != Round(x) ==> EvenSignificand(Round(x))
  {
    hide Representable, EvenSignificand, Below, Above;
    if g <= x {
      BelowIsGreatest(x, g);
    }
    if x <= g {
      AboveIsLeast(x, g);
    }
    if Representable(x) {
      BelowIsGreatest(x, x);
    } else {
      TieHasEven(x);
    }
  }

  lemma RoundIsRounded(x: nat)
    ensures Rounds(x, Round(x))
  {
    hide Representable, EvenSignificand, Below, Above, Round;
    assert IsFloat(Round(x));
    forall g | IsFloat(g)
      ensures Distance(Round(x), x) <= Distance(g, x)
      ensures Distance(Round(x), x) == Distance(g, x) && g != Round(x) ==> EvenSignificand(Round(x))
    {
      NothingNearer(x, g);
    }
  }

  lemma Doubled(x: nat)
    requires Representable(x)
    ensures Representable(2 * x)
  {
    assert 2 * x / 2 == x;
  }

  /** Correct rounding is a function: of every x there is exactly one. */
  lemma RoundsExactly(x: nat, f: nat)
    ensures Rounds(x, f) <==> f == Round(x)
  {
    RoundIsRounded(x);
    if Rounds(x, f) {
      RoundedIsUnique(x, f);
    }
  }

  lemma RoundedIsUnique(x: nat, f: nat)
    requires Rounds(x, f)
    ensures f == Round(x)
  {
    hide Representable, EvenSignificand, Below, Above;
    assert IsFloat(Below(x)) && IsFloat(Above(x)) && IsFloat(f);
    if f <= x {
      BelowIsGreatest(x, f);
    } else {
      AboveIsLeast(x, f);
    }
    if Representable(x) {
      BelowIsGreatest(x, x);
      AboveIsLeast(x, x);
    } else {
      TieHasEven(x);
    }
  }

  /** Rounding never crosses a binary32 number. */
  lemma RoundStaysBeside(x: nat, c: nat)
    requires Representable(c)
    ensures c <= x ==> c <= Round(x)
    ensures x <= c ==> Round(x) <= c
  {
    hide Representable, EvenSignificand, Below, Above;
    if c <= x {
      BelowIsGreatest(x, c);
    }
    if x <= c {
      AboveIsLeast(x, c);
    }
  }

  lemma RoundExact(x: nat)
    requires Representable(x)
    ensures Round(x) == x
  {
    RoundStaysBeside(x, x);
  }

  lemma RoundIsMonotone(x: nat, y: nat)
    requires x <= y
    ensures Round(x) <= Round(y)
  {
    hide Representable, EvenSignificand;
    if x < y {
      if Round(y) < Round(x) {
        RoundStaysBeside(x, Round(y));
        RoundStaysBeside(y, Round(x));
        NothingNearer(x, Round(y));
        NothingNearer(y, Round(x));
      }
    }
  }

  // ---- spacing ----

  /** Half the distance from x, if it is binary32 and at least 2^24, to the next binary32 number. */
  function HalfUlp(x: nat): nat {
    if x < SIGNIFICAND_LIMIT then 0 else if x < 2 * SIGNIFICAND_LIMIT then 1 else 2 * HalfUlp(x / 2)
  }

  predicate PowerOfTwo(n: nat) {
    n == 1 || (n > 0 && n % 2 == 0 && PowerOfTwo(n / 2))
  }

  lemma {:induction false} HalfUlpRange(x: nat)
    requires x >= SIGNIFICAND_LIMIT
    ensures PowerOfTwo(HalfUlp(x))
    ensures SIGNIFICAND_LIMIT * HalfUlp(x) <= x < 2 * SIGNIFICAND_LIMIT * HalfUlp(x)
  {
    if x < 2 * SIGNIFICAND_LIMIT {
    } else {
      HalfUlpRange(x / 2);
    }
  }

  lemma {:induction false} HalfUlpIs(x: nat, h: nat)
    requires PowerOfTwo(h) && SIGNIFICAND_LIMIT * h <= x < 2 * SIGNIFICAND_LIMIT * h
    ensures HalfUlp(x) == h
    decreases h
  {
    if h == 1 {
    } else {
      HalfUlpIs(x / 2, h / 2);
    }
  }

  lemma {:induction false} HalfUlpIsMonotone(x: nat, y: nat)
    requires x <= y
    ensures HalfUlp(x) <= HalfUlp(y)
  {
    if y < 2 * SIGNIFICAND_LIMIT {
    } else if x < 2 * SIGNIFICAND_LIMIT {
      HalfUlpRange(y);
    } else {
      HalfUlpIsMonotone(x / 2, y / 2);
    }
  }

  /** The next binary32 number after x is x + 2 * HalfUlp(x). */
  lemma {:induction false} NextFloat(x: nat, g: nat)
    requires Representable(x) && x >= SIGNIFICAND_LIMIT
    requires Representable(g) && x < g
    ensures Representable(x + 2 * HalfUlp(x)) && x + 2 * HalfUlp(x) <= g
  {
    if x < 2 * SIGNIFICAND_LIMIT {
      assert (x + 2) / 2 <= SIGNIFICAND_LIMIT;
    } else {
      NextFloat(x / 2, g / 2);
    }
  }

  /** The two neighbours of a number strictly between x and the next binary32 number. */
  lemma Neighbours(x: nat, v: nat)
    requires Representable(x) && x >= SIGNIFICAND_LIMIT && 0 < v < 2 * HalfUlp(x)
    ensures Below(x + v) == x && Above(x + v) == x + 2 * HalfUlp(x)
  {
    hide Representable, HalfUlp, Below, Above;
    BelowIsGreatest(x + v, x);
    NextFloat(x, Above(x + v));
    AboveIsLeast(x + v, x + 2 * HalfUlp(x));
    if Below(x + v) > x {
      NextFloat(x, Below(x + v));
    }
  }

  /** Less than half an ulp is lost. */
  lemma Absorb(x: nat, v: nat)
    requires Representable(x) && x >= SIGNIFICAND_LIMIT && v < HalfUlp(x)
    ensures Round(x + v) == x
  {
    hide Representable, HalfUlp, Below, Above, EvenSignificand;
    if v == 0 {
      RoundExact(x);
    } else {
      Neighbours(x, v);
    }
  }

  /** More than half an ulp is not. */
  lemma Push(x: nat, v: nat)
    requires Representable(x) && x >= SIGNIFICAND_LIMIT && v > HalfUlp(x)
    ensures Round(x + v) > x
  {
    hide Representable, Below, Above, EvenSignificand;
    HalfUlpRange(x);
    if v < 2 * HalfUlp(x) {
      Neighbours(x, v);
    } else {
      NextFloat(x, Above(x + 1));
      RoundStaysBeside(x + v, x + 2 * HalfUlp(x));
    }
  }

  /** Exactly half an ulp goes to the even side. */
  lemma Tie(x: nat)
    requires Representable(x) && x >= SIGNIFICAND_LIMIT
    ensures Round(x + HalfUlp(x)) == if EvenSignificand(x) then x else x + 2 * HalfUlp(x)
  {
    HalfUlpRange(x);
    hide Representable, Below, Above, EvenSignificand, HalfUlp;
    Neighbours(x, HalfUlp(x));
  }

  /** In the first binade above 2^24, where the floats are the even numbers, an odd number goes to the
      neighbour that is a multiple of 4. */
  lemma OddGoesToMultipleOfFour(k: nat, f: nat)
    requires k < 0x40_0000
    ensures Rounds(0x100_0000 + 4 * k + 1, f) <==> f == 0x100_0000 + 4 * k
    ensures Rounds(0x100_0000 + 4 * k + 3, f) <==> f == 0x100_0000 + 4 * k + 4
  {
    var x := SIGNIFICAND_LIMIT + 4 * k;
    assert Representable(x) && Representable(x + 2) && HalfUlp(x) == 1 && HalfUlp(x + 2) == 1;
    assert EvenSignificand(x) && !EvenSignificand(x + 2);
    hide Rounds, Round, Representable, EvenSignificand, HalfUlp;
    Tie(x);
    Tie(x + 2);
    RoundsExactly(x + 1, f);
    RoundsExactly(x + 3, f);
  }

  /** A whole ulp is exact. */
  lemma WholeUlp(x: nat)
    requires Representable(x) && x >= SIGNIFICAND_LIMIT
    ensures Round(x + 2 * HalfUlp(x)) == x + 2 * HalfUlp(x)
  {
    hide Representable, Round, HalfUlp;
    NextFloat(x, Above(x + 1));
    RoundExact(x + 2 * HalfUlp(x));
  }

  /** Within a binade the spacing stays and parities alternate. */
  lemma {:induction false} NextIsOther(x: nat)
    requires Representable(x) && x >= SIGNIFICAND_LIMIT
    requires x + 2 * HalfUlp(x) < 2 * SIGNIFICAND_LIMIT * HalfUlp(x)
    ensures HalfUlp(x + 2 * HalfUlp(x)) == HalfUlp(x)
    ensures EvenSignificand(x + 2 * HalfUlp(x)) <==> !EvenSignificand(x)
  {
    if x < 2 * SIGNIFICAND_LIMIT {
    } else {
      NextIsOther(x / 2);
    }
  }

  lemma {:induction false} Scaled(c: nat, p: nat)
    requires PowerOfTwo(p) && c < SIGNIFICAND_LIMIT
    ensures Representable(c * p)
    decreases p
  {
    if p == 1 {
    } else {
      Scaled(c, p / 2);
      assert c * p == 2 * (c * (p / 2));
    }
  }

  lemma PowerDivides(h: nat)
    requires PowerOfTwo(h) && h > 2
    ensures h % 4 == 0 && PowerOfTwo(h / 4)
  {
    assert h / 2 % 2 == 0;
    assert h / 2 / 2 == h / 4;
  }
}
