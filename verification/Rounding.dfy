/** The threshold of phase 2 is computed in floating point. */
module Rounding {
  import opened Tput

  /** What is used of rounding to a double: it is monotone, exact on integers of 53 bits and off by
      at most half a unit in the last place. */
  ghost predicate RoundsToDouble(round: real -> real) {
    && (forall x, y :: x <= y ==> round(x) <= round(y))
    && (forall x: real :: x == x.Floor as real && 0.0 <= x <= 9007199254740992.0 ==> round(x) == x)
    && (forall x :: x * 18446744073709551616.0 >= 1.0 ==> x - round(x) <= x / 9007199254740992.0)
  }

  function Ceil(x: real): int {
    -(-x).Floor
  }

  /** The threshold the master broadcasts: bottom and quotient are rounded to doubles, then the quotient
      is rounded up to an integer. */
  function CodeThreshold(round: real -> real, bottom: nat, sources: nat): (t: nat)
    requires RoundsToDouble(round) && sources > 0
  {
    RoundNonNegative(round, bottom, sources);
    Ceil(round(round(bottom as real) / sources as real))
  }

  lemma RoundNonNegative(round: real -> real, bottom: nat, sources: nat)
    requires RoundsToDouble(round) && sources > 0
    ensures Ceil(round(round(bottom as real) / sources as real)) >= 0
  {
    RoundFixes(round, 0);
    RoundGrows(round, 0.0, bottom as real);
    RoundGrows(round, 0.0, round(bottom as real) / sources as real);
  }

  /** For a bottom of 53 bits the rounded division has the ceiling of the exact one. */
  lemma ThresholdIsCeilDiv(b: nat, m: nat, round: real -> real)
    requires b < 0x20_0000_0000_0000 && 0 < m < 0x1_0000_0000_0000_0000
    requires RoundsToDouble(round)
    ensures CodeThreshold(round, b, m) == CeilDiv(b, m)
  {
    var t := CeilDiv(b, m);
    CeilDivTight(b, m);
    var x := b as real / m as real;
    assert x * m as real == b as real;
    RoundFixes(round, b);
    RoundFixes(round, t);
    QuotientAtMost(b, m, t, x);
    RoundGrows(round, x, t as real);
    if t > 0 {
      RoundClose(round, x);
      QuotientAbove(b, m, t, x, round(x));
      CeilBetween(round(x), t);
    } else {
      assert b == 0;
      ZeroQuotient(m, x);
      CeilBetween(round(x), 0);
    }
  }

  lemma RoundFixes(round: real -> real, i: nat)
    requires RoundsToDouble(round) && i <= 0x20_0000_0000_0000
    ensures round(i as real) == i as real
  {
    assert i as real == (i as real).Floor as real;
  }

  lemma RoundGrows(round: real -> real, x: real, y: real)
    requires RoundsToDouble(round) && x <= y
    ensures round(x) <= round(y)
  {
  }

  lemma RoundClose(round: real -> real, x: real)
    requires RoundsToDouble(round)
    ensures x * 18446744073709551616.0 >= 1.0 ==> x - round(x) <= x / 9007199254740992.0
  {
  }

  lemma CeilBetween(x: real, t: int)
    requires (t - 1) as real < x <= t as real
    ensures Ceil(x) == t
  {
  }

  lemma ZeroQuotient(m: nat, x: real)
    requires m > 0 && x * m as real == 0.0
    ensures x == 0.0
  {
  }

  lemma QuotientAtMost(b: nat, m: nat, t: nat, x: real)
    requires m > 0 && x * m as real == b as real && b <= m * t
    ensures x <= t as real
  {
    assert m as real * t as real == (m * t) as real;
    assert (x - t as real) * m as real == b as real - (m * t) as real;
  }

  lemma QuotientAbove(b: nat, m: nat, t: nat, x: real, r: real)
    requires 0 < b < 0x20_0000_0000_0000 && 0 < m < 0x1_0000_0000_0000_0000 && t > 0
    requires x * m as real == b as real && m * (t - 1) < b
    requires x * 18446744073709551616.0 >= 1.0 ==> x - r <= x / 9007199254740992.0
    ensures r > (t - 1) as real
  {
  }

  // ----- which queries the code answers exactly

  /** Below 2^53 the code's threshold suffices for every bottom just for the queries that are always
      exact. */
  lemma CodeSufficesIff(q: Query, sources: nat, round: real -> real)
    requires q.limit > 0 && 0 < sources < 0x1_0000_0000_0000_0000 && RoundsToDouble(round)
    ensures (forall b: nat | b < 0x20_0000_0000_0000 :: Suffices(q, sources, b, CodeThreshold(round, b, sources)))
      <==> AlwaysExact(q, sources)
  {
    forall b: nat | b < 0x20_0000_0000_0000
      ensures CodeThreshold(round, b, sources) == CeilDiv(b, sources)
      ensures CeilDiv(b, sources) <= b && (sources == 1 ==> CeilDiv(b, sources) == b)
    {
      ThresholdIsCeilDiv(b, sources, round);
      CeilDivTight(b, sources);
    }
    if !AlwaysExact(q, sources) {
      CeilOfTwo(sources);
      assert !Suffices(q, sources, 2, CodeThreshold(round, 2, sources));
    }
  }

  lemma CeilOfTwo(m: nat)
    requires m >= 2
    ensures CeilDiv(2, m) == 1
  {
    var t := CeilDiv(2, m);
    CeilDivTight(2, m);
    assert t > 0;
    assert m * (t - 1) >= 2 * (t - 1);
  }

  // ----- bottoms of 54 bits

  /** Above 2^53 only even integers are doubles; an odd one lies half way between two and goes to the
      one with the even significand. */
  function EvenNeighbour(n: nat): nat {
    4 * (n / 4) + match n % 4 case 0 => 0 case 1 => 0 case 2 => 2 case _ => 4
  }

  ghost predicate RoundsToEven(round: real -> real) {
    && RoundsToDouble(round)
    && forall n: nat | 0x20_0000_0000_0000 <= n <= 0x40_0000_0000_0000 :: round(n as real) == EvenNeighbour(n) as real
  }

  /** With one source and a bottom of 54 bits the threshold is the bottom rounded to a double; it is too
      large just when the bottom is three more than a multiple of four. */
  lemma LargeBottom(q: Query, round: real -> real, b: nat)
    requires q.dir.Desc? && q.limit > 1 && RoundsToEven(round)
    requires 0x20_0000_0000_0000 <= b <= 0x40_0000_0000_0000
    ensures CodeThreshold(round, b, 1) == EvenNeighbour(b)
    ensures Suffices(q, 1, b, CodeThreshold(round, b, 1)) <==> b % 4 != 3
  {
    LargeThreshold(round, b);
    EvenNeighbourFixed(b);
    CeilDivTight(b, 1);
  }

  lemma LargeExample(round: real -> real)
    requires RoundsToEven(round)
    ensures CodeThreshold(round, 0x20_0000_0000_0003, 1) == 0x20_0000_0000_0004
  {
    LargeThreshold(round, 0x20_0000_0000_0003);
  }

  lemma EvenNeighbourFixed(n: nat)
    ensures EvenNeighbour(EvenNeighbour(n)) == EvenNeighbour(n)
    ensures EvenNeighbour(n) <= n <==> n % 4 != 3
  {
    var q := n / 4;
    assert EvenNeighbour(n) == 4 * q || EvenNeighbour(n) == 4 * q + 2 || EvenNeighbour(n) == 4 * (q + 1);
    Quarter(q, 0);
    Quarter(q, 2);
    Quarter(q + 1, 0);
  }

  lemma Quarter(q: nat, r: nat)
    requires r < 4
    ensures (4 * q + r) / 4 == q && (4 * q + r) % 4 == r
  {
  }

  lemma EvenNeighbourWithin(n: nat)
    requires 0x20_0000_0000_0000 <= n <= 0x40_0000_0000_0000
    ensures 0x20_0000_0000_0000 <= EvenNeighbour(n) <= 0x40_0000_0000_0000
  {
    var q := n / 4;
    assert 0x8_0000_0000_0000 <= q <= 0x10_0000_0000_0000;
  }

  lemma LargeThreshold(round: real -> real, b: nat)
    requires RoundsToEven(round) && 0x20_0000_0000_0000 <= b <= 0x40_0000_0000_0000
    ensures CodeThreshold(round, b, 1) == EvenNeighbour(b)
  {
    var e := EvenNeighbour(b);
    EvenNeighbourFixed(b);
    EvenNeighbourWithin(b);
    RoundsInteger(round, b);
    RoundsInteger(round, e);
    assert round(b as real) / 1 as real == e as real;
    CeilBetween(e as real, e);
  }

  lemma RoundsInteger(round: real -> real, n: nat)
    requires RoundsToEven(round) && 0x20_0000_0000_0000 <= n <= 0x40_0000_0000_0000
    ensures round(n as real) == EvenNeighbour(n) as real
  {
  }

  /** With several sources, descending by a volume: the threshold is too large just when the bottom is
      rounded up, is a multiple of the number of sources, and the quotient does not round back. */
  lemma LargeBottomSources(q: Query, round: real -> real, m: nat, b: nat)
    requires q.dir.Desc? && q.sort.InVals? && q.limit > 1 && RoundsToEven(round) && m > 0
    requires 0x20_0000_0000_0000 <= b <= 0x40_0000_0000_0000
    ensures Suffices(q, m, b, CodeThreshold(round, b, m)) <==>
      !(b % 4 == 3 && b % m == 0 && round((b + 1) as real / m as real) > (b / m) as real)
  {
    var e := EvenNeighbour(b);
    RoundsInteger(round, b);
    EvenNeighbourFixed(b);
    CodeSuffices(q, round, m, b);
    if b % 4 == 3 && b % m == 0 {
      assert e == b + 1;
      DividesExactly(b, m);
    } else {
      ShareCovers(b, m, e);
      RoundedShare(round, b, m, e);
    }
  }

  /** Descending by a volume a threshold suffices just when the rounded quotient does not exceed the
      ceiling of the exact one, whatever the bottom. */
  lemma CodeSuffices(q: Query, round: real -> real, m: nat, b: nat)
    requires q.dir.Desc? && q.sort.InVals? && q.limit > 1 && RoundsToDouble(round) && m > 0
    ensures Suffices(q, m, b, CodeThreshold(round, b, m)) <==>
      round(round(b as real) / m as real) <= CeilDiv(b, m) as real
  {
    CeilAtMost(round(round(b as real) / m as real), CeilDiv(b, m));
  }

  lemma CeilAtMost(x: real, n: int)
    ensures Ceil(x) <= n <==> x <= n as real
  {
    assert -(n as real) == (-n) as real;
  }

  lemma DividesExactly(b: nat, m: nat)
    requires m > 0 && b % m == 0
    ensures CeilDiv(b, m) == b / m
  {
    var q := b / m;
    assert b == m * q;
    CeilDivTight(b, m);
    var t := CeilDiv(b, m);
    if t > q {
      ProductAtLeast(m, q, t - 1);
    } else if t < q {
      ProductApart(m, t, q);
    }
  }

  lemma {:induction false} ProductAtLeast(m: nat, x: nat, y: nat)
    requires x <= y
    ensures m * x <= m * y
  {
    if m > 0 {
      ProductAtLeast(m - 1, x, y);
    }
  }

  lemma ProductApart(m: nat, x: nat, y: nat)
    requires x < y
    ensures m * x + m <= m * y
  {
    ProductAtLeast(m, x + 1, y);
    assert m * (x + 1) == m * x + m;
  }

  /** The ceiling covers the rounded bottom unless the bottom was rounded up from a multiple. */
  lemma ShareCovers(b: nat, m: nat, e: nat)
    requires m > 0 && e <= b + 1 && (e <= b || b % m != 0)
    ensures e <= m * CeilDiv(b, m)
  {
    CeilDivTight(b, m);
    if b == m * CeilDiv(b, m) {
      MultipleOf(m, CeilDiv(b, m));
    }
  }

  lemma MultipleOf(m: nat, t: nat)
    requires m > 0
    ensures (m * t) % m == 0
  {
    var q, r := (m * t) / m, (m * t) % m;
    assert m * t == m * q + r;
    if t > q {
      ProductApart(m, q, t);
    } else if t < q {
      ProductApart(m, t, q);
    }
  }

  lemma RoundedShare(round: real -> real, b: nat, m: nat, e: nat)
    requires RoundsToEven(round) && 0x20_0000_0000_0000 <= b <= 0x40_0000_0000_0000 && m > 0
    requires e == EvenNeighbour(b) && e <= m * CeilDiv(b, m) && (e <= b || m > 1)
    ensures round(e as real / m as real) <= CeilDiv(b, m) as real
  {
    if m == 1 {
      SingleShare(round, b, e);
    } else {
      HalfAtMost(b, m);
      RealShare(e, m, CeilDiv(b, m));
      RoundAtMost(round, e as real / m as real, CeilDiv(b, m));
    }
  }

  lemma RealShare(e: nat, m: nat, c: nat)
    requires m > 0 && e <= m * c
    ensures e as real / m as real <= c as real
  {
    var x := e as real / m as real;
    assert x * m as real == e as real;
    QuotientAtMost(e, m, c, x);
  }

  lemma RoundAtMost(round: real -> real, x: real, c: nat)
    requires RoundsToDouble(round) && x <= c as real && c <= 0x20_0000_0000_0000
    ensures round(x) <= c as real
  {
    RoundGrows(round, x, c as real);
    RoundFixes(round, c);
  }

  lemma SingleShare(round: real -> real, b: nat, e: nat)
    requires RoundsToEven(round) && 0x20_0000_0000_0000 <= b <= 0x40_0000_0000_0000 && e == EvenNeighbour(b) && e <= b
    ensures round(e as real / 1 as real) <= CeilDiv(b, 1) as real
  {
    EvenNeighbourWithin(b);
    EvenNeighbourFixed(b);
    RoundsInteger(round, e);
    CeilDivTight(b, 1);
    assert e as real / 1 as real == e as real;
  }

  lemma HalfAtMost(b: nat, m: nat)
    requires m > 1 && b <= 0x40_0000_0000_0000
    ensures CeilDiv(b, m) <= 0x20_0000_0000_0000
  {
    var t := CeilDiv(b, m);
    CeilDivTight(b, m);
    if t > 0x20_0000_0000_0000 {
      ProductAtLeast(t - 1, 2, m);
    }
  }

  /** There is such a rounding: to even below 2^54, exact beyond. */
  function Nearest(x: real): real {
    if 9007199254740992.0 <= x <= 18014398509481984.0 then (2 * HalfToEven(x / 2.0)) as real else x
  }

  function HalfToEven(y: real): int {
    var f := y.Floor;
    var rest := y - f as real;
    if rest < 0.5 || (rest == 0.5 && f % 2 == 0) then f else f + 1
  }

  lemma HalfToEvenGrows(x: real, y: real)
    requires x <= y
    ensures HalfToEven(x) <= HalfToEven(y)
    ensures HalfToEven(x) as real - 0.5 <= x <= HalfToEven(x) as real + 0.5
  {
    assert x.Floor <= y.Floor;
  }

  lemma NearestOfInteger(n: nat)
    requires 0x20_0000_0000_0000 <= n <= 0x40_0000_0000_0000
    ensures Nearest(n as real) == EvenNeighbour(n) as real
  {
    var q, r := n / 4, n % 4;
    HalfToEvenOf(q, r);
    assert n as real / 2.0 == 2.0 * q as real + r as real / 2.0;
  }

  lemma HalfToEvenOf(q: nat, r: nat)
    requires r < 4
    ensures HalfToEven(2.0 * q as real + r as real / 2.0) ==
      2 * q + match r case 0 => 0 case 1 => 0 case 2 => 1 case _ => 2
  {
    var h := 2 * q + r / 2;
    if r % 2 == 0 {
      HalfOfEven(h);
      assert 2.0 * q as real + r as real / 2.0 == h as real;
    } else {
      HalfOfOdd(h);
      assert 2.0 * q as real + r as real / 2.0 == h as real + 0.5;
    }
  }

  lemma HalfOfEven(h: nat)
    ensures HalfToEven(h as real) == h
  {
  }

  lemma HalfOfOdd(h: nat)
    ensures HalfToEven(h as real + 0.5) == if h % 2 == 0 then h else h + 1
  {
    assert (h as real + 0.5).Floor == h;
  }

  lemma NearestRounds()
    ensures RoundsToEven(Nearest)
  {
    forall x: real, y: real | x <= y
      ensures Nearest(x) <= Nearest(y)
    {
      NearestGrows(x, y);
    }
    forall x: real | x * 18446744073709551616.0 >= 1.0
      ensures x - Nearest(x) <= x / 9007199254740992.0
    {
      HalfToEvenGrows(x / 2.0, x / 2.0);
    }
    NearestOfInteger(0x20_0000_0000_0000);
    forall n: nat | 0x20_0000_0000_0000 <= n <= 0x40_0000_0000_0000
      ensures Nearest(n as real) == EvenNeighbour(n) as real
    {
      NearestOfInteger(n);
    }
  }

  lemma NearestGrows(x: real, y: real)
    requires x <= y
    ensures Nearest(x) <= Nearest(y)
  {
    HalfToEvenGrows(x / 2.0, y / 2.0);
    NearestOfInteger(0x20_0000_0000_0000);
    NearestOfInteger(0x40_0000_0000_0000);
    if 9007199254740992.0 <= y <= 18014398509481984.0 {
      HalfToEvenGrows(4503599627370496.0, y / 2.0);
    }
    if 9007199254740992.0 <= x <= 18014398509481984.0 {
      HalfToEvenGrows(x / 2.0, 9007199254740992.0);
    }
  }
}
