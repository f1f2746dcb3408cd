/** Dynamic challenge values and weighted progress, in exact rationals. */
module Scoring {
  import opened Base

  // ----- round half to even

  /** `round(num / den)`. */
  function Round(num: int, den: int): int
    requires den > 0
  {
    var q, r := num / den, num % den;
    if 2 * r < den then q
    else if 2 * r > den then q + 1
    else if q % 2 == 0 then q else q + 1
  }

  /** A nearest integer, and the even one of two. */
  ghost predicate IsRounding(n: int, num: int, den: int)
    requires den > 0
  {
    && 2 * (n * den - num) <= den && 2 * (num - n * den) <= den
    && (2 * (n * den - num) == den || 2 * (num - n * den) == den ==> n % 2 == 0)
  }

  lemma RoundRounds(num: int, den: int)
    requires den > 0
    ensures IsRounding(Round(num, den), num, den)
  {
    var q, r := num / den, num % den;
    assert num == q * den + r;
    assert (q + 1) * den == q * den + den;
  }

  lemma MultiplesApart(m: int, n: int, den: int)
    requires den > 0 && m < n
    ensures m * den + den <= n * den
    ensures m + 2 <= n ==> m * den + 2 * den <= n * den
  {
    var d := n - m;
    assert n * den == m * den + d * den;
    assert d * den >= den;
    assert d >= 2 ==> d * den >= 2 * den;
  }

  /** Rounding respects order; in particular a rational has one rounding. */
  lemma RoundingsInOrder(m: int, n: int, a: int, b: int, den: int)
    requires den > 0 && a <= b && IsRounding(m, a, den) && IsRounding(n, b, den)
    ensures m <= n
  {
    if n < m {
      MultiplesApart(n, m, den);
    }
  }

  lemma RoundIsMonotone(a: int, b: int, den: int)
    requires den > 0 && a <= b
    ensures Round(a, den) <= Round(b, den)
  {
    RoundRounds(a, den);
    RoundRounds(b, den);
    RoundingsInOrder(Round(a, den), Round(b, den), a, b, den);
  }

  /** `Round` returns the one integer that is a rounding. */
  lemma RoundIff(n: int, num: int, den: int)
    requires den > 0
    ensures n == Round(num, den) <==> IsRounding(n, num, den)
  {
    RoundRounds(num, den);
    if IsRounding(n, num, den) {
      RoundingsInOrder(n, Round(num, den), num, num, den);
      RoundingsInOrder(Round(num, den), n, num, num, den);
    }
  }

  lemma RoundOfWhole(n: int, den: int)
    requires den > 0
    ensures Round(n * den, den) == n
  {
    RoundIff(n, n * den, den);
  }

  // ----- dynamic value

  /** Python's `x or y` on optional integers: both None and 0 give way. */
  function Or(x: Option<int>, y: int): int { if x.Some? && x.value != 0 then x.value else y }

  /** The challenge's columns as `_dynamic_value` reads them. */
  datatype Decay = Decay(initialValue: Option<int>, value: Option<int>, minimumValue: Option<int>, decay: Option<int>) {
    function Initial(): int { Or(initialValue, Or(value, 0)) }
    function Minimum(): int { Or(minimumValue, 0) }
    function Slots(): (n: int)
      ensures n >= 1
    {
      if Or(decay, 1) < 1 then 1 else Or(decay, 1)
    }
  }

  /** `_dynamic_value` with exact division. */
  function DynamicValue(d: Decay, solves: nat): int {
    if solves >= d.Slots() then d.Minimum()
    else Round(d.Initial() * d.Slots() - (d.Initial() - d.Minimum()) * solves, d.Slots())
  }

  /** The line through (0, initial) and (slots, minimum). */
  lemma LineBounds(d: Decay, solves: nat)
    requires d.Minimum() <= d.Initial() && solves <= d.Slots()
    ensures var num := d.Initial() * d.Slots() - (d.Initial() - d.Minimum()) * solves;
            d.Minimum() * d.Slots() <= num <= d.Initial() * d.Slots()
  {
    LineBetween(d.Initial(), d.Minimum(), d.Slots(), solves);
  }

  lemma LineBetween(i: int, m: int, n: nat, s: nat)
    requires m <= i && s <= n
    ensures m * n <= i * n - (i - m) * s <= i * n
  {
    DropGrows(i - m, 0, s);
    DropGrows(i - m, s, n);
    assert (i - m) * 0 == 0;
    assert (i - m) * n == i * n - m * n;
  }

  lemma LineForm(i: int, m: int, n: int, s: int)
    ensures i * n - (i - m) * s == i * (n - s) + m * s
  {
    assert (i - m) * s == i * s - m * s;
    assert i * (n - s) == i * n - i * s;
  }

  /** Between minimum and initial value, starting at the one and resting at the other. */
  lemma DynamicValueBounds(d: Decay, solves: nat)
    requires d.Minimum() <= d.Initial()
    ensures d.Minimum() <= DynamicValue(d, solves) <= d.Initial()
    ensures DynamicValue(d, 0) == d.Initial()
    ensures solves >= d.Slots() ==> DynamicValue(d, solves) == d.Minimum()
  {
    RoundOfWhole(d.Initial(), d.Slots());
    RoundOfWhole(d.Minimum(), d.Slots());
    if solves < d.Slots() {
      LineBounds(d, solves);
      var num := d.Initial() * d.Slots() - (d.Initial() - d.Minimum()) * solves;
      RoundIsMonotone(d.Minimum() * d.Slots(), num, d.Slots());
      RoundIsMonotone(num, d.Initial() * d.Slots(), d.Slots());
    }
  }

  /** Up to `decay` solves the value is the whole number next to the straight line from the initial value, without
      solves, down to the minimum: no farther from it than a half, and the even one where it lies between. */
  lemma DynamicValueOnLine(d: Decay, solves: nat)
    requires solves <= d.Slots()
    ensures IsRounding(DynamicValue(d, solves), d.Initial() * (d.Slots() - solves) + d.Minimum() * solves, d.Slots())
  {
    var i, m, n := d.Initial(), d.Minimum(), d.Slots();
    LineForm(i, m, n, solves);
    if solves < n {
      RoundRounds(i * n - (i - m) * solves, n);
    } else {
      assert i * (n - solves) + m * solves == m * n;
      RoundRounds(m * n, n);
      RoundOfWhole(m, n);
    }
  }

  /** The columns as they count: an initial value of 0 or none gives way to the challenge's value, a missing
      minimum is 0, and a `decay` below one is one. */
  lemma ColumnsCount(initial: int, value: int, minimum: int, decay: int)
    ensures var d := Decay(Some(initial), Some(value), Some(minimum), Some(decay));
            && d.Initial() == (if initial == 0 then value else initial) && d.Minimum() == minimum
            && d.Slots() == (if decay < 1 then 1 else decay)
    ensures var d := Decay(None, Some(value), None, None); d.Initial() == value && d.Minimum() == 0 && d.Slots() == 1
    ensures Decay(None, None, None, None).Initial() == 0
  {}

  /** More solves never make a challenge worth more. */
  lemma DynamicValueFalls(d: Decay, s: nat, t: nat)
    requires d.Minimum() <= d.Initial() && s <= t
    ensures DynamicValue(d, t) <= DynamicValue(d, s)
  {
    DynamicValueBounds(d, s);
    if t < d.Slots() {
      DropGrows(d.Initial() - d.Minimum(), s, t);
      RoundIsMonotone(d.Initial() * d.Slots() - (d.Initial() - d.Minimum()) * t,
                      d.Initial() * d.Slots() - (d.Initial() - d.Minimum()) * s, d.Slots());
    }
  }

  lemma DropGrows(drop: nat, s: nat, t: nat)
    requires s <= t
    ensures drop * s <= drop * t
  {
    assert drop * t == drop * s + drop * (t - s);
  }

  // ----- weighted progress

  type FlagId = nat
  type Weights = map<FlagId, nat>

  /** `weights.get(f, 100)`. */
  function WeightOf(weights: Weights, f: FlagId): nat { if f in weights then weights[f] else 100 }

  /** The sum over a set, taken in any order. */
  ghost function SumOver(weights: Weights, flags: set<FlagId>): nat {
    if flags == {} then 0
    else
      var f :| f in flags;
      WeightOf(weights, f) + SumOver(weights, flags - {f})
  }

  lemma {:induction false} SumPick(weights: Weights, flags: set<FlagId>, f: FlagId)
    requires f in flags
    ensures SumOver(weights, flags) == WeightOf(weights, f) + SumOver(weights, flags - {f})
    decreases flags
  {
    var g :| g in flags && SumOver(weights, flags) == WeightOf(weights, g) + SumOver(weights, flags - {g});
    if f != g {
      SumPick(weights, flags - {g}, f);
      SumPick(weights, flags - {f}, g);
      assert flags - {g} - {f} == flags - {f} - {g};
    }
  }

  lemma {:induction false} SumOfUnion(weights: Weights, a: set<FlagId>, b: set<FlagId>)
    requires a !! b
    ensures SumOver(weights, a + b) == SumOver(weights, a) + SumOver(weights, b)
  {
    if a == {} {
      assert a + b == b;
    } else {
      var f :| f in a;
      SumPick(weights, a + b, f);
      SumPick(weights, a, f);
      assert a + b - {f} == (a - {f}) + b;
      SumOfUnion(weights, a - {f}, b);
    }
  }

  /** `percent_earned` in tenths of a percent. */
  ghost function PercentEarned(weights: Weights, flags: set<FlagId>, solved: set<FlagId>): int {
    var total := if SumOver(weights, flags) == 0 then 100 else SumOver(weights, flags);
    Round(1000 * SumOver(weights, solved), total)
  }

  /** The percentage of any set of finds, in tenths, is the whole number next to their share of all weights. */
  lemma PercentIsShare(weights: Weights, flags: set<FlagId>, solved: set<FlagId>)
    requires SumOver(weights, flags) > 0
    ensures IsRounding(PercentEarned(weights, flags, solved), 1000 * SumOver(weights, solved), SumOver(weights, flags))
    ensures PercentEarned(weights, flags, {}) == 0
    ensures forall f :: f in solved && solved == {f} ==> SumOver(weights, solved) == WeightOf(weights, f)
  {
    RoundRounds(1000 * SumOver(weights, solved), SumOver(weights, flags));
    RoundOfWhole(0, SumOver(weights, flags));
    forall f | f in solved && solved == {f}
      ensures SumOver(weights, solved) == WeightOf(weights, f)
    {
      SumPick(weights, solved, f);
      assert solved - {f} == {};
    }
  }

  /** In [0, 100], growing with each find, and 100 on completion where the weights are not all zero. */
  lemma PercentBounds(weights: Weights, flags: set<FlagId>, solved: set<FlagId>, more: set<FlagId>)
    requires solved <= more <= flags
    ensures 0 <= PercentEarned(weights, flags, solved) <= PercentEarned(weights, flags, more) <= 1000
    ensures PercentEarned(weights, flags, flags) == if SumOver(weights, flags) > 0 then 1000 else 0
  {
    var total := if SumOver(weights, flags) == 0 then 100 else SumOver(weights, flags);
    SumOfUnion(weights, solved, more - solved);
    assert solved + (more - solved) == more;
    SumOfUnion(weights, more, flags - more);
    assert more + (flags - more) == flags;
    RoundOfWhole(0, total);
    RoundOfWhole(1000, total);
    RoundIsMonotone(0, 1000 * SumOver(weights, solved), total);
    RoundIsMonotone(1000 * SumOver(weights, solved), 1000 * SumOver(weights, more), total);
    RoundIsMonotone(1000 * SumOver(weights, more), 1000 * total, total);
  }

  /** `_flag_weights_sum_to_100`: the SQL sum over rows that exist, plus 100 for each flag without one. */
  ghost predicate WeightsSumTo100(weights: Weights, flags: set<FlagId>) {
    flags == {} || SumOver(weights, flags * weights.Keys) + 100 * |flags - weights.Keys| == 100
  }

  lemma {:induction false} UnsetWeighHundred(weights: Weights, unset: set<FlagId>)
    requires unset !! weights.Keys
    ensures SumOver(weights, unset) == 100 * |unset|
  {
    if unset != {} {
      var f :| f in unset;
      SumPick(weights, unset, f);
      UnsetWeighHundred(weights, unset - {f});
    }
  }

  lemma SetSplits(flags: set<FlagId>, keys: set<FlagId>)
    ensures flags == (flags * keys) + (flags - keys) && (flags * keys) !! (flags - keys) && (flags - keys) !! keys
  {}

  lemma TotalSplits(weights: Weights, flags: set<FlagId>)
    ensures SumOver(weights, flags) == SumOver(weights, flags * weights.Keys) + 100 * |flags - weights.Keys|
  {
    var keys := weights.Keys;
    SetSplits(flags, keys);
    UnsetWeighHundred(weights, flags - keys);
    SumOfUnion(weights, flags * keys, flags - keys);
  }

  /** The admin check and the progress display count the same total. */
  lemma AdminAndDisplayAgree(weights: Weights, flags: set<FlagId>)
    ensures WeightsSumTo100(weights, flags) <==> flags == {} || SumOver(weights, flags) == 100
  {
    TotalSplits(weights, flags);
  }
}
