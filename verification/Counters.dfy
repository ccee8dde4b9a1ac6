/** How truncated RTP counters are extended to 64 bits, from the last extended value. */
module Counters {

  function AbsDiff(a: int, b: int): (r: nat) {
    if a >= b then a - b else b - a
  }

  /** The multiple of max that the two candidates start from: one cycle before the reference, if there is one. */
  function Cycle(reference: nat, max: nat): (r: nat)
    requires max > 0
  {
    if reference / max == 0 then 0 else reference / max - 1
  }

  /** The nearer one of the candidates in that cycle and the next; the later one if both are equally near. */
  function Unwrap(reference: nat, got: nat, max: nat): (r: nat)
    requires max > 0
  {
    var low := Cycle(reference, max) * max + got;
    var high := (Cycle(reference, max) + 1) * max + got;
    if AbsDiff(low, reference) < AbsDiff(high, reference) then low else high
  }

  /** A value that the counter can stand for: the source counts in cycles of max. */
  function Representative(got: nat, max: nat, k: nat): (r: nat) {
    k * max + got
  }

  ghost predicate IsNearest(n: nat, reference: nat, got: nat, max: nat) {
    && (exists k: nat :: n == Representative(got, max, k))
    && forall k: nat :: AbsDiff(n, reference) <= AbsDiff(Representative(got, max, k), reference)
  }

  lemma Multiples(q: nat, k: nat, max: nat)
    requires q <= k
    ensures q * max <= k * max && (q + 1) * max == q * max + max && (q > 0 ==> (q - 1) * max == q * max - max)
    ensures q < k ==> q * max + max <= k * max
  {
    if q < k {
      assert (k - q - 1) * max >= 0;
    } else {
      assert q == k;
    }
  }

  /** The result is one of the values the counter stands for, and the nearer of the two that are tried. */
  lemma IsNearerCandidate(reference: nat, got: nat, max: nat)
    requires max > 0
    ensures var (n, c) := (Unwrap(reference, got, max), Cycle(reference, max));
            && (n == Representative(got, max, c) || n == Representative(got, max, c + 1))
            && AbsDiff(n, reference) <= AbsDiff(Representative(got, max, c), reference)
            && AbsDiff(n, reference) <= AbsDiff(Representative(got, max, c + 1), reference)
  {
  }

  /** The distance of each value, with the reference as q cycles and a rest. */
  lemma Distances(reference: nat, got: nat, max: nat, q: nat, k: nat)
    requires max > 0 && got <= max && q == reference / max
    ensures var rest := reference - q * max;
            && 0 <= rest < max
            && (k <= q ==> AbsDiff(Representative(got, max, q), reference) == AbsDiff(got, rest))
            && (k + 1 <= q ==> Representative(got, max, k) <= (q - 1) * max + got <= reference + max)
            && (k >= q + 1 ==> AbsDiff(Representative(got, max, k), reference) >= max + got - rest)
            && AbsDiff(Representative(got, max, q + 1), reference) == max + got - rest
  {
    DivideRest(reference, max);
    Multiples(q, q + 1, max);
    if k + 1 <= q {
      Multiples(k, q - 1, max);
    } else if k >= q + 1 {
      Multiples(q + 1, k, max);
    }
  }

  lemma DivideRest(n: nat, max: nat)
    requires max > 0
    ensures 0 <= n - n / max * max < max && n % max == n - n / max * max
  {
  }

  /**
   For a counter of at most max, the result is the nearest of all values exactly if the reference lies in the
   first cycle, or is not more than half a cycle ahead of the counter.
   */
  lemma NearestExactly(reference: nat, got: nat, max: nat)
    requires max > 0 && got <= max
    ensures IsNearest(Unwrap(reference, got, max), reference, got, max) <==>
              reference < max || 2 * (reference % max - got) <= max
  {
    var (n, q) := (Unwrap(reference, got, max), reference / max);
    var rest := reference - q * max;
    DivideRest(reference, max);
    assert rest == reference % max;
    IsNearerCandidate(reference, got, max);
    if reference < max || 2 * (rest - got) <= max {
      forall k: nat
        ensures AbsDiff(n, reference) <= AbsDiff(Representative(got, max, k), reference)
      {
        NearerThan(reference, got, max, k);
      }
    } else {
      NextIsNearer(reference, got, max);
    }
  }

  lemma QuotientIsZero(reference: nat, max: nat)
    requires max > 0
    ensures reference < max <==> reference / max == 0
  {
  }

  lemma NearerThan(reference: nat, got: nat, max: nat, k: nat)
    requires max > 0 && got <= max
    requires reference < max || 2 * (reference - reference / max * max - got) <= max
    ensures AbsDiff(Unwrap(reference, got, max), reference) <= AbsDiff(Representative(got, max, k), reference)
  {
    var q := reference / max;
    IsNearerCandidate(reference, got, max);
    QuotientIsZero(reference, max);
    Distances(reference, got, max, q, k);
    Distances(reference, got, max, q, q);
    Multiples(q, q, max);
  }

  lemma NextIsNearer(reference: nat, got: nat, max: nat)
    requires max > 0 && got <= max && reference >= max && 2 * (reference - reference / max * max - got) > max
    ensures var k := reference / max + 1;
            AbsDiff(Unwrap(reference, got, max), reference) > AbsDiff(Representative(got, max, k), reference)
  {
    var q := reference / max;
    QuotientIsZero(reference, max);
    Distances(reference, got, max, q, q);
    Multiples(q, q, max);
  }

  // ---------- feeding results back ----------

  /** The results for the first n counters, each the reference of the next. */
  function Recover(start: nat, gots: seq<nat>, max: nat, n: nat): (r: nat)
    requires max > 0 && n <= |gots|
  {
    if n == 0 then start else Unwrap(Recover(start, gots, max, n - 1), gots[n - 1], max)
  }

  /** In the first cycle steps forward are recovered, and so are steps back of less than half the range. */
  lemma {:induction false} FirstCycleIsRecovered(start: nat, values: seq<nat>, max: nat, n: nat)
    requires max > 0 && n <= |values| && start < max && forall i :: 0 <= i < |values| ==> values[i] < max
    requires forall i :: 0 <= i < |values| ==> 2 * ((if i == 0 then start else values[i - 1]) - values[i]) < max
    ensures Recover(start, values, max, n) == if n == 0 then start else values[n - 1]
  {
    if n > 0 {
      FirstCycleIsRecovered(start, values, max, n - 1);
      OneStep(if n == 1 then start else values[n - 2], values[n - 1], max);
    }
  }

  lemma OneStep(reference: nat, value: nat, max: nat)
    requires max > 0 && reference < max
    ensures Unwrap(reference, value, max) == value <==> 2 * (reference - value) < max
  {
    QuotientIsZero(reference, max);
  }

  /** The value is recovered from its counter with this reference. */
  predicate Recovers(reference: nat, value: nat, max: nat)
    requires max > 0
  {
    Unwrap(reference, value % (max + 1), max) == value
  }

  /**
   A counter with values 0 to max really repeats after max + 1: some reference recovers a value exactly if the number
   of its cycles is a multiple of max.
   */
  lemma RecoveredExactly(value: nat, max: nat)
    requires max > 0
    ensures (exists reference: nat :: Recovers(reference, value, max)) <==> value / (max + 1) % max == 0
  {
    var cycles := value / (max + 1);
    if reference: nat :| Recovers(reference, value, max) {
      OnlyWholeRounds(reference, value, max);
    }
    if cycles % max == 0 {
      RecoversItself(value, max);
    }
  }

  lemma OnlyWholeRounds(reference: nat, value: nat, max: nat)
    requires max > 0 && Recovers(reference, value, max)
    ensures value / (max + 1) % max == 0
  {
    hide Unwrap, Cycle;
    var (c, cycles) := (Cycle(reference, max), value / (max + 1));
    IsNearerCandidate(reference, value % (max + 1), max);
    WholeCycles(value, max);
    var k := if value == Representative(value % (max + 1), max, c) then c else c + 1;
    assert k * max == cycles * max + cycles;
    IsMultiple(k - cycles, cycles, max);
  }

  lemma IsMultiple(m: int, n: nat, max: nat)
    requires max > 0 && (m + n) * max == n * max + n
    ensures n % max == 0
  {
    assert m * max == n;
    SignOf(m, max);
    Quotient(n, m, 0, max);
    DivideRest(n, max);
  }

  lemma SignOf(m: int, max: nat)
    requires max > 0
    ensures m < 0 ==> m * max < 0
  {
    if m < 0 {
      assert (-m - 1) * max >= 0;
    }
  }

  lemma Quotient(n: nat, q: nat, rest: nat, max: nat)
    requires max > 0 && rest < max && n == q * max + rest
    ensures n / max == q
  {
    DivideRest(n, max);
    var p := n / max;
    if p < q {
      Multiples(p, q, max);
    } else {
      Multiples(q, p, max);
    }
  }

  /** Then the value itself is such a reference. */
  lemma RecoversItself(value: nat, max: nat)
    requires max > 0 && value / (max + 1) % max == 0
    ensures Recovers(value, value, max)
  {
    hide Unwrap;
    var cycles := value / (max + 1);
    WholeCycles(value, max);
    DivideRest(cycles, max);
    SumOfMultiples(cycles, cycles / max, max);
    NearItself(value, cycles + cycles / max, value % (max + 1), max);
  }

  lemma SumOfMultiples(a: nat, b: nat, max: nat)
    ensures (a + b) * max == a * max + b * max
  {
  }

  lemma NearItself(value: nat, k: nat, got: nat, max: nat)
    requires max > 0 && got <= max && value == k * max + got
    ensures Unwrap(value, got, max) == value
  {
    Quotient(value, if got == max then k + 1 else k, if got == max then 0 else got, max);
    Multiples(k, k, max);
  }

  /** Beyond the first cycle, and for max cycles, no reference recovers a value. */
  lemma LaterCyclesAreNotRecovered(reference: nat, value: nat, max: nat)
    requires max > 0 && max < value < (max + 1) * max
    ensures !Recovers(reference, value, max)
  {
    hide Recovers;
    RecoveredExactly(value, max);
    FewCycles(value, max);
    SmallRest(value / (max + 1), max);
  }

  lemma SmallRest(n: nat, max: nat)
    requires n < max
    ensures n % max == n
  {
  }

  lemma WholeCycles(value: nat, max: nat)
    ensures value == value / (max + 1) * max + value / (max + 1) + value % (max + 1)
  {
    var cycles := value / (max + 1);
    assert cycles * (max + 1) == cycles * max + cycles;
  }

  lemma FewCycles(value: nat, max: nat)
    requires max > 0 && max < value < (max + 1) * max
    ensures 0 < value / (max + 1) < max
  {
    var cycles := value / (max + 1);
    if cycles >= max {
      Multiples(max, cycles, max + 1);
    }
  }

  /** The first packet after the wrap of a 16-bit sequence number gets the number of the last one before it. */
  lemma WrapIsOffByOne()
    ensures Unwrap(0xFFFF, 0, 0xFFFF) == 0xFFFF
  {
  }
}
