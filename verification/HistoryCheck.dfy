/**
 Which lookbacks the engine's check of the stored history really covers. It looks at the longest
 lookback alone, so its reach depends on how the resolutions of the evaluators fit together.
 */
module HistoryCheck {
  import opened Basics
  import opened Market
  import opened Lookbacks

  /** The start of the range whose candles the engine checks before it runs. */
  function CheckedFrom(start: int, longest: Option<Lookback>): int
    requires longest.Some? ==> longest.value.Valid()
  {
    if longest.None? then start
    else FloorToResolution(start, longest.value.seconds) - longest.value.seconds * (longest.value.period - 1)
  }

  /** The start of the window an evaluator needs at the start of a run. */
  function NeededFrom(start: int, l: Lookback): int
    requires l.Valid()
  {
    WindowStart(FloorToResolution(start, l.seconds), l.seconds, l.period, 0)
  }

  /** Whenever a run starts, the checked range contains the window. */
  ghost predicate AlwaysChecked(longest: Lookback, l: Lookback)
    requires longest.Valid() && l.Valid()
  {
    forall start: nat :: start % MINUTE == 0 ==> CheckedFrom(start, Some(longest)) <= NeededFrom(start, l)
  }

  // ----- Common divisors

  function Gcd(a: int, b: nat): (g: int)
    requires a > 0
    ensures g > 0
    decreases b
  {
    if b == 0 then a else Gcd(b, a % b)
  }

  /** The greatest common divisor divides both numbers and is a combination of them. */
  lemma {:induction false} Bezout(a: int, b: nat) returns (x: int, y: int, p: int, q: int)
    requires a > 0
    ensures a * x + b * y == Gcd(a, b)
    ensures a == Gcd(a, b) * p && b == Gcd(a, b) * q
    decreases b
  {
    if b == 0 {
      x, y, p, q := 1, 0, 1, 0;
    } else {
      var g, d, r := Gcd(a, b), a / b, a % b;
      var x', y', p', q' := Bezout(b, r);
      x, y, p, q := y', x' - d * y', d * p' + q', p';
      assert a == d * b + r;
      BezoutStep(a, b, d, r, g, x', y', p', q');
    }
  }

  lemma BezoutStep(a: int, b: int, d: int, r: int, g: int, x: int, y: int, p: int, q: int)
    requires a == d * b + r && b * x + r * y == g && b == g * p && r == g * q
    ensures a * y + b * (x - d * y) == g
    ensures a == g * (d * p + q)
  {
    calc {
      a * y + b * (x - d * y);
      (d * b + r) * y + b * (x - d * y);
      (d * b) * y + r * y + b * x - b * (d * y);
      { assert (d * b) * y == b * (d * y); }
      b * x + r * y;
    }
    calc {
      g * (d * p + q);
      g * (d * p) + g * q;
      { assert g * (d * p) == d * (g * p); }
      d * b + r;
    }
  }

  // ----- How far two floors can lie apart

  lemma FloorIs(time: nat, seconds: int, k: int)
    requires seconds > 0 && k * seconds <= time < k * seconds + seconds && k >= 0
    ensures FloorToResolution(time, seconds) == k * seconds
  {
    QuotientIs(time, seconds, k);
  }

  /** The start of the bucket of an instant, as a multiple of the resolution. */
  lemma FloorMultiple(time: nat, seconds: int) returns (k: nat)
    requires seconds > 0
    ensures FloorToResolution(time, seconds) == k * seconds && k * seconds <= time < k * seconds + seconds
  {
    DivSplit(time, seconds);
    k := time / seconds;
  }

  lemma Regroup(k: int, g: int, p: int)
    ensures k * (g * p) == g * (k * p)
  {
  }

  /** The coarse floor exceeds the fine one by at most a bucket less the common divisor. */
  lemma FloorsApart(start: nat, coarse: int, fine: int)
    requires coarse > 0 && fine > 0
    ensures FloorToResolution(start, coarse) - FloorToResolution(start, fine) <= fine - Gcd(coarse, fine)
  {
    hide FloorToResolution, Gcd;
    var g := Gcd(coarse, fine);
    var x, y, p, q := Bezout(coarse, fine);
    var m := FloorMultiple(start, coarse);
    var n := FloorMultiple(start, fine);
    Regroup(m, g, p);
    Regroup(n + 1, g, q);
    assert (n + 1) * fine == n * fine + fine;
    MultiplesApart(m * coarse, n * fine + fine, g, m * p, (n + 1) * q);
  }

  lemma MultiplesApart(a: int, b: int, g: int, i: int, j: int)
    requires g > 0 && a == g * i && b == g * j && a < b
    ensures a + g <= b
  {
    LessFromProducts(i, j, g);
    MulMonotone(i + 1, j, g);
    assert (i + 1) * g == a + g;
  }

  /** And by exactly that much at some start. */
  lemma FloorsFurthestApart(coarse: int, fine: int) returns (start: nat)
    requires coarse > 0 && fine > 0 && coarse % MINUTE == 0
    ensures start % MINUTE == 0
    ensures FloorToResolution(start, coarse) - FloorToResolution(start, fine) == fine - Gcd(coarse, fine)
  {
    hide FloorToResolution, Gcd;
    var g := Gcd(coarse, fine);
    var k, m := NegatedDivisor(coarse, fine);
    MulMonotone(0, k, coarse);
    start := k * coarse;
    BucketIsMinute(k, coarse);
    FloorIs(start, coarse, k);
    GcdIsSmaller(coarse, fine);
    assert (m - 1) * fine == m * fine - fine;
    LessFromProducts(-1, m - 1, fine);
    FloorIs(start, fine, m - 1);
  }

  /** Some multiple of one number lies the common divisor below a multiple of the other. */
  lemma NegatedDivisor(a: int, b: int) returns (k: nat, m: int)
    requires a > 0 && b > 0
    ensures k * a == m * b - Gcd(a, b)
  {
    hide Gcd;
    var x, y, p, q := Bezout(a, b);
    var t := Abs(x);
    MulMonotone(1, b, t);
    k, m := b * t - x, y + a * t;
    ShiftCombination(a, b, x, y, t);
  }

  lemma ShiftCombination(a: int, b: int, x: int, y: int, t: int)
    ensures (b * t - x) * a == (y + a * t) * b - (a * x + b * y)
  {
    assert (b * t) * a == (a * t) * b;
  }

  lemma GcdIsSmaller(a: int, b: int)
    requires a > 0 && b > 0
    ensures Gcd(a, b) <= b
  {
    hide Gcd;
    var x, y, p, q := Bezout(a, b);
    DivisorIsSmaller(b, Gcd(a, b), q);
  }

  lemma DivisorIsSmaller(n: int, g: int, q: int)
    requires n > 0 && g > 0 && n == g * q
    ensures g <= n
  {
    LessFromProducts(0, q, g);
    MulMonotone(1, q, g);
  }

  // ----- The exact conditions

  /**
   The check covers an evaluator whenever a run starts if and only if its lookback, less the common
   divisor of the resolutions, is no longer than the longest lookback less one of its candles.
   */
  lemma AlwaysCheckedIff(longest: Lookback, l: Lookback)
    requires longest.Valid() && l.Valid()
    ensures AlwaysChecked(longest, l)
       <==> l.Duration() - Gcd(longest.seconds, l.seconds) <= longest.Duration() - longest.seconds
  {
    hide Gcd, FloorToResolution;
    var coarse, fine := longest.seconds, l.seconds;
    assert coarse * (longest.period - 1) == longest.Duration() - coarse;
    assert (l.period - 1 - 0) * fine == l.Duration() - fine;
    var worst := FloorsFurthestApart(coarse, fine);
    if AlwaysChecked(longest, l) {
      assert CheckedFrom(worst, Some(longest)) <= NeededFrom(worst, l);
    }
    forall start: nat
      ensures FloorToResolution(start, coarse) - FloorToResolution(start, fine) <= fine - Gcd(coarse, fine)
    {
      FloorsApart(start, coarse, fine);
    }
  }

  /** An evaluator with a finer resolution that divides the longest one's. */
  lemma FinerIsCheckedIff(longest: Lookback, l: Lookback)
    requires longest.Valid() && l.Valid() && longest.seconds % l.seconds == 0
    ensures AlwaysChecked(longest, l) <==> (l.period - 1) * l.seconds <= (longest.period - 1) * longest.seconds
  {
    hide Gcd, AlwaysChecked;
    AlwaysCheckedIff(longest, l);
    GcdStep(longest.seconds, l.seconds);
    assert (l.period - 1) * l.seconds == l.Duration() - l.seconds;
    assert (longest.period - 1) * longest.seconds == longest.Duration() - longest.seconds;
  }

  /** An evaluator with a coarser resolution that the longest one's divides is always covered. */
  lemma CoarserIsChecked(longest: Lookback, l: Lookback)
    requires longest.Valid() && l.Valid() && l.seconds % longest.seconds == 0
    requires l.Duration() <= longest.Duration()
    ensures AlwaysChecked(longest, l)
  {
    hide Gcd, AlwaysChecked;
    AlwaysCheckedIff(longest, l);
    GcdOfMultiple(longest.seconds, l.seconds);
  }

  lemma GcdStep(a: int, b: int)
    requires a > 0 && b > 0
    ensures Gcd(a, b) == Gcd(b, a % b) && Gcd(a, 0) == a && Gcd(b, 0) == b
  {
  }

  lemma SelfRemainder(a: int)
    requires a > 0
    ensures a % a == 0
  {
  }

  lemma SmallRemainder(a: int, b: int)
    requires 0 <= a < b
    ensures a % b == a
  {
  }

  lemma GcdOfMultiple(a: int, b: int)
    requires a > 0 && b > 0 && b % a == 0
    ensures Gcd(a, b) == a
  {
    hide Gcd;
    GcdStep(a, b);
    if b < a {
      SmallRemainder(b, a);
    } else if a < b {
      SmallRemainder(a, b);
      GcdStep(b, a);
    }
  }

  /** With a single resolution the checked range contains the window of every evaluator. */
  lemma CheckCoversOneResolution(lookbacks: seq<Option<Lookback>>, longest: Lookback, l: Lookback)
    requires IsLongest(Some(longest), lookbacks) && AllValid(lookbacks)
    requires Some(l) in lookbacks
    requires forall other <- lookbacks :: other.Some? ==> other.value.seconds == l.seconds
    ensures longest.Valid() && l.Valid() && AlwaysChecked(longest, l)
  {
    assert longest.seconds == l.seconds;
    SelfRemainder(l.seconds);
    CoarserIsChecked(longest, l);
  }

  /**
   With mixed resolutions it need not: a one-day candle and 24 one-hour candles last equally long, the
   day comes first, and a run that starts at midnight checks no history although the hours need 23.
   */
  lemma CheckMissesMixedResolutions(longest: Lookback)
    requires IsLongest(Some(longest), [Some(Lookback(86_400, 1)), Some(Lookback(3_600, 24))])
    ensures var start, hours := 1_700_006_400, Lookback(3_600, 24);
      && longest == Lookback(86_400, 1)
      && CheckedFrom(start, Some(longest)) == start && NeededFrom(start, hours) == start - 23 * 3_600
      && !AlwaysChecked(longest, hours)
  {
    var lookbacks := [Some(Lookback(86_400, 1)), Some(Lookback(3_600, 24))];
    assert lookbacks[0] in lookbacks;
    var i :| 0 <= i < 2 && IsFirstLongest(i, longest, lookbacks);
    assert lookbacks[0].value.Duration() == lookbacks[1].value.Duration();
    assert i == 0;
    FinerIsCheckedIff(longest, Lookback(3_600, 24));
  }
}
