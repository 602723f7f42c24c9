/** Market data as the executor and the consolidator see it. Times are in seconds. */
module Market {

  datatype Candle = Candle(
    time: int, open: real, high: real, low: real, close: real, volume: int,
    createdAt: int, updatedAt: int, stable: bool)

  type FixingPrice = x: real | 0.0 < x witness 1.0

  datatype Settlement = Settlement(time: int, fixingPrice: FixingPrice, fundingRate: real)

  const MINUTE: int := 60
  const DAY: int := 86_400

  /** Bucket start by truncating division, as the code divides the epoch timestamp. */
  function FloorToResolution(time: int, seconds: int): int
    requires seconds > 0
  {
    if time >= 0 then time / seconds * seconds else -(-time / seconds * seconds)
  }

  lemma FloorToResolutionMonotone(a: int, b: int, seconds: int)
    requires seconds > 0 && a <= b
    ensures FloorToResolution(a, seconds) <= FloorToResolution(b, seconds)
  {
    if a >= 0 {
      DivMonotone(a, b, seconds);
    } else if b >= 0 {
      DivMonotone(0, b, seconds);
      DivMonotone(0, -a, seconds);
    } else {
      DivMonotone(-b, -a, seconds);
    }
  }

  lemma MulMonotone(x: int, y: int, n: nat)
    requires x <= y
    ensures x * n <= y * n
  {
  }

  ghost predicate Ascending(cs: seq<Candle>) {
    forall i, j :: 0 <= i < j < |cs| ==> cs[i].time < cs[j].time
  }

  lemma DivSplit(a: int, n: int)
    requires n > 0
    ensures a / n * n <= a < a / n * n + n
    ensures a % n == a - a / n * n
  {
    assert a == a / n * n + a % n;
  }

  /** The only quotient that leaves a remainder in range. */
  lemma QuotientIs(a: int, n: int, q: int)
    requires n > 0 && q * n <= a < q * n + n
    ensures a / n == q && a % n == a - q * n
  {
    DivSplit(a, n);
    var p := a / n;
    assert (q + 1) * n == q * n + n && (p + 1) * n == p * n + n;
    LessFromProducts(p, q + 1, n);
    LessFromProducts(q, p + 1, n);
  }

  lemma DivMonotone(a: nat, b: nat, n: int)
    requires n > 0 && a <= b
    ensures 0 <= a / n * n <= b / n * n <= b
  {
    DivSplit(a, n);
    DivSplit(b, n);
    var p, q := a / n, b / n;
    assert (q + 1) * n == q * n + n;
    LessFromProducts(p, q + 1, n);
    MulMonotone(p, q, n);
    MulMonotone(0, p, n);
  }

  lemma LessFromProducts(x: int, y: int, n: nat)
    requires x * n < y * n
    ensures x < y
  {
    if y <= x {
      MulMonotone(y, x, n);
    }
  }
}
