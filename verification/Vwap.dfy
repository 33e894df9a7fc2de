/** Volume-weighted average price: the scalar loop and the four-lane loop, over exact reals. */
module Vwap {
  import opened Trading

  function Weighted(prices: seq<real>, qtys: seq<real>): real
    requires |prices| == |qtys|
  {
    if prices == [] then 0.0
    else
      var last := |prices| - 1;
      Weighted(prices[..last], qtys[..last]) + prices[last] * qtys[last]
  }

  function Sum(qtys: seq<real>): real {
    if qtys == [] then 0.0 else Sum(qtys[..|qtys| - 1]) + qtys[|qtys| - 1]
  }

  /** The quotient, defined when there is any volume to divide by. */
  function Quotient(num: real, den: real): (q: Option<real>)
    ensures q.None? <==> den == 0.0
    ensures q.Some? ==> q.value * den == num
  {
    if den == 0.0 then None else Some(num / den)
  }

  /** The average price, if there is any volume: what each unit would have to cost for the same total. */
  ghost predicate IsAverage(prices: seq<real>, qtys: seq<real>, avg: Option<real>)
    requires |prices| == |qtys|
  {
    && (avg.None? <==> Sum(qtys) == 0.0)
    && (avg.Some? ==> avg.value * Sum(qtys) == Weighted(prices, qtys))
  }

  method VwapScalar(prices: seq<real>, qtys: seq<real>) returns (num: real, den: real, avg: Option<real>)
    requires |prices| == |qtys|
    ensures num == Weighted(prices, qtys) && den == Sum(qtys)
    ensures avg.None? <==> Sum(qtys) == 0.0
    ensures avg.Some? ==> avg.value * Sum(qtys) == Weighted(prices, qtys)
  {
    num, den := 0.0, 0.0;
    for i := 0 to |prices|
      invariant num == Weighted(prices[..i], qtys[..i]) && den == Sum(qtys[..i])
    {
      ExtendByOne(prices, qtys, i);
      num := num + prices[i] * qtys[i];
      den := den + qtys[i];
    }
    assert prices[..|prices|] == prices && qtys[..|qtys|] == qtys;
    avg := Quotient(num, den);
  }

  lemma ExtendByOne(prices: seq<real>, qtys: seq<real>, i: nat)
    requires |prices| == |qtys| && i < |prices|
    ensures Weighted(prices[..i + 1], qtys[..i + 1]) == Weighted(prices[..i], qtys[..i]) + prices[i] * qtys[i]
    ensures Sum(qtys[..i + 1]) == Sum(qtys[..i]) + qtys[i]
  {
    assert prices[..i + 1][..i] == prices[..i] && qtys[..i + 1][..i] == qtys[..i];
  }

  /** A register of four numbers. */
  datatype Lanes = Lanes(a: real, b: real, c: real, d: real)

  function Horizontal(v: Lanes): real {
    v.a + v.b + v.c + v.d
  }

  function Load(s: seq<real>, i: nat): Lanes
    requires i + 4 <= |s|
  {
    Lanes(s[i], s[i + 1], s[i + 2], s[i + 3])
  }

  function MultiplyAdd(p: Lanes, q: Lanes, acc: Lanes): Lanes {
    Lanes(p.a * q.a + acc.a, p.b * q.b + acc.b, p.c * q.c + acc.c, p.d * q.d + acc.d)
  }

  function AddLanes(p: Lanes, q: Lanes): Lanes {
    Lanes(p.a + q.a, p.b + q.b, p.c + q.c, p.d + q.d)
  }

  /** Four elements at once: what one round adds to the horizontal sums. */
  lemma ExtendByFour(prices: seq<real>, qtys: seq<real>, i: nat, num: Lanes, den: Lanes)
    requires |prices| == |qtys| && i + 4 <= |prices|
    ensures Horizontal(MultiplyAdd(Load(prices, i), Load(qtys, i), num)) - Horizontal(num) ==
            Weighted(prices[..i + 4], qtys[..i + 4]) - Weighted(prices[..i], qtys[..i])
    ensures Horizontal(AddLanes(den, Load(qtys, i))) - Horizontal(den) == Sum(qtys[..i + 4]) - Sum(qtys[..i])
  {
    ExtendByOne(prices, qtys, i);
    ExtendByOne(prices, qtys, i + 1);
    ExtendByOne(prices, qtys, i + 2);
    ExtendByOne(prices, qtys, i + 3);
  }

  /** The vectorized bulk: four running sums over the first `end` elements, collapsed once. */
  method LaneSums(prices: seq<real>, qtys: seq<real>, end: nat) returns (num: real, den: real)
    requires |prices| == |qtys| && end <= |prices| && end % 4 == 0
    ensures num == Weighted(prices[..end], qtys[..end]) && den == Sum(qtys[..end])
  {
    var numVec, denVec := Lanes(0.0, 0.0, 0.0, 0.0), Lanes(0.0, 0.0, 0.0, 0.0);
    var i := 0;
    ghost var round, rounds := 0, end / 4;
    assert Horizontal(numVec) == Weighted(prices[..i], qtys[..i]) && Horizontal(denVec) == Sum(qtys[..i]);
    hide MultiplyAdd, AddLanes, Weighted, Sum;
    while i < end
      invariant i == 4 * round && end == 4 * rounds && i <= end
      invariant Horizontal(numVec) == Weighted(prices[..i], qtys[..i])
      invariant Horizontal(denVec) == Sum(qtys[..i])
    {
      ExtendByFour(prices, qtys, i, numVec, denVec);
      numVec := MultiplyAdd(Load(prices, i), Load(qtys, i), numVec);
      denVec := AddLanes(denVec, Load(qtys, i));
      i, round := i + 4, round + 1;
    }
    num, den := Horizontal(numVec), Horizontal(denVec);
  }

  /** Bulk in four lanes, one horizontal sum, then a scalar tail: the same three results for every length. */
  method VwapSimd(prices: seq<real>, qtys: seq<real>) returns (num: real, den: real, avg: Option<real>)
    requires |prices| == |qtys|
    ensures num == Weighted(prices, qtys) && den == Sum(qtys)
    ensures avg.None? <==> Sum(qtys) == 0.0
    ensures avg.Some? ==> avg.value * Sum(qtys) == Weighted(prices, qtys)
  {
    var n := |prices|;
    var simdEnd := n - n % 4;
    num, den := LaneSums(prices, qtys, simdEnd);
    for j := simdEnd to n
      invariant num == Weighted(prices[..j], qtys[..j]) && den == Sum(qtys[..j])
    {
      ExtendByOne(prices, qtys, j);
      num := num + prices[j] * qtys[j];
      den := den + qtys[j];
    }
    assert prices[..n] == prices && qtys[..n] == qtys;
    avg := Quotient(num, den);
  }

  // ---------- Laws of the average ----------

  lemma {:induction false} SumNonNegative(qtys: seq<real>)
    requires forall i :: 0 <= i < |qtys| ==> qtys[i] >= 0.0
    ensures Sum(qtys) >= 0.0
  {
    if qtys != [] {
      SumNonNegative(qtys[..|qtys| - 1]);
    }
  }

  lemma ScaledBound(p: real, bound: real, q: real)
    requires p <= bound && 0.0 <= q
    ensures p * q <= bound * q
  {
  }

  /** The weighted total lies between the total volume at the lowest and at the highest price. */
  lemma {:induction false} WeightedBounds(prices: seq<real>, qtys: seq<real>, lo: real, hi: real)
    requires |prices| == |qtys| && forall i :: 0 <= i < |qtys| ==> qtys[i] >= 0.0
    requires forall i :: 0 <= i < |prices| ==> lo <= prices[i] <= hi
    ensures lo * Sum(qtys) <= Weighted(prices, qtys) <= hi * Sum(qtys)
  {
    if prices != [] {
      var last := |prices| - 1;
      WeightedBounds(prices[..last], qtys[..last], lo, hi);
      ScaledBound(lo, prices[last], qtys[last]);
      ScaledBound(prices[last], hi, qtys[last]);
      var before, q := Sum(qtys[..last]), qtys[last];
      assert lo * (before + q) == lo * before + lo * q;
      assert hi * (before + q) == hi * before + hi * q;
    }
  }

  lemma ScaledOrder(a: real, b: real, s: real)
    requires 0.0 < s && a * s <= b * s
    ensures a <= b
  {
    assert a == a * s / s && b == b * s / s;
  }

  /** The average is a mean: with no negative quantity it lies between the lowest and the highest price. */
  lemma AverageIsBetween(prices: seq<real>, qtys: seq<real>, avg: Option<real>, lo: real, hi: real)
    requires |prices| == |qtys| && IsAverage(prices, qtys, avg) && avg.Some?
    requires forall i :: 0 <= i < |qtys| ==> qtys[i] >= 0.0
    requires forall i :: 0 <= i < |prices| ==> lo <= prices[i] <= hi
    ensures lo <= avg.value <= hi
  {
    hide Weighted, Sum;
    SumNonNegative(qtys);
    WeightedBounds(prices, qtys, lo, hi);
    ScaledOrder(lo, avg.value, Sum(qtys));
    ScaledOrder(avg.value, hi, Sum(qtys));
  }

  lemma CancelFactor(x: real, y: real, s: real)
    requires s != 0.0 && x * s == y * s
    ensures x == y
  {
    assert (x - y) * s == 0.0;
    assert x - y == (x - y) * s / s;
  }

  /** There is only one average, so the two loops agree. */
  lemma AverageIsUnique(prices: seq<real>, qtys: seq<real>, a: Option<real>, b: Option<real>)
    requires |prices| == |qtys| && IsAverage(prices, qtys, a) && IsAverage(prices, qtys, b)
    ensures a == b
  {
    hide Weighted, Sum;
    if a.Some? && b.Some? {
      CancelFactor(a.value, b.value, Sum(qtys));
    }
  }
}
