/** What the largest-remainder allocation is good for: it is unique, stays within one unit of every
    exact share, is as close to the exact shares as any allocation can be, and depends only on the
    proportions of the weights. With it, `split_into`, which divides an amount evenly
    (`crates/core/src/money.rs`). */
module ApportionmentLaws {
  import opened Wrappers
  import opened MachineInts
  import opened Arithmetic
  import opened Sets
  import opened Monies
  import opened Apportionment

  // ---- Uniqueness ----

  /** The rule names one allocation: the result of a split is decided by the amount and the weights. */
  lemma ApportionmentUnique(amount: nat, weights: seq<int>, a: seq<int>, b: seq<int>)
    requires Weighted(weights) && Apportioned(amount, weights, a) && Apportioned(amount, weights, b)
    ensures a == b
  {
    forall i | 0 <= i < |a| ensures a[i] == b[i] {
      NotAhead(amount, weights, a, b, i);
      NotAhead(amount, weights, b, a, i);
    }
  }

  lemma NotAhead(amount: nat, weights: seq<int>, a: seq<int>, b: seq<int>, i: nat)
    requires Weighted(weights) && Apportioned(amount, weights, a) && Apportioned(amount, weights, b) && i < |a|
    ensures a[i] <= b[i]
  {
    hide Share, Rest;
    if a[i] > b[i] {
      var j := SomeBehind(a, b, i);
    }
  }

  /** Of two sequences with the same sum, neither is ahead everywhere. */
  lemma SomeBehind(a: seq<int>, b: seq<int>, i: nat) returns (j: nat)
    requires |a| == |b| && Sum(a) == Sum(b) && i < |a| && a[i] > b[i]
    ensures j < |a| && a[j] < b[j]
  {
    var d := seq(|a|, k requires 0 <= k < |a| => a[k] - b[k]);
    assert d[i] > 0;
    SumCombines(1, a, -1, b, d);
    if forall k :: 0 <= k < |d| ==> 0 <= d[k] { SumOfNaturals(d); }
    j :| 0 <= j < |d| && d[j] < 0;
  }

  // ---- Quota ----

  /** Each part is its exact share rounded down or up, and an exact share that is whole is met exactly. */
  lemma WithinQuota(amount: nat, weights: seq<int>, parts: seq<int>, i: nat)
    requires Weighted(weights) && Apportioned(amount, weights, parts) && i < |parts|
    ensures (parts[i] - 1) * Sum(weights) < amount * weights[i] < (parts[i] + 1) * Sum(weights)
    ensures Rest(amount, weights[i], Sum(weights)) == 0 ==> parts[i] * Sum(weights) == amount * weights[i]
  {
    hide Share, Rest;
    QuotaAt(amount, weights, i);
    NoExtraForWhole(amount, weights, parts, i);
    RoundedEitherWay(Quotas(amount, weights)[i], Remainders(amount, weights)[i], Sum(weights), parts[i]);
  }

  lemma RoundedEitherWay(q: int, r: int, total: int, part: int)
    requires 0 <= r < total && (part == q || (part == q + 1 && r > 0))
    ensures (part - 1) * total < q * total + r < (part + 1) * total
    ensures r == 0 ==> part * total == q * total + r
  {
    assert (part - 1) * total == part * total - total;
    assert (part + 1) * total == part * total + total;
    assert (q + 1) * total == q * total + total;
  }

  lemma NoExtraForWhole(amount: nat, weights: seq<int>, parts: seq<int>, i: nat)
    requires Weighted(weights) && Apportioned(amount, weights, parts) && i < |parts|
    ensures Remainders(amount, weights)[i] == 0 ==> parts[i] == Quotas(amount, weights)[i]
  {
    hide Share, Rest, Sum;
    if Remainders(amount, weights)[i] == 0 && parts[i] == Quotas(amount, weights)[i] + 1 {
      var excess := Excess(Sum(weights), parts, Products(amount, weights));
      forall k | 0 <= k < |parts| ensures 0 <= excess[k] && (k == i ==> 0 < excess[k]) {
        OverOrExact(amount, weights, parts, i, k);
      }
      SumOfNaturals(excess);
      assert 0 < excess[i];
      ExcessCancels(amount, weights, parts);
    }
  }

  lemma ExcessCancels(amount: nat, weights: seq<int>, parts: seq<int>)
    requires Weighted(weights) && |parts| == |weights| && Sum(parts) == amount
    ensures Sum(Excess(Sum(weights), parts, Products(amount, weights))) == 0
  {
    hide Share, Rest, Sum, Combines;
    var products := Products(amount, weights);
    SumCombines(Sum(weights), parts, -1, products, Excess(Sum(weights), parts, products));
    ProductsCombine(amount, weights);
    SumCombines(amount, weights, 0, weights, products);
    assert Sum(weights) * amount == amount * Sum(weights);
  }

  function Excess(total: int, parts: seq<int>, products: seq<int>): (d: seq<int>)
    requires |parts| == |products|
    ensures |d| == |parts| && Combines(total, parts, -1, products, d)
  {
    seq(|parts|, k requires 0 <= k < |parts| => total * parts[k] + -1 * products[k])
  }

  /** Once a part with nothing left over gets a unit, no part is below its exact share. */
  lemma OverOrExact(amount: nat, weights: seq<int>, parts: seq<int>, i: nat, k: nat)
    requires Weighted(weights) && Apportioned(amount, weights, parts) && i < |parts| && k < |parts|
    requires parts[i] == Quotas(amount, weights)[i] + 1 && Remainders(amount, weights)[i] == 0
    ensures Sum(weights) * parts[k] >= amount * weights[k]
    ensures k == i ==> Sum(weights) * parts[k] > amount * weights[k]
  {
    hide Share, Rest;
    var q, r := Quotas(amount, weights), Remainders(amount, weights);
    QuotaAt(amount, weights, k);
    if parts[k] == q[k] + 1 {
      assert Sum(weights) * (q[k] + 1) == q[k] * Sum(weights) + Sum(weights);
    } else {
      assert Before(r, i, k);
    }
  }

  /** A larger weight never gets a smaller part, and of equal weights the earlier never gets less. */
  lemma Monotone(amount: MinorUnits, weights: seq<int>, parts: seq<int>, i: nat, j: nat)
    requires Weighted(weights) && Apportioned(amount, weights, parts) && i < |parts| && j < |parts|
    requires weights[i] > weights[j] || (weights[i] == weights[j] && i < j)
    ensures parts[i] >= parts[j]
  {
    hide Share, Rest;
    var total := Sum(weights);
    var q, r := Quotas(amount, weights), Remainders(amount, weights);
    QuotaAt(amount, weights, i);
    QuotaAt(amount, weights, j);
    LargerShare(amount, weights[i], weights[j], total, q[i], r[i], q[j], r[j]);
    assert parts[j] == q[j] + 1 && parts[i] == q[i] ==> Before(r, j, i);
  }

  lemma LargerShare(amount: nat, large: nat, small: nat, total: nat, q: int, r: int, q': int, r': int)
    requires 0 < amount && small <= large
    requires q * total + r == amount * large && 0 <= r < total
    requires q' * total + r' == amount * small && 0 <= r' < total
    ensures q' < q || (q' == q && r' <= r && (small < large ==> r' < r))
  {
    MulMonotone(small, large, amount);
    if small < large { MulMonotone(small + 1, large, amount); }
    assert (q + 1) * total == q * total + total;
    MulCancels(q', q + 1, total);
  }

  // ---- When a split succeeds ----

  /** The parts that got a leftover unit. */
  ghost function Chosen(quotas: seq<int>, parts: seq<int>): set<int>
    requires |quotas| == |parts|
  {
    set i | 0 <= i < |parts| && parts[i] == quotas[i] + 1
  }

  /** The parts that are offered a leftover unit before part `k`. */
  ghost function Ahead(remainders: seq<int>, k: nat): set<int>
    requires k < |remainders|
  {
    set i | 0 <= i < |remainders| && Before(remainders, i, k)
  }

  lemma {:induction false} ChosenCount(quotas: seq<int>, parts: seq<int>)
    requires |quotas| == |parts|
    requires forall i :: 0 <= i < |parts| ==> parts[i] == quotas[i] || parts[i] == quotas[i] + 1
    ensures |Chosen(quotas, parts)| == Sum(parts) - Sum(quotas)
  {
    if parts != [] {
      var last := |parts| - 1;
      ChosenCount(quotas[..last], parts[..last]);
      var before := Chosen(quotas[..last], parts[..last]);
      if parts[last] == quotas[last] + 1 {
        assert Chosen(quotas, parts) == before + {last};
      } else {
        assert Chosen(quotas, parts) == before;
      }
    }
  }

  /** Part `k` gets a leftover unit if and only if fewer parts than there are units come before it. */
  lemma ChosenIffAhead(amount: nat, weights: seq<int>, parts: seq<int>, k: nat)
    requires Weighted(weights) && Apportioned(amount, weights, parts) && k < |parts|
    ensures parts[k] == Quotas(amount, weights)[k] + 1 <==>
            |Ahead(Remainders(amount, weights), k)| < amount - Sum(Quotas(amount, weights))
  {
    hide Share, Rest;
    var quotas, remainders := Quotas(amount, weights), Remainders(amount, weights);
    var chosen, ahead := Chosen(quotas, parts), Ahead(remainders, k);
    ChosenCount(quotas, parts);
    if k in chosen {
      forall i | i in ahead ensures i in chosen {
        assert i !in chosen ==> Before(remainders, k, i);
      }
      SubsetSize(ahead + {k}, chosen);
      assert |ahead + {k}| == |ahead| + 1;
    } else {
      forall i | i in chosen ensures i in ahead {
        assert Before(remainders, i, k);
      }
      SubsetSize(chosen, ahead);
    }
  }

  /** The last index of the least weight. */
  predicate IsLast(weights: seq<int>, k: nat) {
    k < |weights| && forall i :: 0 <= i < |weights| ==> weights[k] <= weights[i] && (k < i ==> weights[k] < weights[i])
  }

  lemma {:induction false} LastExists(weights: seq<int>) returns (k: nat)
    requires weights != []
    ensures IsLast(weights, k)
  {
    var last := |weights| - 1;
    if last == 0 {
      k := 0;
    } else {
      var init := weights[..last];
      k := LastExists(init);
      assert weights[k] == init[k] && forall i :: 0 <= i < last ==> weights[i] == init[i];
      if weights[last] <= weights[k] { k := last; }
    }
  }

  lemma LastIsLeast(amount: MinorUnits, weights: seq<int>, parts: seq<int>, k: nat)
    requires Weighted(weights) && Apportioned(amount, weights, parts) && IsLast(weights, k)
    ensures forall i :: 0 <= i < |parts| ==> parts[k] <= parts[i]
  {
    forall i | 0 <= i < |parts| ensures parts[k] <= parts[i] {
      if i != k { Monotone(amount, weights, parts, i, k); }
    }
  }

  lemma QuotaPositive(amount: nat, weights: seq<int>, k: nat)
    requires Weighted(weights) && k < |weights|
    ensures Quotas(amount, weights)[k] > 0 <==> amount * weights[k] >= Sum(weights)
  {
    hide Share, Rest;
    QuotaAt(amount, weights, k);
    AtLeastOne(Quotas(amount, weights)[k], Remainders(amount, weights)[k], Sum(weights));
  }

  lemma AtLeastOne(q: int, r: int, total: int)
    requires 0 <= r < total && 0 <= q
    ensures q > 0 <==> q * total + r >= total
  {
    if q > 0 { MulMonotone(1, q, total); }
  }

  /** Exactly when a split succeeds, in terms of the amount and the weights alone: its least part, the
      last of least weight, must be worth a whole unit or be early enough to get a leftover one. So a
      weight of zero fails every split. */
  lemma SplitSucceedsIff(amount: MinorUnits, weights: seq<int>, parts: seq<int>, currency: Currency, k: nat)
    requires Weighted(weights) && Apportioned(amount, weights, parts) && IsLast(weights, k)
    ensures Paid(parts, currency).Ok? <==>
            || amount * weights[k] >= Sum(weights)
            || |Ahead(Remainders(amount, weights), k)| < amount - Sum(Quotas(amount, weights))
    ensures !Paid(parts, currency).Ok? ==> Paid(parts, currency) == Err(NotPositive(0))
    ensures weights[k] == 0 ==> !Paid(parts, currency).Ok?
  {
    hide Share, Rest;
    PartsWithin(amount, weights, parts);
    LastIsLeast(amount, weights, parts, k);
    ChosenIffAhead(amount, weights, parts, k);
    QuotaPositive(amount, weights, k);
    QuotaAt(amount, weights, k);
    NoExtraForWhole(amount, weights, parts, k);
    if weights[k] == 0 { ZeroShare(amount, weights, k); }
    hide Apportioned, Weighted, Quotas, Remainders, Ahead;
    assert Paid(parts, currency).Ok? <==> 0 < parts[k];
  }

  lemma ZeroShare(amount: nat, weights: seq<int>, k: nat)
    requires Weighted(weights) && k < |weights| && weights[k] == 0
    ensures Quotas(amount, weights)[k] == 0 && Remainders(amount, weights)[k] == 0
  {}

  // ---- Optimality ----

  /** How far each part is from its exact share, in units of one over the total weight. */
  function Deviations(amount: nat, weights: seq<int>, parts: seq<int>): seq<int>
    requires |parts| == |weights|
  {
    seq(|parts|, i requires 0 <= i < |parts| => Abs(parts[i] * Sum(weights) - amount * weights[i]))
  }

  /** One part, with a price of `total - 2 * threshold` on each unit: rounding up is best at or above the
      threshold, rounding down is best at or below it, and no other number of units does better. */
  lemma PartIsOptimal(total: int, threshold: int, r: int, u: int, other: int)
    requires 0 <= r < total && 0 <= threshold <= total
    requires (u == 1 && r >= threshold) || (u == 0 && r <= threshold)
    ensures Abs(other * total - r) - Abs(u * total - r) >= (total - 2 * threshold) * (other - u)
  {
    OtherUnits(total, threshold, other);
    OtherUnits(total, threshold, u);
    assert (total - 2 * threshold) * (other - u) == (total - 2 * threshold) * other - (total - 2 * threshold) * u;
  }

  lemma OtherUnits(total: int, threshold: int, n: int)
    requires 0 <= threshold <= total
    ensures (total - 2 * threshold) * n == n * total - 2 * (n * threshold)
    ensures n >= 1 ==> n * total >= total && n * threshold >= threshold
    ensures n <= 0 ==> n * total <= n * threshold <= 0
    ensures n == 1 ==> n * total == total && n * threshold == threshold
  {
    if n >= 1 {
      MulMonotone(1, n, total);
      MulMonotone(1, n, threshold);
    } else {
      MulMonotone(threshold, total, -n);
      MulMonotone(0, threshold, -n);
    }
  }

  /** A remainder at which the allocation cuts: everything above is rounded up, everything below down. */
  lemma Threshold(amount: nat, weights: seq<int>, parts: seq<int>) returns (threshold: int)
    requires Weighted(weights) && Apportioned(amount, weights, parts)
    ensures 0 <= threshold <= Sum(weights)
    ensures forall i :: 0 <= i < |parts| ==>
      var q, r := Quotas(amount, weights)[i], Remainders(amount, weights)[i];
      (parts[i] == q + 1 && r >= threshold) || (parts[i] == q && r <= threshold)
  {
    hide Share, Rest;
    var q, r := Quotas(amount, weights), Remainders(amount, weights);
    forall i | 0 <= i < |parts| ensures 0 <= r[i] < Sum(weights) { QuotaAt(amount, weights, i); }
    threshold := Sum(weights);
    for k := 0 to |parts|
      invariant 0 <= threshold <= Sum(weights)
      invariant forall i :: 0 <= i < k && parts[i] == q[i] + 1 ==> r[i] >= threshold
      invariant forall j :: 0 <= j < |parts| && parts[j] == q[j] ==> r[j] <= threshold
    {
      if parts[k] == q[k] + 1 && r[k] < threshold {
        threshold := r[k];
        assert forall j :: 0 <= j < |parts| && parts[j] == q[j] ==> Before(r, k, j);
      }
    }
  }

  lemma DeviationGap(amount: nat, weights: seq<int>, parts: seq<int>, other: seq<int>, threshold: int, i: nat)
    requires Weighted(weights) && Apportioned(amount, weights, parts) && |other| == |parts| && i < |parts|
    requires 0 <= threshold <= Sum(weights)
    requires var q, r := Quotas(amount, weights)[i], Remainders(amount, weights)[i];
      (parts[i] == q + 1 && r >= threshold) || (parts[i] == q && r <= threshold)
    ensures Deviations(amount, weights, other)[i] - Deviations(amount, weights, parts)[i]
         >= (Sum(weights) - 2 * threshold) * (other[i] - parts[i])
  {
    hide Share, Rest;
    var q, r := Quotas(amount, weights)[i], Remainders(amount, weights)[i];
    QuotaAt(amount, weights, i);
    GapAt(Sum(weights), threshold, q, r, parts[i], other[i]);
  }

  lemma GapAt(total: int, threshold: int, q: int, r: int, part: int, other: int)
    requires 0 <= r < total && 0 <= threshold <= total
    requires (part == q + 1 && r >= threshold) || (part == q && r <= threshold)
    ensures Abs(other * total - (q * total + r)) - Abs(part * total - (q * total + r))
         >= (total - 2 * threshold) * (other - part)
  {
    assert other * total == q * total + (other - q) * total;
    assert part * total == q * total + (part - q) * total;
    PartIsOptimal(total, threshold, r, part - q, other - q);
    assert (other - q) - (part - q) == other - part;
  }

  /** No allocation of the same amount, whole numbers of either sign, deviates less in total. */
  lemma LeastDeviation(amount: nat, weights: seq<int>, parts: seq<int>, other: seq<int>)
    requires Weighted(weights) && Apportioned(amount, weights, parts)
    requires |other| == |weights| && Sum(other) == amount
    ensures Sum(Deviations(amount, weights, parts)) <= Sum(Deviations(amount, weights, other))
  {
    hide Share, Rest, Combines, Deviations, Apportioned;
    var threshold := Threshold(amount, weights, parts);
    PricedSum(amount, weights, parts, other, threshold);
  }

  lemma PricedSum(amount: nat, weights: seq<int>, parts: seq<int>, other: seq<int>, threshold: int)
    requires Weighted(weights) && Apportioned(amount, weights, parts)
    requires |other| == |weights| && Sum(other) == amount
    requires 0 <= threshold <= Sum(weights)
    requires forall i :: 0 <= i < |parts| ==>
      var q, r := Quotas(amount, weights)[i], Remainders(amount, weights)[i];
      (parts[i] == q + 1 && r >= threshold) || (parts[i] == q && r <= threshold)
    ensures Sum(Deviations(amount, weights, parts)) <= Sum(Deviations(amount, weights, other))
  {
    hide Share, Rest;
    var price := Sum(weights) - 2 * threshold;
    var mine, theirs := Deviations(amount, weights, parts), Deviations(amount, weights, other);
    var moved := seq(|parts|, i requires 0 <= i < |parts| => other[i] - parts[i]);
    var gap := seq(|parts|, i requires 0 <= i < |parts| => theirs[i] - mine[i]);
    forall i | 0 <= i < |parts| ensures price * moved[i] <= gap[i] {
      DeviationGap(amount, weights, parts, other, threshold, i);
    }
    assert Priced(price, moved, gap) && Combines(1, theirs, -1, mine, gap) && Combines(1, other, -1, parts, moved);
    hide Priced, Combines, Deviations, Apportioned, Quotas, Remainders, Sum;
    GapIsPositive(price, mine, theirs, parts, other, moved, gap);
  }

  ghost predicate Priced(price: int, moved: seq<int>, gap: seq<int>) {
    |moved| == |gap| && forall i :: 0 <= i < |gap| ==> price * moved[i] <= gap[i]
  }

  lemma GapIsPositive(
    price: int, mine: seq<int>, theirs: seq<int>, parts: seq<int>, other: seq<int>, moved: seq<int>, gap: seq<int>)
    requires Combines(1, theirs, -1, mine, gap) && Combines(1, other, -1, parts, moved)
    requires Sum(other) == Sum(parts)
    requires Priced(price, moved, gap)
    ensures Sum(mine) <= Sum(theirs)
  {
    hide Combines, Priced, Sum;
    SumCombines(1, theirs, -1, mine, gap);
    SumCombines(1, other, -1, parts, moved);
    assert Sum(moved) == 0;
    SumDominates(price, moved, gap);
  }

  lemma {:induction false} SumDominates(price: int, moved: seq<int>, gap: seq<int>)
    requires Priced(price, moved, gap)
    ensures price * Sum(moved) <= Sum(gap)
  {
    if gap != [] {
      var last := |gap| - 1;
      SumDominates(price, moved[..last], gap[..last]);
      assert price * (Sum(moved[..last]) + moved[last]) == price * Sum(moved[..last]) + price * moved[last];
    }
  }

  // ---- Proportions ----

  function Scaled(k: nat, weights: seq<int>): seq<int> {
    seq(|weights|, i requires 0 <= i < |weights| => k * weights[i])
  }

  lemma ScaledShare(amount: nat, weight: nat, total: nat, k: nat)
    requires 0 < total && 0 < k && weight <= total
    ensures k * total != 0
    ensures Share(amount, k * weight, k * total) == Share(amount, weight, total)
    ensures Rest(amount, k * weight, k * total) == k * Rest(amount, weight, total)
  {
    hide Share, Rest;
    var q, r := Share(amount, weight, total), Rest(amount, weight, total);
    ShareBounds(amount, weight, total);
    MulMonotone(1, total, k);
    ScaledProduct(amount, weight, total, q, r, k);
    ShareIs(amount, k * weight, k * total, q, k * r);
  }

  lemma ScaledProduct(amount: nat, weight: nat, total: nat, q: nat, r: nat, k: nat)
    requires q * total + r == amount * weight && r < total && 0 < k
    ensures amount * (k * weight) == q * (k * total) + k * r
    ensures 0 <= k * r < k * total
  {
    assert amount * (k * weight) == k * (amount * weight);
    assert q * (k * total) == k * (q * total);
    MulMonotone(r + 1, total, k);
    MulMonotone(0, r, k);
  }

  lemma ShareIs(amount: nat, weight: int, total: nat, q: nat, r: int)
    requires amount * weight == q * total + r && 0 <= r < total
    ensures Share(amount, weight, total) == q && Rest(amount, weight, total) == r
  {
    assert (q + 1) * total == q * total + total;
    QuotientUnique(amount * weight, total, q);
  }

  /** Multiplying every weight by the same positive number changes nothing. */
  lemma ScaleInvariant(amount: nat, weights: seq<int>, k: nat, parts: seq<int>)
    requires Weighted(weights) && 0 < k
    ensures Weighted(Scaled(k, weights))
    ensures Apportioned(amount, weights, parts) <==> Apportioned(amount, Scaled(k, weights), parts)
  {
    hide Share, Rest;
    var scaled := Scaled(k, weights);
    SumCombines(k, weights, 0, weights, scaled);
    MulMonotone(1, Sum(weights), k);
    forall i | 0 <= i < |weights| ensures 0 <= scaled[i] { MulMonotone(0, weights[i], k); }
    var q, r, q', r' := Quotas(amount, weights), Remainders(amount, weights), Quotas(amount, scaled), Remainders(amount, scaled);
    forall i | 0 <= i < |weights| ensures q'[i] == q[i] && r'[i] == k * r[i] {
      WeightBelowTotal(weights, i);
      ScaledShare(amount, weights[i], Sum(weights), k);
    }
    assert q' == q;
    SameOrder(k, r, r');
  }

  lemma SameOrder(k: nat, r: seq<int>, r': seq<int>)
    requires 0 < k && |r| == |r'| && forall i :: 0 <= i < |r| ==> r'[i] == k * r[i]
    ensures forall i, j :: 0 <= i < |r| && 0 <= j < |r| ==> (Before(r, i, j) <==> Before(r', i, j))
  {
    forall i, j | 0 <= i < |r| && 0 <= j < |r| ensures Before(r, i, j) <==> Before(r', i, j) {
      if r[i] < r[j] { MulMonotone(r[i] + 1, r[j], k); }
      if r[j] < r[i] { MulMonotone(r[j] + 1, r[i], k); }
    }
  }

  // ---- split_into ----

  /** `n` parts: the first `amount % n` of them one unit larger than the rest. */
  function Even(amount: nat, n: nat): seq<int>
    requires n != 0
  {
    seq(n, i => amount / n + if i < amount % n then 1 else 0)
  }

  method SplitInto(m: Money, n: nat) returns (r: Result<seq<Money>, MoneyError>)
    requires n < TWO_63
    ensures n == 0 || n > m.minorUnits ==> r == Err(NotPositive(0))
    ensures 0 < n <= m.minorUnits ==> r == Paid(Even(m.minorUnits, n), m.currency) && r.Ok?
  {
    var amount: i64 := m.minorUnits;
    if n == 0 || n > amount { return Err(NotPositive(0)); }
    var quotient, remainder := amount / n, amount % n;
    EvenParts(amount, n);
    var parts := [];
    for i := 0 to n
      invariant |parts| == i
      invariant forall k :: 0 <= k < i ==> parts[k] == Money(Even(m.minorUnits, n)[k], m.currency)
    {
      assert Even(m.minorUnits, n)[i] == if i < remainder then quotient + 1 else quotient;
      var part := FromMinorUnits(if i < remainder then quotient + 1 else quotient, m.currency);
      parts := parts + [part.value];
    }
    assert parts == Paid(Even(m.minorUnits, n), m.currency).value;
    return Ok(parts);
  }

  lemma EvenParts(amount: nat, n: nat)
    requires 0 < n
    ensures forall i :: 0 <= i < n ==> 0 <= Even(amount, n)[i] <= amount && (n <= amount ==> 0 < Even(amount, n)[i])
    ensures amount < n ==> Even(amount, n)[n - 1] == 0
  {
    QuotientBounds(amount, n);
    if n <= amount { MulCancels(1, amount / n + 1, n); } else { QuotientUnique(amount, n, 0); }
    if amount % n > 0 {
      MulMonotone(1, n, amount / n);
    } else {
      MulCancels(amount / n, amount + 1, n) by { MulMonotone(1, n, amount); }
    }
  }

  /** Every unit is handed out, no two parts differ by more than one, and the larger ones come first. */
  lemma EvenIsFair(amount: nat, n: nat)
    requires 0 < n
    ensures Sum(Even(amount, n)) == amount
    ensures forall i, j :: 0 <= i <= j < n ==> Even(amount, n)[j] <= Even(amount, n)[i] <= Even(amount, n)[j] + 1
  {
    EvenPrefix(amount, n, n);
    assert Even(amount, n)[..n] == Even(amount, n);
    assert amount == n * (amount / n) + amount % n;
  }

  lemma {:induction false} EvenPrefix(amount: nat, n: nat, k: nat)
    requires k <= n && n != 0
    ensures Sum(Even(amount, n)[..k]) == k * (amount / n) + if k < amount % n then k else amount % n
  {
    if k > 0 {
      EvenPrefix(amount, n, k - 1);
      assert Even(amount, n)[..k][..k - 1] == Even(amount, n)[..k - 1];
      assert k * (amount / n) == (k - 1) * (amount / n) + amount / n;
    }
  }

  lemma UnitWeights(amount: nat, n: nat)
    requires 0 < n
    ensures Weighted(Constant(n, 1)) && Apportioned(amount, Constant(n, 1), Even(amount, n))
  {
    SumConstant(n, 1);
    EvenIsFair(amount, n);
    assert forall i :: 0 <= i < n ==> Quotas(amount, Constant(n, 1))[i] == amount / n
                                      && Remainders(amount, Constant(n, 1))[i] == amount % n;
  }

  /** Splitting by `n` equal positive weights is splitting into `n` parts, errors included: what
      `SplitIntoRatios` returns on them is what `SplitInto` returns. */
  lemma SplitsAgree(m: Money, n: nat, weight: nat, parts: seq<int>)
    requires 0 < n && 0 < weight
    ensures Weighted(Constant(n, weight))
    ensures Apportioned(m.minorUnits, Constant(n, weight), parts) <==> parts == Even(m.minorUnits, n)
    ensures n > m.minorUnits ==> Paid(Even(m.minorUnits, n), m.currency) == Err(NotPositive(0))
  {
    hide Apportioned;
    var amount: nat := m.minorUnits;
    UnitWeights(amount, n);
    assert Constant(n, weight) == Scaled(weight, Constant(n, 1));
    ScaleInvariant(amount, Constant(n, 1), weight, Even(amount, n));
    ScaleInvariant(amount, Constant(n, 1), weight, parts);
    if Apportioned(amount, Constant(n, weight), parts) {
      ApportionmentUnique(amount, Constant(n, weight), parts, Even(amount, n));
    }
    EvenParts(amount, n);
  }
}
