/** `split_into_ratios`: dividing an amount by weights (`crates/core/src/money.rs`). */
module Apportionment {
  import opened Wrappers
  import opened MachineInts
  import opened Arithmetic
  import opened Monies

  // ---- Sums ----

  function Sum(s: seq<int>): int {
    if s == [] then 0 else Sum(s[..|s| - 1]) + s[|s| - 1]
  }

  lemma SumSnoc(s: seq<int>, x: int)
    ensures Sum(s + [x]) == Sum(s) + x
  {
    assert (s + [x])[..|s|] == s;
  }

  lemma {:induction false} SumUpdate(s: seq<int>, i: nat, x: int)
    requires i < |s|
    ensures Sum(s[i := x]) == Sum(s) - s[i] + x
  {
    var last := |s| - 1;
    if i == last {
      assert s[i := x][..last] == s[..last];
    } else {
      assert s[i := x][..last] == s[..last][i := x];
      SumUpdate(s[..last], i, x);
    }
  }

  /** `c` is the combination `p * a + q * b`, element by element. */
  ghost predicate Combines(p: int, a: seq<int>, q: int, b: seq<int>, c: seq<int>) {
    |a| == |b| == |c| && forall i :: 0 <= i < |c| ==> c[i] == p * a[i] + q * b[i]
  }

  lemma {:induction false} SumCombines(p: int, a: seq<int>, q: int, b: seq<int>, c: seq<int>)
    requires Combines(p, a, q, b, c)
    ensures Sum(c) == p * Sum(a) + q * Sum(b)
  {
    if c != [] {
      var last := |c| - 1;
      SumCombines(p, a[..last], q, b[..last], c[..last]);
      assert p * (Sum(a[..last]) + a[last]) == p * Sum(a[..last]) + p * a[last];
      assert q * (Sum(b[..last]) + b[last]) == q * Sum(b[..last]) + q * b[last];
    }
  }

  /** A sum of numbers that are not negative is positive exactly when one of them is. */
  lemma {:induction false} SumOfNaturals(s: seq<int>)
    requires forall i :: 0 <= i < |s| ==> 0 <= s[i]
    ensures 0 <= Sum(s)
    ensures 0 < Sum(s) <==> exists i :: 0 <= i < |s| && 0 < s[i]
    ensures forall i :: 0 <= i < |s| ==> s[i] <= Sum(s)
  {
    if s != [] {
      var init := s[..|s| - 1];
      SumOfNaturals(init);
      if 0 < Sum(init) {
        var i :| 0 <= i < |init| && 0 < init[i];
        assert 0 < s[i];
      }
      forall i | 0 <= i < |s| && 0 < s[i] ensures 0 < Sum(s) {
        if i < |init| { assert init[i] == s[i]; }
      }
      forall i | 0 <= i < |s| ensures s[i] <= Sum(s) {
        if i < |init| { assert init[i] == s[i]; }
      }
    }
  }

  function Constant(n: nat, x: int): seq<int> {
    seq(n, _ => x)
  }

  lemma {:induction false} SumConstant(n: nat, x: int)
    ensures Sum(Constant(n, x)) == n * x
  {
    if n > 0 {
      SumConstant(n - 1, x);
      assert Constant(n, x)[..n - 1] == Constant(n - 1, x);
      assert (n - 1) * x + x == n * x;
    }
  }

  // ---- The largest-remainder allocation ----

  predicate Weighted(weights: seq<int>) {
    (forall i :: 0 <= i < |weights| ==> 0 <= weights[i]) && 0 < Sum(weights)
  }

  /** The exact share `amount * weight / total`: rounded down, and what the rounding drops. */
  function Share(amount: nat, weight: int, total: int): int
    requires total != 0
  {
    amount * weight / total
  }

  function Rest(amount: nat, weight: int, total: int): int
    requires total != 0
  {
    amount * weight % total
  }

  lemma ShareBounds(amount: nat, weight: nat, total: int)
    requires 0 < total && weight <= total
    ensures var q, r := Share(amount, weight, total), Rest(amount, weight, total);
            q * total + r == amount * weight && 0 <= r < total && 0 <= q <= amount
  {
    var x := amount * weight;
    ProductBound(amount, weight, amount, total);
    QuotientBounds(x, total);
    MulCancels(x / total, amount + 1, total);
  }

  function Quotas(amount: nat, weights: seq<int>): (q: seq<int>)
    requires Sum(weights) != 0
  {
    seq(|weights|, i requires 0 <= i < |weights| => Share(amount, weights[i], Sum(weights)))
  }

  function Remainders(amount: nat, weights: seq<int>): (r: seq<int>)
    requires Sum(weights) != 0
  {
    seq(|weights|, i requires 0 <= i < |weights| => Rest(amount, weights[i], Sum(weights)))
  }

  /** The order in which parts are offered the leftover units. */
  predicate Before(remainders: seq<int>, i: nat, j: nat)
    requires i < |remainders| && j < |remainders|
  {
    remainders[i] > remainders[j] || (remainders[i] == remainders[j] && i < j)
  }

  /** Largest remainder, lower index on ties: each part is its rounded-down share or one more, the
      parts add up to the amount, and any part that got the extra unit is before any that did not. */
  ghost predicate Apportioned(amount: nat, weights: seq<int>, parts: seq<int>)
    requires Sum(weights) != 0
  {
    var quotas, remainders := Quotas(amount, weights), Remainders(amount, weights);
    && |parts| == |weights|
    && Sum(parts) == amount
    && (forall i :: 0 <= i < |parts| ==> parts[i] == quotas[i] || parts[i] == quotas[i] + 1)
    && (forall i, j :: 0 <= i < |parts| && 0 <= j < |parts| && parts[i] == quotas[i] + 1 && parts[j] == quotas[j] ==>
          Before(remainders, i, j))
  }

  lemma QuotaAt(amount: nat, weights: seq<int>, i: nat)
    requires Weighted(weights) && i < |weights|
    ensures var q, r := Quotas(amount, weights)[i], Remainders(amount, weights)[i];
            q * Sum(weights) + r == amount * weights[i] && 0 <= r < Sum(weights) && 0 <= q <= amount
  {
    hide Share, Rest;
    SumOfNaturals(weights);
    ShareBounds(amount, weights[i], Sum(weights));
  }

  function Products(amount: nat, weights: seq<int>): seq<int> {
    seq(|weights|, i requires 0 <= i < |weights| => amount * weights[i])
  }

  lemma ProductsCombine(amount: nat, weights: seq<int>)
    requires Weighted(weights)
    ensures Combines(amount, weights, 0, weights, Products(amount, weights))
    ensures Combines(Sum(weights), Quotas(amount, weights), 1, Remainders(amount, weights), Products(amount, weights))
  {
    hide Share, Rest;
    forall i | 0 <= i < |weights|
      ensures Products(amount, weights)[i] == Sum(weights) * Quotas(amount, weights)[i] + 1 * Remainders(amount, weights)[i]
    {
      QuotaAt(amount, weights, i);
    }
  }

  /** What the rounding down leaves over: the remainders, in units of the total weight. */
  lemma LeftoverBalance(amount: nat, weights: seq<int>)
    requires Weighted(weights)
    ensures (amount - Sum(Quotas(amount, weights))) * Sum(weights) == Sum(Remainders(amount, weights))
    ensures 0 <= Sum(Quotas(amount, weights)) <= amount
  {
    hide Share, Rest, Combines;
    var q, r, products := Quotas(amount, weights), Remainders(amount, weights), Products(amount, weights);
    ProductsCombine(amount, weights);
    SumCombines(Sum(weights), q, 1, r, products);
    SumCombines(amount, weights, 0, weights, products);
    forall i | 0 <= i < |weights| ensures 0 <= q[i] && 0 <= r[i] { QuotaAt(amount, weights, i); }
    SumOfNaturals(q);
    SumOfNaturals(r);
    LeftoverIs(amount, Sum(weights), Sum(q), Sum(r));
  }

  lemma LeftoverIs(amount: nat, total: nat, q: int, r: nat)
    requires 0 < total && amount * total == total * q + r
    ensures (amount - q) * total == r && q <= amount
  {
    assert (amount - q) * total == amount * total - total * q;
    MulCancels(q, amount + 1, total);
  }

  function NonZero(s: seq<int>): set<nat> {
    set i: nat | i < |s| && s[i] != 0
  }

  lemma NonZeroLast(s: seq<int>)
    requires s != []
    ensures |NonZero(s)| == |NonZero(s[..|s| - 1])| + if s[|s| - 1] != 0 then 1 else 0
  {
    var last := |s| - 1;
    assert NonZero(s) == NonZero(s[..last]) + if s[last] != 0 then {last} else {};
  }

  lemma {:induction false} SumBelow(s: seq<int>, bound: nat)
    requires forall i :: 0 <= i < |s| ==> 0 <= s[i] < bound
    ensures Sum(s) <= |NonZero(s)| * (bound - 1)
    ensures |NonZero(s)| <= |s|
  {
    if s != [] {
      SumBelow(s[..|s| - 1], bound);
      NonZeroLast(s);
      hide NonZero;
      assert (|NonZero(s[..|s| - 1])| + 1) * (bound - 1) == |NonZero(s[..|s| - 1])| * (bound - 1) + (bound - 1);
    }
  }

  lemma FewerThan(leftover: int, total: nat, sum: int, nonZero: nat)
    requires 0 < total && leftover * total == sum <= nonZero * (total - 1)
    ensures leftover <= nonZero
  {
    assert nonZero * (total - 1) == nonZero * total - nonZero;
    assert (nonZero + 1) * total == nonZero * total + total;
    MulCancels(leftover, nonZero + 1, total);
  }

  /** There are never more leftover units than parts with a nonzero remainder to take them. */
  lemma LeftoverFewerThanRemainders(amount: nat, weights: seq<int>)
    requires Weighted(weights)
    ensures 0 <= amount - Sum(Quotas(amount, weights)) <= |NonZero(Remainders(amount, weights))| <= |weights|
  {
    hide Share, Rest, Sum, NonZero;
    var total, r := Sum(weights), Remainders(amount, weights);
    LeftoverBalance(amount, weights);
    forall i | 0 <= i < |r| ensures 0 <= r[i] < total { QuotaAt(amount, weights, i); }
    SumBelow(r, total);
    FewerThan(amount - Sum(Quotas(amount, weights)), total, Sum(r), |NonZero(r)|);
  }

  // ---- Sorting the remainders ----

  type Ranked = (u64, nat)

  predicate Precedes(x: Ranked, y: Ranked) {
    x.0 > y.0 || (x.0 == y.0 && x.1 < y.1)
  }

  ghost predicate Sorted(s: seq<Ranked>) {
    forall i, j :: 0 <= i < j < |s| ==> Precedes(s[i], s[j])
  }

  ghost predicate Distinct(s: seq<Ranked>) {
    forall i, j :: 0 <= i < j < |s| ==> s[i] != s[j]
  }

  function Insert(x: Ranked, s: seq<Ranked>): (r: seq<Ranked>)
    requires Sorted(s) && x !in s
    ensures Sorted(r) && |r| == |s| + 1
    ensures forall y :: y in r <==> y == x || y in s
  {
    if s == [] || Precedes(x, s[0]) then [x] + s
    else
      assert forall y :: y in s <==> y == s[0] || y in s[1..];
      var rest := Insert(x, s[1..]);
      assert forall k :: 0 <= k < |rest| ==> rest[k] == x || rest[k] in s[1..] by {
        assert forall k :: 0 <= k < |rest| ==> rest[k] in rest;
      }
      assert forall k :: 0 <= k < |rest| ==> Precedes(s[0], rest[k]);
      [s[0]] + rest
  }

  /** `sort_by` on the remainders: decreasing remainder, then increasing index. */
  function SortByRemainder(s: seq<Ranked>): (r: seq<Ranked>)
    requires Distinct(s)
    ensures Sorted(r) && |r| == |s|
    ensures forall y :: y in r <==> y in s
  {
    if s == [] then []
    else
      assert s[0] !in s[1..];
      assert forall y :: y in s <==> y == s[0] || y in s[1..];
      Insert(s[0], SortByRemainder(s[1..]))
  }

  // ---- split_into_ratios ----

  /** Every part must itself be an amount of money. */
  function Paid(parts: seq<int>, currency: Currency): Result<seq<Money>, MoneyError> {
    if forall i :: 0 <= i < |parts| ==> 0 < parts[i] <= MAX_MINOR_UNITS
    then Ok(seq(|parts|, i requires 0 <= i < |parts| => Money(parts[i], currency)))
    else Err(NotPositive(0))
  }

  /** The last loop of both splits: the first part that is no amount of money decides the error. */
  method PayOut(parts: seq<i64>, currency: Currency) returns (r: Result<seq<Money>, MoneyError>)
    ensures (forall i :: 0 <= i < |parts| ==> 0 <= parts[i] <= MAX_MINOR_UNITS) ==> r == Paid(parts, currency)
    ensures r.Ok? ==> |r.value| == |parts| && forall i :: 0 <= i < |parts| ==> FromMinorUnits(parts[i], currency) == Ok(r.value[i])
    ensures r.Err? ==> exists i :: 0 <= i < |parts| && FromMinorUnits(parts[i], currency) == Err(r.error)
                                && forall k :: 0 <= k < i ==> FromMinorUnits(parts[k], currency).Ok?
  {
    var paid := [];
    for i := 0 to |parts|
      invariant |paid| == i
      invariant forall k :: 0 <= k < i ==> FromMinorUnits(parts[k], currency) == Ok(paid[k])
    {
      if parts[i] <= 0 { return Err(NotPositive(parts[i])); }
      var part := FromMinorUnits(parts[i], currency);
      if part.Err? { return Err(part.error); }
      paid := paid + [part.value];
    }
    forall i | 0 <= i < |parts| ensures 0 < parts[i] <= MAX_MINOR_UNITS && paid[i] == Money(parts[i], currency) {
      assert FromMinorUnits(parts[i], currency) == Ok(paid[i]);
    }
    assert paid == Paid(parts, currency).value;
    return Ok(paid);
  }

  ghost predicate Among(s: seq<Ranked>, k: nat, i: nat) {
    exists p :: 0 <= p < k && p < |s| && s[p].1 == i
  }

  lemma WeightBelowTotal(weights: seq<int>, i: nat)
    requires Weighted(weights) && i < |weights|
    ensures weights[i] <= Sum(weights)
  {
    SumOfNaturals(weights);
  }

  /** The arithmetic of one share: neither the product nor the two casts can overflow. */
  method DivideExactly(amount: MinorUnits, ratio: u32, total: u64) returns (share: i64, remainder: u64)
    requires 0 < total && ratio <= total
    ensures share == Share(amount, ratio, total) && remainder == Rest(amount, ratio, total)
  {
    ProductBound(amount, ratio, MAX_MINOR_UNITS, TWO_32);
    ShareBounds(amount, ratio, total);
    var product: i128 := amount * ratio;
    share := product / total;
    remainder := product % total;
  }

  /** The exact shares, rounded down, with their remainders; every cast and product is exact. */
  method RoundDown(amount: MinorUnits, weights: seq<u32>, total: u64)
    returns (allotted: seq<i64>, remainders: seq<Ranked>, sumAllocated: i64)
    requires Weighted(weights) && total == Sum(weights)
    ensures allotted == Quotas(amount, weights)
    ensures |remainders| == |weights|
    ensures forall i :: 0 <= i < |weights| ==> remainders[i] == (Remainders(amount, weights)[i], i)
    ensures sumAllocated == Sum(allotted) <= amount
  {
    hide Share, Rest;
    allotted, remainders, sumAllocated := [], [], 0;
    ghost var quotas := Quotas(amount, weights);
    LeftoverBalance(amount, weights);
    forall i | 0 <= i < |weights| ensures 0 <= quotas[i] { QuotaAt(amount, weights, i); }
    for i := 0 to |weights|
      invariant |allotted| == |remainders| == i
      invariant allotted == quotas[..i]
      invariant forall k :: 0 <= k < i ==> remainders[k] == (Remainders(amount, weights)[k], k)
      invariant sumAllocated == Sum(allotted)
    {
      QuotaAt(amount, weights, i);
      WeightBelowTotal(weights, i);
      var share, remainder := DivideExactly(amount, weights[i], total);
      SumPrefix(quotas, i);
      SumSnoc(allotted, share);
      allotted := allotted + [share];
      remainders := remainders + [(remainder, i)];
      sumAllocated := sumAllocated + share;
    }
  }

  lemma {:induction false} SumPrefix(s: seq<int>, n: nat)
    requires n < |s| && forall i :: 0 <= i < |s| ==> 0 <= s[i]
    ensures 0 <= Sum(s[..n]) && Sum(s[..n + 1]) == Sum(s[..n]) + s[n] && Sum(s[..n + 1]) <= Sum(s)
    decreases |s|
  {
    SumOfNaturals(s[..n]);
    assert s[..n + 1][..n] == s[..n];
    if n + 1 == |s| {
      assert s[..n + 1] == s;
    } else {
      var init := s[..|s| - 1];
      SumPrefix(init, n);
      assert init[..n] == s[..n] && init[..n + 1] == s[..n + 1];
    }
  }

  /** The leftover units, one each, to the first parts in order. */
  method GiveLeftover(quotas: seq<i64>, order: seq<Ranked>, leftover: nat) returns (allotted: seq<i64>)
    requires leftover <= |order| && Sorted(order)
    requires forall p :: 0 <= p < |order| ==> order[p].1 < |quotas|
    requires forall p, q :: 0 <= p < q < |order| ==> order[p].1 != order[q].1
    requires forall i :: 0 <= i < |quotas| ==> quotas[i] < TWO_63 - 1
    ensures |allotted| == |quotas| && Sum(allotted) == Sum(quotas) + leftover
    ensures forall i :: 0 <= i < |quotas| ==>
      allotted[i] == quotas[i] + if Among(order, leftover, i) then 1 else 0
  {
    allotted := quotas;
    for k := 0 to leftover
      invariant |allotted| == |quotas| && Sum(allotted) == Sum(quotas) + k
      invariant forall i :: 0 <= i < |quotas| ==> allotted[i] == quotas[i] + if Among(order, k, i) then 1 else 0
    {
      var idx := order[k].1;
      assert !Among(order, k, idx);
      assert Among(order, k + 1, idx);
      forall i | 0 <= i < |quotas| && i != idx ensures Among(order, k + 1, i) <==> Among(order, k, i) {}
      SumUpdate(allotted, idx, allotted[idx] + 1);
      allotted := allotted[idx := allotted[idx] + 1];
    }
  }

  /** `order` lists every index once, each with its own remainder. */
  ghost predicate Shuffles(remainders: seq<int>, order: seq<Ranked>) {
    && |order| == |remainders|
    && (forall p :: 0 <= p < |order| ==> order[p].1 < |remainders| && order[p].0 == remainders[order[p].1])
    && (forall p, q :: 0 <= p < q < |order| ==> order[p].1 != order[q].1)
    && (forall i :: 0 <= i < |remainders| ==> Among(order, |order|, i))
  }

  ghost predicate Numbered(remainders: seq<int>, pairs: seq<Ranked>) {
    |pairs| == |remainders| && forall i :: 0 <= i < |pairs| ==> pairs[i] == (remainders[i], i)
  }

  lemma PairsShuffle(remainders: seq<int>, pairs: seq<Ranked>)
    requires Numbered(remainders, pairs)
    ensures Distinct(pairs) && Shuffles(remainders, pairs)
  {
    forall i | 0 <= i < |pairs| ensures Among(pairs, |pairs|, i) {
      assert pairs[i].1 == i;
    }
  }

  lemma OrderPlaces(remainders: seq<int>, pairs: seq<Ranked>, order: seq<Ranked>, p: nat)
    requires Numbered(remainders, pairs) && p < |order| && order[p] in pairs
    ensures order[p].1 < |remainders| && order[p].0 == remainders[order[p].1]
  {}

  lemma OrderReaches(remainders: seq<int>, pairs: seq<Ranked>, order: seq<Ranked>, i: nat)
    requires Numbered(remainders, pairs) && i < |pairs| && pairs[i] in order
    ensures Among(order, |order|, i)
  {
    assert pairs[i].1 == i;
  }

  lemma SortShuffles(remainders: seq<int>, pairs: seq<Ranked>)
    requires Numbered(remainders, pairs)
    ensures Distinct(pairs) && Shuffles(remainders, pairs) && Shuffles(remainders, SortByRemainder(pairs))
  {
    PairsShuffle(remainders, pairs);
    var order := SortByRemainder(pairs);
    hide Numbered, Among, SortByRemainder;
    forall p | 0 <= p < |order| ensures order[p].1 < |remainders| && order[p].0 == remainders[order[p].1] {
      OrderPlaces(remainders, pairs, order, p);
    }
    forall i | 0 <= i < |remainders| ensures Among(order, |order|, i) {
      OrderReaches(remainders, pairs, order, i);
    }
    forall p, q | 0 <= p < q < |order| ensures order[p].1 != order[q].1 {
      assert Precedes(order[p], order[q]);
    }
  }

  /** Hands the leftover to the largest remainders. */
  lemma OrderApportions(amount: MinorUnits, weights: seq<int>, order: seq<Ranked>, leftover: nat, parts: seq<int>)
    requires Weighted(weights) && leftover == amount - Sum(Quotas(amount, weights)) && leftover <= |order| == |weights|
    requires leftover > 0 ==> Sorted(order)
    requires Shuffles(Remainders(amount, weights), order)
    requires |parts| == |weights| && Sum(parts) == amount
    requires forall i :: 0 <= i < |weights| ==>
      parts[i] == Quotas(amount, weights)[i] + if Among(order, leftover, i) then 1 else 0
    ensures Apportioned(amount, weights, parts)
  {
    hide Share, Rest;
    var quotas, remainders := Quotas(amount, weights), Remainders(amount, weights);
    forall i, j | 0 <= i < |parts| && 0 <= j < |parts| && parts[i] == quotas[i] + 1 && parts[j] == quotas[j]
      ensures Before(remainders, i, j)
    {
      var p :| 0 <= p < leftover && order[p].1 == i;
      assert Among(order, |order|, j);
      var q :| 0 <= q < |order| && order[q].1 == j;
      assert q >= leftover;
      assert Precedes(order[p], order[q]);
    }
  }

  method SplitIntoRatios(m: Money, ratios: seq<u32>) returns (r: Result<seq<Money>, MoneyError>)
    requires |ratios| <= TWO_32
    ensures Sum(ratios) == 0 ==> r == Err(NotPositive(0))
    ensures Sum(ratios) != 0 ==>
      exists parts :: Apportioned(m.minorUnits, ratios, parts) && r == Paid(parts, m.currency)
  {
    hide Share, Rest;
    if |ratios| == 0 { return Err(NotPositive(0)); }
    var total: u64 := TotalWeight(ratios);
    if total == 0 { return Err(NotPositive(0)); }
    var amount := m.minorUnits;
    SumOfNaturals(ratios);
    LeftoverFewerThanRemainders(amount, ratios);
    forall i | 0 <= i < |ratios| ensures Quotas(amount, ratios)[i] <= amount { QuotaAt(amount, ratios, i); }
    var allotted, remainders, sumAllocated := RoundDown(amount, ratios, total);
    ghost var quotas := allotted;
    var leftover := amount - sumAllocated;
    SortShuffles(Remainders(amount, ratios), remainders);
    if leftover > 0 {
      remainders := SortByRemainder(remainders);
      allotted := GiveLeftover(allotted, remainders, leftover);
    }
    OrderApportions(amount, ratios, remainders, leftover, allotted);
    PartsWithin(amount, ratios, allotted);
    r := PayOut(allotted, m.currency);
  }

  method TotalWeight(ratios: seq<u32>) returns (total: u64)
    requires |ratios| <= TWO_32
    ensures total == Sum(ratios)
  {
    total := 0;
    for i := 0 to |ratios|
      invariant total == Sum(ratios[..i]) && total <= i * (TWO_32 - 1)
    {
      assert ratios[..i + 1][..i] == ratios[..i];
      total := total + ratios[i];
    }
    assert ratios[..|ratios|] == ratios;
  }

  lemma PartsWithin(amount: nat, weights: seq<int>, parts: seq<int>)
    requires Weighted(weights) && Apportioned(amount, weights, parts)
    ensures forall i :: 0 <= i < |parts| ==> 0 <= parts[i] <= amount
  {
    hide Share, Rest;
    forall i | 0 <= i < |parts| ensures 0 <= parts[i] { QuotaAt(amount, weights, i); }
    SumOfNaturals(parts);
  }
}
