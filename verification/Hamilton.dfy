// Hamilton (largest remainder) apportionment of 2^64 units of mass, and the
// sampler that selects from it. Weights come from the exponential table.

module Hamilton {
  import opened Wrappers
  import opened Selection

  function Total(weights: seq<nat>): nat {
    Cumulative(weights, |weights|)
  }

  function Quota(weights: seq<nat>, i: nat): nat
    requires i < |weights| && Total(weights) > 0
  {
    weights[i] * MASS_TOTAL / Total(weights)
  }

  function Remainder(weights: seq<nat>, i: nat): nat
    requires i < |weights| && Total(weights) > 0
  {
    weights[i] * MASS_TOTAL % Total(weights)
  }

  // i comes before j in line: larger remainder first, then lower index.
  predicate Precedes(remainders: seq<nat>, i: nat, j: nat)
    requires i < |remainders| && j < |remainders|
  {
    remainders[i] > remainders[j] || (remainders[i] == remainders[j] && i < j)
  }

  function Remainders(weights: seq<nat>): (r: seq<nat>)
    requires Total(weights) > 0
    ensures |r| == |weights| && forall i: nat | i < |r| :: r[i] == Remainder(weights, i)
  {
    seq(|weights|, i requires 0 <= i < |weights| => Remainder(weights, i))
  }

  // i has the larger remainder of weight times 2^64 by the total weight, or the
  // same and the lower index.
  ghost predicate InFront(weights: seq<nat>, i: nat, j: nat)
    requires i < |weights| && j < |weights| && Cumulative(weights, |weights|) > 0
  {
    var total := Cumulative(weights, |weights|);
    var left, right := weights[i] * MASS_TOTAL % total, weights[j] * MASS_TOTAL % total;
    left > right || (left == right && i < j)
  }

  // The published contract: floors, plus one unit for the first in line.
  ghost predicate IsHamilton(weights: seq<nat>, masses: seq<nat>)
    requires Cumulative(weights, |weights|) > 0
  {
    var total := Cumulative(weights, |weights|);
    && |masses| == |weights|
    && IsApportionment(masses)
    && (forall i: nat | i < |masses| ::
          masses[i] == weights[i] * MASS_TOTAL / total || masses[i] == weights[i] * MASS_TOTAL / total + 1)
    && forall i: nat, j: nat | i < |masses| && j < |masses|
         && masses[i] > weights[i] * MASS_TOTAL / total && masses[j] == weights[j] * MASS_TOTAL / total ::
         InFront(weights, i, j)
  }

  // ------------------------------------------------- the contract is determined

  lemma {:induction false} PointwiseLess(a: seq<nat>, b: seq<nat>, n: nat)
    requires n <= |a| && n <= |b| && forall i | 0 <= i < n :: a[i] <= b[i]
    ensures Cumulative(a, n) <= Cumulative(b, n)
    ensures Cumulative(a, n) == Cumulative(b, n) ==> forall i | 0 <= i < n :: a[i] == b[i]
  {
    if n > 0 {
      PointwiseLess(a, b, n - 1);
    }
  }

  lemma {:induction false} NoExchange(weights: seq<nat>, a: seq<nat>, b: seq<nat>, i: nat, j: nat)
    requires Total(weights) > 0 && IsHamilton(weights, a) && IsHamilton(weights, b)
    requires i < |weights| && j < |weights| && a[i] > b[i]
    ensures b[j] <= a[j]
  {
    assert a[i] > Quota(weights, i) && a[j] == Quota(weights, j) ==> Precedes(Remainders(weights), i, j);
    assert b[j] > Quota(weights, j) && b[i] == Quota(weights, i) ==> Precedes(Remainders(weights), j, i);
  }

  // The contract leaves no freedom: whatever sorts the line, the masses agree.
  lemma {:induction false} HamiltonIsUnique(weights: seq<nat>, a: seq<nat>, b: seq<nat>)
    requires Total(weights) > 0 && IsHamilton(weights, a) && IsHamilton(weights, b)
    ensures a == b
  {
    if exists i: nat :: i < |a| && a[i] > b[i] {
      var i: nat :| i < |a| && a[i] > b[i];
      forall j: nat | j < |a| ensures b[j] <= a[j] {
        NoExchange(weights, a, b, i, j);
      }
      PointwiseLess(b, a, |a|);
    } else {
      PointwiseLess(a, b, |a|);
    }
  }

  lemma {:induction false} Scale(a: nat, b: nat, t: nat)
    ensures a <= b ==> a * t <= b * t
  {
  }

  lemma {:induction false} DivisionMonotone(x: nat, y: nat, t: nat)
    requires t > 0 && x > y
    ensures x / t >= y / t
    ensures x / t == y / t ==> x % t > y % t
  {
    assert x == x / t * t + x % t && y == y / t * t + y % t;
    Scale(x / t + 1, y / t, t);
  }

  // A strictly heavier action never receives less mass.
  lemma {:induction false} HeavierGetsNoLess(weights: seq<nat>, masses: seq<nat>, i: nat, j: nat)
    requires Total(weights) > 0 && IsHamilton(weights, masses)
    requires i < |weights| && j < |weights| && weights[i] > weights[j]
    ensures masses[i] >= masses[j]
  {
    DivisionMonotone(weights[i] * MASS_TOTAL, weights[j] * MASS_TOTAL, Total(weights));
    assert masses[j] > Quota(weights, j) && masses[i] == Quota(weights, i) ==> Precedes(Remainders(weights), j, i);
  }

  // -------------------------------------------------------- the residual units

  function Quotas(weights: seq<nat>): (q: seq<nat>)
    requires Total(weights) > 0
    ensures |q| == |weights|
  {
    seq(|weights|, i requires 0 <= i < |weights| => Quota(weights, i))
  }

  function RemainderSum(weights: seq<nat>, n: nat): nat
    requires n <= |weights| && Total(weights) > 0
  {
    if n == 0 then 0 else RemainderSum(weights, n - 1) + Remainder(weights, n - 1)
  }

  lemma {:induction false} RemainderSumBound(weights: seq<nat>, n: nat)
    requires n <= |weights| && Total(weights) > 0
    ensures RemainderSum(weights, n) <= n * (Total(weights) - 1)
  {
    if n > 0 {
      RemainderSumBound(weights, n - 1);
    }
  }

  lemma {:induction false} DivideBack(x: nat, t: nat)
    requires t > 0
    ensures x / t * t + x % t == x
  {
  }

  lemma {:induction false} Distribute(a: nat, b: nat, t: nat)
    ensures (a + b) * t == a * t + b * t
  {
  }

  lemma {:induction false} QuotaSum(weights: seq<nat>, n: nat)
    requires n <= |weights| && Total(weights) > 0
    ensures Cumulative(Quotas(weights), n) * Total(weights) + RemainderSum(weights, n)
         == Cumulative(weights, n) * MASS_TOTAL
  {
    if n > 0 {
      QuotaSum(weights, n - 1);
      DivideBack(weights[n - 1] * MASS_TOTAL, Total(weights));
      Distribute(Cumulative(Quotas(weights), n - 1), Quota(weights, n - 1), Total(weights));
      assert Quotas(weights)[n - 1] == Quota(weights, n - 1);
    }
  }

  lemma {:induction false} ResidualArithmetic(apportioned: nat, total: nat, remainders: nat, width: nat)
    requires total > 0 && width > 0
    requires apportioned * total + remainders == total * MASS_TOTAL
    requires remainders <= width * (total - 1)
    ensures apportioned <= MASS_TOTAL < apportioned + width
  {
    Scale(MASS_TOTAL + 1, apportioned, total);
    Scale(apportioned + width, MASS_TOTAL, total);
    Distribute(apportioned, width, total);
    assert width * total == width * (total - 1) + width;
  }

  // Fewer residual units than actions, so the range check never fails.
  lemma {:induction false} ResidualIsSmall(weights: seq<nat>)
    requires Total(weights) > 0
    ensures var apportioned := Cumulative(Quotas(weights), |weights|);
            apportioned <= MASS_TOTAL < apportioned + |weights|
  {
    QuotaSum(weights, |weights|);
    RemainderSumBound(weights, |weights|);
    ResidualArithmetic(
      Cumulative(Quotas(weights), |weights|), Total(weights), RemainderSum(weights, |weights|), |weights|);
  }

  // --------------------------------------------------- the in-place insertion sort

  ghost predicate InLine(remainders: seq<nat>, order: seq<nat>)
  {
    && (forall p | 0 <= p < |order| :: order[p] < |remainders|)
    && forall p, q | 0 <= p < q < |order| :: Precedes(remainders, order[p], order[q])
  }

  ghost predicate Covers(order: seq<nat>, n: nat) {
    && (forall p | 0 <= p < |order| :: order[p] < n)
    && forall i: nat | i < n :: i in order
  }

  // The prefix s of a line with x moved in at k.
  function Inserted(s: seq<nat>, k: nat, x: nat): seq<nat>
    requires k <= |s|
  {
    s[..k] + [x] + s[k..]
  }

  lemma {:induction false} InsertedCovers(s: seq<nat>, k: nat)
    requires Covers(s, |s|) && k <= |s|
    ensures Covers(Inserted(s, k, |s|), |s| + 1)
  {
    var t := Inserted(s, k, |s|);
    forall i: nat | i < |s| + 1 ensures i in t {
      if i == |s| {
        assert t[k] == i;
      } else {
        assert i in s;
        var p :| 0 <= p < |s| && s[p] == i;
        assert t[if p < k then p else p + 1] == i;
      }
    }
  }

  lemma {:induction false} InsertedInLine(remainders: seq<nat>, s: seq<nat>, k: nat, x: nat)
    requires InLine(remainders, s) && k <= |s| && x < |remainders| && x !in s
    requires forall p | k <= p < |s| :: Precedes(remainders, x, s[p])
    requires k > 0 ==> !Precedes(remainders, x, s[k - 1])
    ensures InLine(remainders, Inserted(s, k, x))
  {
    var t := Inserted(s, k, x);
    forall p | 0 <= p < k ensures Precedes(remainders, s[p], x) {
      assert s[k - 1] in s;
      assert p < k - 1 ==> Precedes(remainders, s[p], s[k - 1]);
    }
    forall p, q | 0 <= p < q < |t|
      ensures t[p] < |remainders| && t[q] < |remainders| && Precedes(remainders, t[p], t[q])
    {
      var p', q' := if p < k then p else p - 1, if q < k then q else q - 1;
      assert p != k ==> t[p] == s[p'];
      assert q != k ==> t[q] == s[q'];
    }
    forall p | 0 <= p < |t| ensures t[p] < |remainders| {
      assert p != k ==> t[p] == s[if p < k then p else p - 1];
    }
  }

  // Insert the element at `position` into the sorted prefix before it.
  method InsertAt(remainders: seq<nat>, order: array<nat>, position: nat) returns (ghost k: nat)
    requires 0 < position < order.Length && order[position] < |remainders|
    requires InLine(remainders, order[..position]) && order[position] !in order[..position]
    modifies order
    ensures k <= position
    ensures order[..position + 1] == Inserted(old(order[..position]), k, old(order[position]))
    ensures order[position + 1..] == old(order[position + 1..])
    ensures InLine(remainders, order[..position + 1])
  {
    var candidate := order[position];
    var insertion := position;
    ghost var start := order[..position];
    ghost var rest := order[position + 1..];
    while insertion > 0
      invariant 0 <= insertion <= position
      invariant forall p | 0 <= p < insertion :: order[p] == start[p]
      invariant forall p | insertion < p <= position :: order[p] == start[p - 1]
      invariant order[position + 1..] == rest
      invariant forall p | insertion <= p < position :: Precedes(remainders, candidate, start[p])
    {
      var previous := order[insertion - 1];
      if !Precedes(remainders, candidate, previous) {
        break;
      }
      order[insertion] := previous;
      insertion := insertion - 1;
    }
    order[insertion] := candidate;
    k := insertion;
    InsertedInLine(remainders, start, k, candidate);
    assert order[..position + 1] == Inserted(start, k, candidate);
  }

  method SortByRemainder(remainders: seq<nat>, order: array<nat>)
    requires 0 < |remainders| == order.Length && forall p | 0 <= p < order.Length :: order[p] == p
    modifies order
    ensures Covers(order[..], |remainders|)
    ensures InLine(remainders, order[..])
  {
    assert order[..1] == [0];
    for position := 1 to order.Length
      invariant Covers(order[..position], position)
      invariant forall p | position <= p < order.Length :: order[p] == p
      invariant InLine(remainders, order[..position])
    {
      ghost var prefix, rest := order[..position], order[position + 1..];
      ghost var k := InsertAt(remainders, order, position);
      InsertedCovers(prefix, k);
      forall p | position + 1 <= p < order.Length ensures order[p] == p {
        assert order[p] == order[position + 1..][p - position - 1] == rest[p - position - 1];
      }
    }
    assert order[..order.Length] == order[..];
  }

  // ------------------------------------------------------------ apportionment

  // The masses after the first `residual` in line received one unit each.
  ghost predicate Awarded(weights: seq<nat>, order: seq<nat>, masses: seq<nat>, residual: nat)
    requires Total(weights) > 0
  {
    && |masses| == |weights| && residual <= |order|
    && forall i: nat | i < |masses| ::
         masses[i] == Quota(weights, i) + if i in order[..residual] then 1 else 0
  }

  lemma {:induction false} UpdateCumulative(masses: seq<nat>, i: nat, x: nat, n: nat)
    requires i < |masses| && n <= |masses|
    ensures Cumulative(masses[i := x], n) == Cumulative(masses, n) + if i < n then x - masses[i] else 0
  {
    if n > 0 {
      UpdateCumulative(masses, i, x, n - 1);
    }
  }

  lemma {:induction false} FrontPrecedesBack(remainders: seq<nat>, order: seq<nat>, residual: nat, i: nat, j: nat)
    requires InLine(remainders, order) && Covers(order, |remainders|) && residual <= |order|
    requires i in order[..residual] && j < |remainders| && j !in order[..residual]
    ensures i < |remainders| && Precedes(remainders, i, j)
  {
    assert order == order[..residual] + order[residual..];
    assert j in order;
    var p :| 0 <= p < residual && order[..residual][p] == i;
    var q :| 0 <= q < |order[residual..]| && order[residual..][q] == j;
    assert Precedes(remainders, order[p], order[residual + q]);
  }

  lemma {:induction false} AwardedIsHamilton(weights: seq<nat>, order: seq<nat>, masses: seq<nat>, residual: nat)
    requires Total(weights) > 0 && InLine(Remainders(weights), order) && Covers(order, |weights|)
    requires Awarded(weights, order, masses, residual) && IsApportionment(masses)
    ensures IsHamilton(weights, masses)
  {
    forall i: nat, j: nat | i < |masses| && j < |masses|
      && masses[i] > Quota(weights, i) && masses[j] == Quota(weights, j)
      ensures Precedes(Remainders(weights), i, j)
    {
      FrontPrecedesBack(Remainders(weights), order, residual, i, j);
    }
  }

  // Every fail-closed check passes, and the result is the one the contract names.
  method Apportion(weights: seq<nat>) returns (r: Result<seq<nat>>)
    requires Total(weights) > 0
    ensures r.Ok? && IsHamilton(weights, r.value)
  {
    var width, total := |weights|, Total(weights);
    var masses, remainders, order := new nat[width], new nat[width], new nat[width];
    var apportioned := 0;
    for index := 0 to width
      invariant masses[..index] == Quotas(weights)[..index]
      invariant remainders[..index] == Remainders(weights)[..index]
      invariant forall p | 0 <= p < index :: order[p] == p
      invariant apportioned == Cumulative(Quotas(weights), index)
    {
      var quotient := weights[index] * MASS_TOTAL / total;
      masses[index] := quotient;
      remainders[index] := weights[index] * MASS_TOTAL % total;
      apportioned := apportioned + quotient;
      order[index] := index;
      assert masses[..index + 1] == masses[..index] + [quotient];
      assert Quotas(weights)[..index + 1] == Quotas(weights)[..index] + [quotient];
      assert remainders[..index + 1] == remainders[..index] + [Remainder(weights, index)];
      assert Remainders(weights)[..index + 1] == Remainders(weights)[..index] + [Remainder(weights, index)];
    }
    assert remainders[..] == Remainders(weights) by {
      assert remainders[..] == remainders[..width] && Remainders(weights)[..width] == Remainders(weights);
    }
    assert masses[..] == Quotas(weights) by {
      assert masses[..] == masses[..width] && Quotas(weights)[..width] == Quotas(weights);
    }
    SortByRemainder(remainders[..], order);
    ResidualIsSmall(weights);
    if MASS_TOTAL < apportioned {
      return Err("apportioned-total-overflow");
    }
    var residual := MASS_TOTAL - apportioned;
    if residual >= width {
      return Err("hamilton-residual-out-of-range");
    }
    AwardResidual(weights, order, masses, residual);
    if Total(masses[..]) != MASS_TOTAL {
      return Err("hamilton-mass-total");
    }
    AwardedIsHamilton(weights, order[..], masses[..], residual);
    return Ok(masses[..]);
  }

  method AwardResidual(weights: seq<nat>, order: array<nat>, masses: array<nat>, residual: nat)
    requires Total(weights) > 0 && InLine(Remainders(weights), order[..]) && residual <= order.Length
    requires masses != order && masses[..] == Quotas(weights)
    modifies masses
    ensures Awarded(weights, order[..], masses[..], residual)
    ensures Total(masses[..]) == Total(Quotas(weights)) + residual
  {
    for rank := 0 to residual
      invariant masses.Length == |weights|
      invariant Awarded(weights, order[..], masses[..], rank)
      invariant Total(masses[..]) == Total(Quotas(weights)) + rank
    {
      var i := order[rank];
      assert order[..][rank] == i;
      assert i !in order[..rank] by {
        forall p | 0 <= p < rank ensures order[p] != i {
          assert Precedes(Remainders(weights), order[..][p], order[..][rank]);
        }
      }
      assert order[..rank + 1] == order[..rank] + [i];
      assert order[..][..rank] == order[..rank] && order[..][..rank + 1] == order[..rank + 1];
      UpdateCumulative(masses[..], i, masses[i] + 1, masses.Length);
      ghost var before := masses[..];
      masses[i] := masses[i] + 1;
      assert masses[..] == before[i := before[i] + 1];
    }
  }

  // Sampling never fails, and picks the action that the apportionment gives
  // the draw to, so never one without mass.
  method Sample(weights: seq<nat>, draw: nat) returns (index: nat)
    requires Total(weights) > 0 && draw < MASS_TOTAL
    ensures exists masses :: IsHamilton(weights, masses)
    ensures forall masses | IsHamilton(weights, masses) :: Picks(masses, draw, index) && masses[index] > 0
  {
    var r := Apportion(weights);
    var picked := SelectMass(r.value, draw);
    index := picked.value;
    forall masses | IsHamilton(weights, masses) ensures masses == r.value {
      HamiltonIsUnique(weights, masses, r.value);
    }
  }

  // An action's share of the 2^64 draws is within one draw of weight / total.
  lemma {:induction false} ShareOfDraws(weights: seq<nat>, masses: seq<nat>, i: nat)
    requires Total(weights) > 0 && IsHamilton(weights, masses) && i < |weights|
    ensures var share := |DrawsPicking(masses, i)| * Total(weights);
            weights[i] * MASS_TOTAL < share + Total(weights) && share <= weights[i] * MASS_TOTAL + Total(weights)
  {
    DrawsPerIndex(masses, i);
    DivideBack(weights[i] * MASS_TOTAL, Total(weights));
    Scale(masses[i], Quota(weights, i) + 1, Total(weights));
    Scale(Quota(weights, i), masses[i], Total(weights));
    Distribute(Quota(weights, i), 1, Total(weights));
  }
}
