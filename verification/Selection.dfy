// Inverse-CDF selection over integer masses that sum to 2^64.

module Selection {
  import opened Wrappers
  import opened Basics

  const MASS_TOTAL: nat := 0x1_0000_0000_0000_0000

  // The sum of the first n masses.
  function Cumulative(masses: seq<nat>, n: nat): nat
    requires n <= |masses|
  {
    if n == 0 then 0 else Cumulative(masses, n - 1) + masses[n - 1]
  }

  predicate IsApportionment(masses: seq<nat>) {
    Cumulative(masses, |masses|) == MASS_TOTAL
  }

  // The draw falls in the half-open interval that belongs to index i.
  predicate Picks(masses: seq<nat>, draw: nat, i: nat) {
    i < |masses| && Cumulative(masses, i) <= draw < Cumulative(masses, i + 1)
  }

  lemma {:induction false} CumulativeMonotone(masses: seq<nat>, i: nat, j: nat)
    requires i <= j <= |masses|
    ensures Cumulative(masses, i) <= Cumulative(masses, j)
  {
    if i < j {
      CumulativeMonotone(masses, i, j - 1);
    }
  }

  lemma {:induction false} PicksIsUnique(masses: seq<nat>, draw: nat, i: nat, j: nat)
    requires Picks(masses, draw, i) && Picks(masses, draw, j)
    ensures i == j
  {
    if i < j {
      CumulativeMonotone(masses, i + 1, j);
    } else if j < i {
      CumulativeMonotone(masses, j + 1, i);
    }
  }

  method SelectMass(masses: seq<nat>, draw: nat) returns (r: Result<nat>)
    ensures r.Ok? ==> Picks(masses, draw, r.value)
    ensures r.Err? <==> draw >= Cumulative(masses, |masses|)
  {
    var cumulative := 0;
    for index := 0 to |masses|
      invariant cumulative == Cumulative(masses, index) <= draw
    {
      cumulative := cumulative + masses[index];
      if draw < cumulative {
        CumulativeMonotone(masses, index + 1, |masses|);
        return Ok(index);
      }
    }
    return Err("oracle inverse CDF was not total");
  }

  // ------------------------------------------------------- counting the draws

  function DrawsPicking(masses: seq<nat>, i: nat): set<int> {
    set d | 0 <= d < MASS_TOTAL && Picks(masses, d, i)
  }

  // Exactly masses[i] of the 2^64 draws select index i, and every draw
  // selects one index.
  lemma {:induction false} DrawsPerIndex(masses: seq<nat>, i: nat)
    requires IsApportionment(masses) && i < |masses|
    ensures |DrawsPicking(masses, i)| == masses[i]
  {
    CumulativeMonotone(masses, i + 1, |masses|);
    assert DrawsPicking(masses, i) == Range(Cumulative(masses, i), Cumulative(masses, i + 1));
  }

  lemma {:induction false} EveryDrawPicks(masses: seq<nat>, draw: nat, n: nat) returns (i: nat)
    requires n <= |masses| && draw < Cumulative(masses, n)
    ensures i < n && Picks(masses, draw, i)
  {
    if draw >= Cumulative(masses, n - 1) {
      i := n - 1;
    } else {
      i := EveryDrawPicks(masses, draw, n - 1);
    }
  }

  // ------------------------------------------- two mass vectors of one width

  // Both select the same index below n.
  predicate AgreeBelow(a: seq<nat>, b: seq<nat>, n: nat, draw: nat) {
    exists i | 0 <= i < n :: Picks(a, draw, i) && Picks(b, draw, i)
  }

  predicate Agree(a: seq<nat>, b: seq<nat>, draw: nat) {
    AgreeBelow(a, b, |a|, draw)
  }

  function Disagreements(a: seq<nat>, b: seq<nat>): set<int> {
    set d | 0 <= d < MASS_TOTAL && !Agree(a, b, d)
  }

  function AbsDiff(x: nat, y: nat): nat {
    if x < y then y - x else x - y
  }

  function Max(x: nat, y: nat): nat {
    if x < y then y else x
  }

  // The sum of |a_i - b_i| over the first n indices.
  function MassDistance(a: seq<nat>, b: seq<nat>, n: nat): nat
    requires n <= |a| && n <= |b|
  {
    if n == 0 then 0 else MassDistance(a, b, n - 1) + AbsDiff(a[n - 1], b[n - 1])
  }

  // The sum of the distances between the first n cumulative boundaries.
  function BoundaryDistance(a: seq<nat>, b: seq<nat>, n: nat): nat
    requires n <= |a| && n <= |b|
  {
    if n == 0 then 0
    else BoundaryDistance(a, b, n - 1) + AbsDiff(Cumulative(a, n), Cumulative(b, n))
  }

  function Overlap(a: seq<nat>, b: seq<nat>, n: nat): nat
    requires n <= |a| && n <= |b|
  {
    if n == 0 then 0 else Overlap(a, b, n - 1) + Min(a[n - 1], b[n - 1])
  }

  lemma {:induction false} OverlapAndDistance(a: seq<nat>, b: seq<nat>, n: nat)
    requires n <= |a| && n <= |b|
    ensures 2 * Overlap(a, b, n) + MassDistance(a, b, n) == Cumulative(a, n) + Cumulative(b, n)
  {
    if n > 0 {
      OverlapAndDistance(a, b, n - 1);
    }
  }

  function AgreementsBelow(a: seq<nat>, b: seq<nat>, n: nat): set<int> {
    set d | 0 <= d < MASS_TOTAL && AgreeBelow(a, b, n, d)
  }

  lemma {:induction false} UnionSize(s: set<int>, t: set<int>)
    ensures |s + t| <= |s| + |t|
  {
  }

  function SharedDraws(a: seq<nat>, b: seq<nat>, i: nat): (r: set<int>)
    requires i < |a| && i < |b|
    ensures |r| <= Min(a[i], b[i])
    ensures forall d :: 0 <= d && Picks(a, d, i) && Picks(b, d, i) ==> d in r
  {
    Range(Max(Cumulative(a, i), Cumulative(b, i)), Min(Cumulative(a, i + 1), Cumulative(b, i + 1)))
  }

  lemma {:induction false} AgreementsAreBounded(a: seq<nat>, b: seq<nat>, n: nat)
    requires n <= |a| && n <= |b|
    ensures |AgreementsBelow(a, b, n)| <= Overlap(a, b, n)
  {
    if n == 0 {
      assert AgreementsBelow(a, b, n) == {};
    } else {
      AgreementsAreBounded(a, b, n - 1);
      var shared := SharedDraws(a, b, n - 1);
      forall d | d in AgreementsBelow(a, b, n) ensures d in AgreementsBelow(a, b, n - 1) + shared {
        var i :| 0 <= i < n && Picks(a, d, i) && Picks(b, d, i);
      }
      SubsetSize(AgreementsBelow(a, b, n), AgreementsBelow(a, b, n - 1) + shared);
      UnionSize(AgreementsBelow(a, b, n - 1), shared);
    }
  }

  // At least half the total mass difference must disagree.
  lemma {:induction false} DisagreementLowerBound(a: seq<nat>, b: seq<nat>)
    requires |a| == |b| && IsApportionment(a) && IsApportionment(b)
    ensures 2 * |Disagreements(a, b)| >= MassDistance(a, b, |a|)
  {
    var agreements := AgreementsBelow(a, b, |a|);
    var draws := Range(0, MASS_TOTAL);
    assert Disagreements(a, b) == draws - agreements;
    assert agreements <= draws;
    AgreementsAreBounded(a, b, |a|);
    OverlapAndDistance(a, b, |a|);
  }

  // The draw lies between the two positions of boundary m.
  predicate BetweenAt(a: seq<nat>, b: seq<nat>, m: nat, d: int)
    requires m <= |a| && m <= |b|
  {
    || Cumulative(a, m) <= d < Cumulative(b, m)
    || Cumulative(b, m) <= d < Cumulative(a, m)
  }

  lemma {:induction false} Gap(x: nat, y: nat) returns (r: set<int>)
    ensures |r| == AbsDiff(x, y)
    ensures forall d :: d in r <==> (x <= d < y || y <= d < x)
  {
    r := if x < y then Range(x, y) else Range(y, x);
  }

  // The draws between the two positions of any of the first n boundaries.
  lemma {:induction false} Gaps(a: seq<nat>, b: seq<nat>, n: nat) returns (r: set<int>)
    requires n <= |a| && n <= |b|
    ensures |r| <= BoundaryDistance(a, b, n)
    ensures forall m, d | 0 < m <= n && BetweenAt(a, b, m, d) :: d in r
  {
    if n == 0 {
      r := {};
    } else {
      var below := Gaps(a, b, n - 1);
      var gap := Gap(Cumulative(a, n), Cumulative(b, n));
      r := below + gap;
      UnionSize(below, gap);
    }
  }

  // Every disagreement lies between the two positions of some boundary.
  lemma {:induction false} DisagreementUpperBound(a: seq<nat>, b: seq<nat>)
    requires |a| == |b| && IsApportionment(a) && IsApportionment(b)
    ensures |Disagreements(a, b)| <= BoundaryDistance(a, b, |a|)
  {
    var gaps := Gaps(a, b, |a|);
    forall d | d in Disagreements(a, b) ensures d in gaps {
      var i := EveryDrawPicks(a, d, |a|);
      var j := EveryDrawPicks(b, d, |b|);
      assert !(Picks(a, d, i) && Picks(b, d, i));
      var m := if i < j then i + 1 else j + 1;
      CumulativeMonotone(b, m, if i < j then j else m);
      CumulativeMonotone(a, m, if i < j then m else i);
      assert BetweenAt(a, b, m, d);
    }
    SubsetSize(Disagreements(a, b), gaps);
  }

  // -------------------------------------------- the comparison over given draws

  // The positions of the draws on which both select the same index.
  ghost function Agreeing(a: seq<nat>, b: seq<nat>, draws: seq<nat>): set<int> {
    set k | 0 <= k < |draws| && Agree(a, b, draws[k])
  }

  lemma {:induction false} OneMoreDraw(a: seq<nat>, b: seq<nat>, draws: seq<nat>, n: nat)
    requires n < |draws|
    ensures |Agreeing(a, b, draws[..n + 1])| ==
            |Agreeing(a, b, draws[..n])| + if Agree(a, b, draws[n]) then 1 else 0
  {
    assert Agreeing(a, b, draws[..n + 1]) ==
        Agreeing(a, b, draws[..n]) + if Agree(a, b, draws[n]) then {n as int} else {};
  }

  // Selections of both vectors over the given draws; fails never, since both
  // vectors apportion the whole mass.
  method CompareCase(oracle: seq<nat>, candidate: seq<nat>, draws: seq<nat>)
    returns (difference: nat, agreements: nat, selected: seq<nat>)
    requires |oracle| == |candidate| && IsApportionment(oracle) && IsApportionment(candidate)
    requires forall k | 0 <= k < |draws| :: draws[k] < MASS_TOTAL
    ensures difference == MassDistance(oracle, candidate, |oracle|)
    ensures agreements == |Agreeing(oracle, candidate, draws)|
    ensures |selected| == |draws| && forall k | 0 <= k < |draws| :: Picks(oracle, draws[k], selected[k])
  {
    difference := 0;
    for i := 0 to |oracle|
      invariant difference == MassDistance(oracle, candidate, i)
    {
      difference := difference + AbsDiff(candidate[i], oracle[i]);
    }
    agreements, selected := 0, [];
    for k := 0 to |draws|
      invariant agreements == |Agreeing(oracle, candidate, draws[..k])|
      invariant |selected| == k && forall m | 0 <= m < k :: Picks(oracle, draws[m], selected[m])
    {
      var legacy := SelectMass(oracle, draws[k]);
      var fast := SelectMass(candidate, draws[k]);
      selected := selected + [legacy.value];
      OneMoreDraw(oracle, candidate, draws, k);
      forall i | Picks(oracle, draws[k], i) && Picks(candidate, draws[k], i)
        ensures i == legacy.value && i == fast.value
      {
        PicksIsUnique(oracle, draws[k], i, legacy.value);
        PicksIsUnique(candidate, draws[k], i, fast.value);
      }
      if legacy.value == fast.value {
        agreements := agreements + 1;
      }
    }
    assert draws[..|draws|] == draws;
  }
}
