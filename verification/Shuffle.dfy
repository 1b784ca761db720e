// The Fisher-Yates loop that shuffles decks and orders pending triggers. The
// random stream is an arbitrary function from draw number to value.

module Shuffle {
  type Stream = nat -> nat

  function Swap<T>(v: seq<T>, i: nat, j: nat): (r: seq<T>)
    requires i < |v| && j < |v|
    ensures |r| == |v|
  {
    v[i := v[j]][j := v[i]]
  }

  // One choice per position; the choice at i is at most i.
  predicate ValidChoices(js: seq<nat>, n: nat) {
    |js| == n && forall i | 0 <= i < n :: js[i] <= i
  }

  // Exchange the last position with its choice, fix it, and go on below it.
  function FisherYates<T>(v: seq<T>, js: seq<nat>): (r: seq<T>)
    requires ValidChoices(js, |v|)
    ensures |r| == |v|
    decreases |v|
  {
    if |v| <= 1 then v
    else
      var i := |v| - 1;
      FisherYates(Swap(v, i, js[i])[..i], js[..i]) + [v[js[i]]]
  }

  ghost predicate Distinct<T>(v: seq<T>) {
    forall i, j | 0 <= i < j < |v| :: v[i] != v[j]
  }

  // ----------------------------------------------------------- a permutation

  lemma {:induction false} SwapMultiset<T>(v: seq<T>, j: nat)
    requires j < |v|
    ensures var i := |v| - 1; multiset(Swap(v, i, j)[..i]) + multiset{v[j]} == multiset(v)
  {
    var i := |v| - 1;
    var w := Swap(v, i, j);
    assert multiset(w) == multiset(v);
    assert w == w[..i] + [v[j]];
  }

  lemma {:induction false} ShuffleIsPermutation<T>(v: seq<T>, js: seq<nat>)
    requires ValidChoices(js, |v|)
    ensures multiset(FisherYates(v, js)) == multiset(v)
    decreases |v|
  {
    if |v| > 1 {
      var i := |v| - 1;
      SwapMultiset(v, js[i]);
      ShuffleIsPermutation(Swap(v, i, js[i])[..i], js[..i]);
    }
  }

  lemma {:induction false} DistinctCounts<T>(v: seq<T>, x: T)
    requires Distinct(v)
    ensures multiset(v)[x] <= 1
  {
    if v != [] {
      DistinctCounts(v[1..], x);
      assert v == [v[0]] + v[1..];
      assert x == v[0] ==> x !in v[1..];
    }
  }

  lemma {:induction false} RepeatCounts<T>(v: seq<T>, i: nat, j: nat)
    requires i < j < |v| && v[i] == v[j]
    ensures multiset(v)[v[i]] >= 2
  {
    assert v == v[..j] + [v[j]] + v[j + 1..];
    assert v[i] == v[..j][i];
    assert v[i] in multiset(v[..j]);
  }

  lemma {:induction false} PermutationOfDistinct<T>(v: seq<T>, p: seq<T>)
    requires Distinct(v) && multiset(p) == multiset(v)
    ensures |p| == |v| && Distinct(p)
    ensures forall q | 0 <= q < |p| :: p[q] in v
  {
    assert |multiset(p)| == |p| && |multiset(v)| == |v|;
    forall i, j | 0 <= i < j < |p| ensures p[i] != p[j] {
      DistinctCounts(v, p[i]);
      if p[i] == p[j] {
        RepeatCounts(p, i, j);
      }
    }
    forall q | 0 <= q < |p| ensures p[q] in v {
      assert p[q] in multiset(v);
    }
  }

  lemma {:induction false} TakeOut<T>(t: seq<T>, j: nat)
    requires j < |t|
    ensures multiset(t) == multiset{t[j]} + multiset(t[..j] + t[j + 1..])
  {
    assert t == t[..j] + [t[j]] + t[j + 1..];
  }

  lemma {:induction false} StillThere<T>(t: seq<T>, j: nat, x: T)
    requires j < |t| && x in t && x != t[j]
    ensures x in t[..j] + t[j + 1..]
  {
    var k :| 0 <= k < |t| && t[k] == x;
    assert (t[..j] + t[j + 1..])[if k < j then k else k - 1] == x;
  }

  // A list that covers as many distinct elements as it is long is one of
  // their rearrangements.
  lemma {:induction false} CoveredIsPermutation<T>(s: seq<T>, t: seq<T>)
    requires Distinct(s) && |s| == |t| && forall i | 0 <= i < |s| :: s[i] in t
    ensures multiset(s) == multiset(t)
  {
    if s != [] {
      var j :| 0 <= j < |t| && t[j] == s[0];
      var rest := t[..j] + t[j + 1..];
      forall i | 0 <= i < |s[1..]| ensures s[1..][i] in rest {
        StillThere(t, j, s[i + 1]);
      }
      CoveredIsPermutation(s[1..], rest);
      TakeOut(t, j);
      assert s == [s[0]] + s[1..];
    }
  }

  // -------------------------------------------- one choice sequence each

  lemma {:induction false} LastTwo<T>(a: seq<T>, x: T, b: seq<T>, y: T)
    requires a + [x] == b + [y]
    ensures a == b && x == y
  {
    assert |a| == |b|;
    assert (a + [x])[..|a|] == a && (b + [y])[..|b|] == b;
    assert (a + [x])[|a|] == x && (b + [y])[|b|] == y;
  }

  // Different choices give different orders.
  lemma {:induction false} ChoicesAreDetermined<T>(v: seq<T>, js: seq<nat>, ks: seq<nat>)
    requires Distinct(v) && ValidChoices(js, |v|) && ValidChoices(ks, |v|)
    requires FisherYates(v, js) == FisherYates(v, ks)
    ensures js == ks
    decreases |v|
  {
    if |v| > 1 {
      var i := |v| - 1;
      var a, b := Swap(v, i, js[i])[..i], Swap(v, i, ks[i])[..i];
      ShuffleUnfolds(v, js);
      ShuffleUnfolds(v, ks);
      LastTwo(FisherYates(a, js[..i]), v[js[i]], FisherYates(b, ks[..i]), v[ks[i]]);
      assert js[i] == ks[i];
      SwapKeepsDistinct(v, js[i]);
      ChoicesAreDetermined(a, js[..i], ks[..i]);
      assert js == js[..i] + [js[i]] && ks == ks[..i] + [ks[i]];
    }
  }

  lemma {:induction false} ShuffleUnfolds<T>(v: seq<T>, js: seq<nat>)
    requires |v| > 1 && ValidChoices(js, |v|)
    ensures var i := |v| - 1;
            && js[i] < |v| && ValidChoices(js[..i], i)
            && FisherYates(v, js) == FisherYates(Swap(v, i, js[i])[..i], js[..i]) + [v[js[i]]]
  {
  }

  lemma {:induction false} SwapKeepsDistinct<T>(v: seq<T>, j: nat)
    requires Distinct(v) && j < |v|
    ensures Distinct(Swap(v, |v| - 1, j)[..|v| - 1])
  {
  }

  ghost predicate AllIn<T>(p: seq<T>, v: seq<T>) {
    forall q | 0 <= q < |p| :: p[q] in v
  }

  // Taking p's last element out of v leaves p's other elements.
  lemma {:induction false} RemoveLast<T>(v: seq<T>, p: seq<T>, i: nat, j: nat)
    requires |v| == |p| == i + 1 && i > 0 && Distinct(p) && j < |v| && v[j] == p[i] && AllIn(p, v)
    ensures AllIn(p[..i], Swap(v, i, j)[..i])
  {
    var w := Swap(v, i, j)[..i];
    forall q | 0 <= q < i ensures p[..i][q] in w {
      var k :| 0 <= k < |v| && v[k] == p[q];
      assert w[if k == i then j else k] == p[q];
    }
  }

  lemma {:induction false} PrefixIsDistinct<T>(p: seq<T>, n: nat)
    requires Distinct(p) && n <= |p|
    ensures Distinct(p[..n])
  {
  }

  // Every rearrangement is reached.
  lemma {:induction false} ChoicesExist<T>(v: seq<T>, p: seq<T>) returns (js: seq<nat>)
    requires |v| == |p| && Distinct(p) && AllIn(p, v)
    ensures ValidChoices(js, |v|) && FisherYates(v, js) == p
    decreases |v|
  {
    if |v| <= 1 {
      js := seq(|v|, _ => 0);
      assert |v| == 1 ==> p[0] in v;
    } else {
      var i := |v| - 1;
      assert p[i] in v;
      var j :| 0 <= j < |v| && v[j] == p[i];
      RemoveLast(v, p, i, j);
      var w := Swap(v, i, j)[..i];
      PrefixIsDistinct(p, i);
      var ks := ChoicesExist(w, p[..i]);
      js := ks + [j];
      assert js[..i] == ks && p == p[..i] + [p[i]];
    }
  }

  // On a list without duplicates, the choice sequences and the permutations
  // are in one-to-one correspondence.
  lemma {:induction false} EachPermutationOnce<T>(v: seq<T>, p: seq<T>) returns (js: seq<nat>)
    requires Distinct(v) && multiset(p) == multiset(v)
    ensures ValidChoices(js, |v|) && FisherYates(v, js) == p
    ensures forall ks | ValidChoices(ks, |v|) && FisherYates(v, ks) == p :: ks == js
  {
    PermutationOfDistinct(v, p);
    js := ChoicesExist(v, p);
    forall ks | ValidChoices(ks, |v|) && FisherYates(v, ks) == p ensures ks == js {
      ChoicesAreDetermined(v, js, ks);
    }
  }

  // ---------------------------------------------------------------- the loops

  // The choices a stream makes: the k-th draw decides position n - 1 - k.
  function StreamChoices(next: Stream, n: nat): (js: seq<nat>)
    ensures ValidChoices(js, n)
  {
    seq(n, i requires 0 <= i < n => if i == 0 then 0 else next(n - 1 - i) % (i + 1))
  }

  lemma {:induction false} StreamChoiceAt(next: Stream, n: nat, i: nat)
    requires 0 < i < n
    ensures StreamChoices(next, n)[i] == next(n - 1 - i) % (i + 1)
  {
  }

  // Every choice sequence is made by some stream.
  lemma {:induction false} StreamsReachAllChoices(js: seq<nat>)
    requires ValidChoices(js, |js|)
    ensures exists next: Stream :: StreamChoices(next, |js|) == js
  {
    var next: Stream := (k: nat) => if k < |js| then js[|js| - 1 - k] else 0;
    assert StreamChoices(next, |js|) == js;
  }

  // The whole loop, from the last position down.
  function ShuffledBy<T>(v: seq<T>, next: Stream): seq<T> {
    FisherYates(v, StreamChoices(next, |v|))
  }

  method SwapCells<T>(a: array<T>, i: nat, j: nat)
    requires i < a.Length && j < a.Length
    modifies a
    ensures a[..] == old(a[..])[i := old(a[j])][j := old(a[i])]
  {
    a[i], a[j] := a[j], a[i];
  }

  method ShuffleInPlace<T>(a: array<T>, next: Stream)
    modifies a
    ensures a[..] == ShuffledBy(old(a[..]), next)
  {
    if a.Length == 0 {
      return;
    }
    ghost var js := StreamChoices(next, a.Length);
    ghost var goal := ShuffledBy(a[..], next);
    var drawn := 0;
    assert a[..a.Length] == a[..] && js[..a.Length] == js;
    for i := a.Length downto 1
      invariant drawn == a.Length - i
      invariant FisherYates(a[..i], js[..i]) + a[i..] == goal
    {
      StreamChoiceAt(next, a.Length, i);
      var j := next(drawn) % (i + 1);
      drawn := drawn + 1;
      ShuffleStep(a, i, j, js);
    }
    LoopEnds(a[..], js);
    assert a[..][..1] == a[..1] && a[..][1..] == a[1..];
  }

  // One round of the loop, which leaves the rest of the shuffle to do.
  method ShuffleStep<T>(a: array<T>, i: nat, j: nat, ghost js: seq<nat>)
    requires 0 < i < a.Length && ValidChoices(js, a.Length) && j == js[i] <= i
    modifies a
    ensures FisherYates(a[..i], js[..i]) + a[i..] == old(FisherYates(a[..i + 1], js[..i + 1]) + a[i + 1..])
  {
    ghost var before := a[..];
    SwapCells(a, i, j);
    LoopStep(before, js, i, j, a[..]);
    assert before[..i + 1] == old(a[..i + 1]) && before[i + 1..] == old(a[i + 1..]);
    assert a[..][..i] == a[..i] && a[..][i..] == a[i..];
  }

  lemma {:induction false} LoopEnds<T>(v: seq<T>, js: seq<nat>)
    requires v != [] && ValidChoices(js, |v|)
    ensures FisherYates(v[..1], js[..1]) + v[1..] == v
  {
    assert v == v[..1] + v[1..];
  }

  lemma {:induction false} LoopStep<T>(before: seq<T>, js: seq<nat>, i: nat, j: nat, after: seq<T>)
    requires 0 < i < |before| && ValidChoices(js, |before|) && j == js[i]
    requires after == before[i := before[j]][j := before[i]]
    ensures FisherYates(before[..i + 1], js[..i + 1]) + before[i + 1..]
         == FisherYates(after[..i], js[..i]) + after[i..]
  {
    var v := before[..i + 1];
    assert Swap(v, i, j)[..i] == after[..i] && js[..i + 1][..i] == js[..i];
    assert after[i..] == [v[j]] + before[i + 1..];
  }

  // A shuffled copy is a permutation for every stream.
  method Shuffled<T>(ids: seq<T>, next: Stream) returns (v: seq<T>)
    ensures v == ShuffledBy(ids, next)
    ensures multiset(v) == multiset(ids)
  {
    var a := new T[|ids|](i requires 0 <= i < |ids| => ids[i]);
    assert a[..] == ids;
    ShuffleInPlace(a, next);
    v := a[..];
    ShuffleIsPermutation(ids, StreamChoices(next, |ids|));
  }

  // The order chosen for n pending triggers names each of them exactly once,
  // and every such order is chosen by some stream.
  method OrderTriggers(n: nat, next: Stream) returns (order: seq<nat>)
    ensures order == ShuffledBy(Iota(n), next)
    ensures |order| == n && Distinct(order) && forall k: nat :: k in order <==> k < n
  {
    order := Shuffled(Iota(n), next);
    PermutationOfDistinct(Iota(n), order);
    forall k: nat ensures k in order <==> k < n {
      assert k in order <==> k in multiset(order);
      assert k in Iota(n) <==> k in multiset(Iota(n));
      assert k < n ==> Iota(n)[k] == k;
    }
  }

  function Iota(n: nat): (s: seq<nat>)
    ensures |s| == n && forall i | 0 <= i < n :: s[i] == i
  {
    seq(n, i => i)
  }

  lemma {:induction false} EveryTriggerOrderIsReachable(n: nat, order: seq<nat>)
    requires multiset(order) == multiset(Iota(n))
    ensures exists next: Stream :: ShuffledBy(Iota(n), next) == order
  {
    var js := EachPermutationOnce(Iota(n), order);
    StreamsReachAllChoices(js);
    var next: Stream :| StreamChoices(next, |js|) == js;
    assert ShuffledBy(Iota(n), next) == order;
  }
}
