// The thread-per-output kernel, its launch, and the host's sequential check.

module NaiveKernel {
  import opened LinearSpec

  const NAIVE_BLOCK: nat := 128

  function NaiveBlocks(n: nat): nat {
    (n + NAIVE_BLOCK - 1) / NAIVE_BLOCK
  }

  // One CUDA thread. A thread outside the matrix returns without a write.
  method NaiveThread<F>(p: Problem<F>, blockX: nat, blockY: nat, threadX: nat, y: array<F>)
    requires p.Valid() && y.Length == p.rows * p.n
    requires threadX < NAIVE_BLOCK
    modifies y
    ensures var col := blockX * NAIVE_BLOCK + threadX;
            if col >= p.n || blockY >= p.rows then y[..] == old(y[..])
            else Flat(blockY, p.n, col) < y.Length
                 && y[..] == old(y[..])[Flat(blockY, p.n, col) := Dot(p, blockY, col, p.k)]
  {
    var col := blockX * NAIVE_BLOCK + threadX;
    var row := blockY;
    if col >= p.n || row >= p.rows {
      return;
    }
    var acc := p.ar.zero;
    for i := 0 to p.k
      invariant acc == Dot(p, row, col, i)
    {
      acc := p.ar.add(acc, p.ar.mul(X(p, row, i), W(p, i, col)));
    }
    FlatInBounds(row, p.n, col, p.rows);
    y[Flat(row, p.n, col)] := acc;
  }

  // One thread of the launch.
  datatype Launched = Launched(blockX: nat, blockY: nat, threadX: nat)

  function Column(t: Launched): nat {
    t.blockX * NAIVE_BLOCK + t.threadX
  }

  // The thread's cell, if it has one, is final.
  ghost predicate CellIsFinal<F>(p: Problem<F>, y: seq<F>, t: Launched)
    requires p.Valid()
  {
    Column(t) < p.n && t.blockY < p.rows ==>
      Flat(t.blockY, p.n, Column(t)) < |y| &&
      y[Flat(t.blockY, p.n, Column(t))] == Dot(p, t.blockY, Column(t), p.k)
  }

  // A thread leaves the other threads' final cells final.
  lemma {:induction false} WriteKeepsFinal<F>(p: Problem<F>, y: seq<F>, t: Launched, u: Launched)
    requires p.Valid() && |y| == p.rows * p.n && CellIsFinal(p, y, u)
    requires Column(t) < p.n && t.blockY < p.rows
    ensures Flat(t.blockY, p.n, Column(t)) < |y|
    ensures CellIsFinal(p, y[Flat(t.blockY, p.n, Column(t)) := Dot(p, t.blockY, Column(t), p.k)], u)
  {
    FlatInBounds(t.blockY, p.n, Column(t), p.rows);
    if Column(u) < p.n && u.blockY < p.rows && Flat(t.blockY, p.n, Column(t)) == Flat(u.blockY, p.n, Column(u)) {
      FlatInjective(t.blockY, Column(t), u.blockY, Column(u), p.n);
    }
  }

  // The grid (ceil(n / 128), rows) of 128-thread blocks has a thread for
  // every cell.
  predicate InLaunch<F>(p: Problem<F>, t: Launched) {
    t.blockX < NaiveBlocks(p.n) && t.blockY < p.rows && t.threadX < NAIVE_BLOCK
  }

  lemma {:induction false} LaunchCovers<F>(p: Problem<F>, r: nat, c: nat)
    requires r < p.rows && c < p.n
    ensures var t := Launched(c / NAIVE_BLOCK, r, c % NAIVE_BLOCK);
            InLaunch(p, t) && Column(t) == c
  {
  }

  // The launch, with its threads in any order. A thread shares nothing with
  // another but the output, where it writes one cell of its own at its end,
  // so running them one after the other loses no interleaving.
  method LaunchNaive<F>(p: Problem<F>, order: seq<Launched>, y: array<F>)
    requires p.Valid() && y.Length == p.rows * p.n
    requires forall t :: t in order <==> InLaunch(p, t)
    modifies y
    ensures IsProduct(p, y[..])
  {
    for i := 0 to |order|
      invariant forall j | 0 <= j < i :: CellIsFinal(p, y[..], order[j])
    {
      var t := order[i];
      assert t in order;
      if Column(t) < p.n {
        forall j | 0 <= j < i
          ensures Flat(t.blockY, p.n, Column(t)) < |y[..]|
          ensures CellIsFinal(p, y[..][Flat(t.blockY, p.n, Column(t)) := Dot(p, t.blockY, Column(t), p.k)], order[j])
        {
          WriteKeepsFinal(p, y[..], t, order[j]);
        }
      }
      NaiveThread(p, t.blockX, t.blockY, t.threadX, y);
    }
    forall r: nat, c: nat | r < p.rows && c < p.n
      ensures Flat(r, p.n, c) < |y[..]| && y[..][Flat(r, p.n, c)] == Dot(p, r, c, p.k)
    {
      LaunchCovers(p, r, c);
      var t := Launched(c / NAIVE_BLOCK, r, c % NAIVE_BLOCK);
      assert t in order;
      var j :| 0 <= j < |order| && order[j] == t;
      assert CellIsFinal(p, y[..], order[j]);
    }
  }

  ghost predicate RowMatches<F>(p: Problem<F>, a: seq<F>, row: nat, upTo: nat)
    requires p.Valid() && row < p.rows && upTo <= p.n && |a| == p.rows * p.n
  {
    forall c: nat | c < upTo :: Flat(row, p.n, c) < |a| && a[Flat(row, p.n, c)] == Dot(p, row, c, p.k)
  }

  // The columns of a row at which a device buffer misses the reference.
  ghost function Mismatches<F>(p: Problem<F>, a: seq<F>, b: seq<F>, row: nat, upTo: nat): set<int>
    requires p.Valid() && row < p.rows && upTo <= p.n && |a| == |b| == p.rows * p.n
  {
    set c: int | 0 <= c < upTo && MissesAt(p, a, b, row, c)
  }

  ghost predicate MissesAt<F>(p: Problem<F>, a: seq<F>, b: seq<F>, row: nat, c: nat)
    requires p.Valid() && row < p.rows && c < p.n && |a| == |b| == p.rows * p.n
  {
    FlatInBounds(row, p.n, c, p.rows);
    var i := Flat(row, p.n, c);
    Dot(p, row, c, p.k) != a[i] || Dot(p, row, c, p.k) != b[i]
  }

  // The host's reference loop over one row of both device buffers.
  method RowMismatches<F(==)>(p: Problem<F>, a: seq<F>, b: seq<F>, row: nat) returns (mismatches: nat)
    requires p.Valid() && row < p.rows && |a| == |b| == p.rows * p.n
    ensures mismatches == |Mismatches(p, a, b, row, p.n)|
  {
    mismatches := 0;
    for col := 0 to p.n
      invariant mismatches == |Mismatches(p, a, b, row, col)|
    {
      FlatInBounds(row, p.n, col, p.rows);
      var acc := p.ar.zero;
      for i := 0 to p.k
        invariant acc == Dot(p, row, col, i)
      {
        acc := p.ar.add(acc, p.ar.mul(X(p, row, i), W(p, i, col)));
      }
      var before := Mismatches(p, a, b, row, col);
      if acc != a[Flat(row, p.n, col)] || acc != b[Flat(row, p.n, col)] {
        assert Mismatches(p, a, b, row, col + 1) == before + {col};
        mismatches := mismatches + 1;
      } else {
        assert Mismatches(p, a, b, row, col + 1) == before;
      }
    }
  }

  lemma {:induction false} NoMismatches<F>(p: Problem<F>, a: seq<F>, b: seq<F>, row: nat)
    requires p.Valid() && row < p.rows && |a| == |b| == p.rows * p.n
    ensures |Mismatches(p, a, b, row, p.n)| == 0 <==> RowMatches(p, a, row, p.n) && RowMatches(p, b, row, p.n)
  {
    var m := Mismatches(p, a, b, row, p.n);
    forall c: nat | c < p.n ensures Flat(row, p.n, c) < |a| && (c in m <==> MissesAt(p, a, b, row, c)) {
      FlatInBounds(row, p.n, c, p.rows);
    }
    assert m == {} <==> forall c: nat | c < p.n :: !MissesAt(p, a, b, row, c);
  }

  // The positions at which the two device buffers differ.
  ghost function Differences<F>(a: seq<F>, b: seq<F>, upTo: nat): set<int>
    requires upTo <= |a| && |a| == |b|
  {
    set i: int | 0 <= i < upTo && a[i] != b[i]
  }

  method CountDifferences<F(==)>(a: seq<F>, b: seq<F>) returns (count: nat)
    requires |a| == |b|
    ensures count == |Differences(a, b, |a|)|
    ensures count == 0 <==> a == b
  {
    count := 0;
    for i := 0 to |a|
      invariant count == |Differences(a, b, i)|
    {
      var before := Differences(a, b, i);
      if a[i] != b[i] {
        assert Differences(a, b, i + 1) == before + {i};
        count := count + 1;
      } else {
        assert Differences(a, b, i + 1) == before;
      }
    }
    assert forall i | 0 <= i < |a| :: i in Differences(a, b, |a|) <==> a[i] != b[i];
  }

  // The two figures of the `linear_bits` report are zero whenever both
  // buffers hold the product, whatever the arithmetic.
  method LinearBitsReport<F(==)>(p: Problem<F>, a: seq<F>, b: seq<F>) returns (cpuMismatches: nat, naiveVsTiled: nat)
    requires p.Valid() && p.rows > 0 && |a| == |b| == p.rows * p.n
    ensures naiveVsTiled == |Differences(a, b, |a|)|
    ensures cpuMismatches == |Mismatches(p, a, b, 0, p.n)| + |Mismatches(p, a, b, p.rows - 1, p.n)|
    ensures IsProduct(p, a) && IsProduct(p, b) ==> cpuMismatches == 0 && naiveVsTiled == 0
  {
    var first := RowMismatches(p, a, b, 0);
    var last := RowMismatches(p, a, b, p.rows - 1);
    cpuMismatches := first + last;
    naiveVsTiled := CountDifferences(a, b);
    NoMismatches(p, a, b, 0);
    NoMismatches(p, a, b, p.rows - 1);
    if IsProduct(p, a) && IsProduct(p, b) {
      ProductIsUnique(p, a, b);
    }
  }
}
