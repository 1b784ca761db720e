// The exact-order linear layer: a naive kernel with one thread per output, and
// a tiled kernel whose 64x64 blocks stage K-tiles of 16 in shared memory.
//
// Arithmetic is a parameter: `add` and `mul` are arbitrary functions, so
// nothing below can rely on associativity, commutativity or a neutral zero.
// Equality of results is therefore equality of the whole expression tree,
// which is what makes the bits agree for IEEE arithmetic.

module LinearSpec {
  datatype Arith<!F> = Arith(zero: F, add: (F, F) -> F, mul: (F, F) -> F)

  // y = x * w with x of shape rows x k and w of shape k x n, all row major.
  datatype Problem<!F> = Problem(ar: Arith<F>, x: seq<F>, w: seq<F>, rows: nat, k: nat, n: nat) {
    ghost predicate Valid() {
      && |x| == rows * k
      && |w| == k * n
    }
  }

  function Flat(r: nat, width: nat, c: nat): nat {
    r * width + c
  }

  lemma {:induction false} ScaleMonotone(a: nat, b: nat, width: nat)
    ensures a <= b ==> a * width <= b * width
  {
  }

  lemma {:induction false} FlatInBounds(r: nat, width: nat, c: nat, height: nat)
    requires r < height && c < width
    ensures Flat(r, width, c) < height * width
  {
    ScaleMonotone(r + 1, height, width);
  }

  lemma {:induction false} FlatInjective(r: nat, c: nat, r': nat, c': nat, width: nat)
    requires c < width && c' < width
    requires Flat(r, width, c) == Flat(r', width, c')
    ensures r == r' && c == c'
  {
    ScaleMonotone(r + 1, r', width);
    ScaleMonotone(r' + 1, r, width);
  }

  // Every index of a height x width buffer is the flat index of one cell.
  lemma {:induction false} Unflatten(i: nat, height: nat, width: nat) returns (r: nat, c: nat)
    requires i < height * width
    ensures r < height && c < width && Flat(r, width, c) == i
    decreases height
  {
    if i < width {
      r, c := 0, i;
      ScaleMonotone(height, 0, width);
    } else {
      assert (height - 1) * width == height * width - width;
      r, c := Unflatten(i - width, height - 1, width);
      assert (r + 1) * width == r * width + width;
      r := r + 1;
    }
  }

  function X<F>(p: Problem<F>, r: nat, i: nat): F
    requires p.Valid() && r < p.rows && i < p.k
  {
    FlatInBounds(r, p.k, i, p.rows);
    p.x[Flat(r, p.k, i)]
  }

  function W<F>(p: Problem<F>, i: nat, c: nat): F
    requires p.Valid() && i < p.k && c < p.n
  {
    FlatInBounds(i, p.n, c, p.k);
    p.w[Flat(i, p.n, c)]
  }

  // The left fold over the first i products, in ascending K.
  function Dot<F>(p: Problem<F>, r: nat, c: nat, i: nat): F
    requires p.Valid() && r < p.rows && c < p.n && i <= p.k
  {
    if i == 0 then p.ar.zero
    else p.ar.add(Dot(p, r, c, i - 1), p.ar.mul(X(p, r, i - 1), W(p, i - 1, c)))
  }

  // What a finished output buffer must hold: every cell is the full fold.
  ghost predicate IsProduct<F>(p: Problem<F>, y: seq<F>)
    requires p.Valid()
  {
    && |y| == p.rows * p.n
    && forall r: nat, c: nat | r < p.rows && c < p.n ::
         Flat(r, p.n, c) < |y| && y[Flat(r, p.n, c)] == Dot(p, r, c, p.k)
  }

  // A buffer that is the product is the only one.
  lemma {:induction false} ProductIsUnique<F>(p: Problem<F>, y: seq<F>, z: seq<F>)
    requires p.Valid() && IsProduct(p, y) && IsProduct(p, z)
    ensures y == z
  {
    forall i | 0 <= i < |y| ensures y[i] == z[i] {
      var r, c := Unflatten(i, p.rows, p.n);
    }
  }

  // Batch invariance: an output row is determined by that row of x and by w.
  // The two problems may differ in every other row and in the number of rows.
  lemma {:induction false} RowIsBatchInvariant<F>(p: Problem<F>, q: Problem<F>, r: nat, s: nat, c: nat, i: nat)
    requires p.Valid() && q.Valid()
    requires p.ar == q.ar && p.w == q.w && p.k == q.k && p.n == q.n
    requires r < p.rows && s < q.rows && c < p.n && i <= p.k
    requires forall j: nat | j < p.k :: X(p, r, j) == X(q, s, j)
    ensures Dot(p, r, c, i) == Dot(q, s, c, i)
  {
    if i > 0 {
      RowIsBatchInvariant(p, q, r, s, c, i - 1);
    }
  }
}
