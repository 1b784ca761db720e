// The 64x64 register-tiled kernel as a transition system. One step executes
// one shared-memory or register action of one thread of one block; a schedule
// is an arbitrary list of such choices. The two barriers per K-tile are the
// only synchronisation: a waiting thread may resume once every thread of its
// block has arrived at as many barriers as it has.

module TiledKernel {
  import opened Basics
  import opened LinearSpec

  const THREADS: nat := 256
  const TILE_CELLS: nat := 1024 // 16 x 64 cells in each shared array

  datatype Pc =
    | Load(k0: nat, t: nat, weights: bool) // about to stage cell t of xs, then of ws
    | Wait1(k0: nat)
    | ReadX(k0: nat, kk: nat, a: nat)
    | ReadW(k0: nat, kk: nat, b: nat)
    | Mac(k0: nat, kk: nat, a: nat, b: nat)
    | Wait2(k0: nat)
    | Store(a: nat, b: nat)
    | Done

  // `barriers` counts the barriers this thread has arrived at.
  datatype Thread<!F> = Thread(pc: Pc, barriers: nat, acc: seq<F>, xv: seq<F>, wv: seq<F>)
  datatype Block<!F> = Block(xs: seq<F>, ws: seq<F>, threads: seq<Thread<F>>)
  // `writes` counts, per output cell, the stores that reached it.
  datatype Grid<!F> = Grid(blocks: map<(nat, nat), Block<F>>, y: seq<F>, writes: seq<nat>)

  // -------------------------------------------------------------- the steps

  // Row and column of the output cell (a, b) of thread `tid` in block (bc, br).
  function CellRow(br: nat, tid: nat, a: nat): nat {
    br * 64 + tid / 16 * 4 + a
  }

  function CellCol(bc: nat, tid: nat, b: nat): nat {
    bc * 64 + tid % 16 * 4 + b
  }

  function XPad<F>(p: Problem<F>, r: nat, i: nat): F
    requires p.Valid()
  {
    if r < p.rows && i < p.k then X(p, r, i) else p.ar.zero
  }

  function WPad<F>(p: Problem<F>, i: nat, c: nat): F
    requires p.Valid()
  {
    if i < p.k && c < p.n then W(p, i, c) else p.ar.zero
  }

  // What the staging loop stores in cell t = kk * 64 + rr for the tile at k0.
  function XTile<F>(p: Problem<F>, br: nat, k0: nat, t: nat): F
    requires p.Valid()
  {
    XPad(p, br * 64 + t % 64, k0 + t / 64)
  }

  function WTile<F>(p: Problem<F>, bc: nat, k0: nat, t: nat): F
    requires p.Valid()
  {
    WPad(p, k0 + t / 64, bc * 64 + t % 64)
  }

  function TileStart(k: nat, k0: nat, tid: nat): Pc {
    if k0 < k then Load(k0, tid, false) else Store(0, 0)
  }

  function AfterStore(a: nat, b: nat, rowInside: bool): Pc {
    if rowInside && b < 3 then Store(a, b + 1)
    else if a < 3 then Store(a + 1, 0)
    else Done
  }

  predicate WellShaped<F>(b: Block<F>) {
    && |b.xs| == |b.ws| == TILE_CELLS
    && |b.threads| == THREADS
    && forall i | 0 <= i < THREADS ::
         |b.threads[i].acc| == 16 && |b.threads[i].xv| == |b.threads[i].wv| == 4
  }

  // Indices used by a program counter stay inside the arrays they address.
  predicate PcInRange(k: nat, tid: nat, pc: Pc) {
    match pc
    case Load(k0, t, _) => k0 % 16 == 0 && k0 < k && t < TILE_CELLS && t % THREADS == tid
    case Wait1(k0) => k0 % 16 == 0 && k0 < k
    case ReadX(k0, kk, a) => k0 % 16 == 0 && k0 < k && kk < Min(16, k - k0) && a < 4
    case ReadW(k0, kk, b) => k0 % 16 == 0 && k0 < k && kk < Min(16, k - k0) && b < 4
    case Mac(k0, kk, a, b) => k0 % 16 == 0 && k0 < k && kk < Min(16, k - k0) && a < 4 && b < 4
    case Wait2(k0) => k0 % 16 == 0 && k0 < k
    case Store(a, b) => a < 4 && b < 4
    case Done => true
  }

  predicate InRange<F>(k: nat, b: Block<F>) {
    WellShaped(b) && forall i | 0 <= i < THREADS :: PcInRange(k, i, b.threads[i].pc)
  }

  predicate Waiting(pc: Pc) {
    pc.Wait1? || pc.Wait2?
  }

  predicate BarrierOpen<F>(b: Block<F>, tid: nat)
    requires WellShaped(b) && tid < THREADS
  {
    forall j | 0 <= j < THREADS :: b.threads[tid].barriers <= b.threads[j].barriers
  }

  predicate Enabled<F>(b: Block<F>, tid: nat)
    requires WellShaped(b) && tid < THREADS
  {
    var pc := b.threads[tid].pc;
    !pc.Done? && (Waiting(pc) ==> BarrierOpen(b, tid))
  }

  // Control flow of one thread.
  function NextPc(k: nat, rows: nat, br: nat, tid: nat, pc: Pc): Pc
    requires PcInRange(k, tid, pc)
  {
    match pc
    case Load(k0, t, weights) =>
      if !weights then Load(k0, t, true)
      else if t + THREADS < TILE_CELLS then Load(k0, t + THREADS, false)
      else Wait1(k0)
    case Wait1(k0) => ReadX(k0, 0, 0)
    case ReadX(k0, kk, a) => if a < 3 then ReadX(k0, kk, a + 1) else ReadW(k0, kk, 0)
    case ReadW(k0, kk, b) => if b < 3 then ReadW(k0, kk, b + 1) else Mac(k0, kk, 0, 0)
    case Mac(k0, kk, a, b) =>
      if b < 3 then Mac(k0, kk, a, b + 1)
      else if a < 3 then Mac(k0, kk, a + 1, 0)
      else if kk + 1 < Min(16, k - k0) then ReadX(k0, kk + 1, 0)
      else Wait2(k0)
    case Wait2(k0) => TileStart(k, k0 + 16, tid)
    case Store(a, b) => AfterStore(a, b, CellRow(br, tid, a) < rows)
    case Done => Done
  }

  // The thread-local part of a step; it reads shared memory but never writes it.
  function NextThread<F>(p: Problem<F>, b: Block<F>, br: nat, tid: nat): (th: Thread<F>)
    requires p.Valid() && WellShaped(b) && tid < THREADS && PcInRange(p.k, tid, b.threads[tid].pc)
    ensures |th.acc| == 16 && |th.xv| == |th.wv| == 4
  {
    var th := b.threads[tid];
    var pc := th.pc;
    var next := NextPc(p.k, p.rows, br, tid, pc);
    Thread(
      next,
      th.barriers + if Waiting(next) then 1 else 0,
      if pc.Mac? then
        var e := pc.a * 4 + pc.b;
        th.acc[e := p.ar.add(th.acc[e], p.ar.mul(th.xv[pc.a], th.wv[pc.b]))]
      else th.acc,
      if pc.ReadX? then th.xv[pc.a := b.xs[pc.kk * 64 + tid / 16 * 4 + pc.a]] else th.xv,
      if pc.ReadW? then th.wv[pc.b := b.ws[pc.kk * 64 + tid % 16 * 4 + pc.b]] else th.wv)
  }

  function NextBlock<F>(p: Problem<F>, b: Block<F>, bc: nat, br: nat, tid: nat): (b': Block<F>)
    requires p.Valid() && WellShaped(b) && tid < THREADS && PcInRange(p.k, tid, b.threads[tid].pc)
    ensures WellShaped(b')
  {
    var pc := b.threads[tid].pc;
    Block(
      if pc.Load? && !pc.weights then b.xs[pc.t := XTile(p, br, pc.k0, pc.t)] else b.xs,
      if pc.Load? && pc.weights then b.ws[pc.t := WTile(p, bc, pc.k0, pc.t)] else b.ws,
      b.threads[tid := NextThread(p, b, br, tid)])
  }

  predicate Stores<F>(p: Problem<F>, b: Block<F>, bc: nat, br: nat, tid: nat)
    requires WellShaped(b) && tid < THREADS
  {
    var pc := b.threads[tid].pc;
    pc.Store? && CellRow(br, tid, pc.a) < p.rows && CellCol(bc, tid, pc.b) < p.n
  }

  function GridWidth(n: nat): nat {
    (n + 63) / 64
  }

  ghost predicate WellShapedGrid<F>(p: Problem<F>, g: Grid<F>) {
    && (forall bc: nat, br: nat :: (bc, br) in g.blocks <==> bc < GridWidth(p.n) && br < GridWidth(p.rows))
    && (forall at | at in g.blocks :: InRange(p.k, g.blocks[at]))
    && |g.y| == |g.writes| == p.rows * p.n
  }

  // The flat output index a storing thread writes to.
  ghost function StoreIndex<F>(p: Problem<F>, b: Block<F>, bc: nat, br: nat, tid: nat): (i: nat)
    requires WellShaped(b) && tid < THREADS && Stores(p, b, bc, br, tid)
    ensures i < p.rows * p.n
  {
    var pc := b.threads[tid].pc;
    FlatInBounds(CellRow(br, tid, pc.a), p.n, CellCol(bc, tid, pc.b), p.rows);
    Flat(CellRow(br, tid, pc.a), p.n, CellCol(bc, tid, pc.b))
  }

  ghost function NextOutput<F>(p: Problem<F>, b: Block<F>, bc: nat, br: nat, tid: nat, y: seq<F>): (y': seq<F>)
    requires WellShaped(b) && tid < THREADS && PcInRange(p.k, tid, b.threads[tid].pc) && |y| == p.rows * p.n
    ensures |y'| == |y|
  {
    var th := b.threads[tid];
    if Stores(p, b, bc, br, tid) then y[StoreIndex(p, b, bc, br, tid) := th.acc[th.pc.a * 4 + th.pc.b]] else y
  }

  ghost function NextWrites<F>(p: Problem<F>, b: Block<F>, bc: nat, br: nat, tid: nat, writes: seq<nat>): (w: seq<nat>)
    requires WellShaped(b) && tid < THREADS && |writes| == p.rows * p.n
    ensures |w| == |writes|
  {
    if Stores(p, b, bc, br, tid) then
      var i := StoreIndex(p, b, bc, br, tid);
      writes[i := writes[i] + 1]
    else writes
  }

  ghost function NextGrid<F>(p: Problem<F>, g: Grid<F>, at: (nat, nat), tid: nat): Grid<F>
    requires p.Valid() && WellShapedGrid(p, g) && at in g.blocks && tid < THREADS
  {
    var b := g.blocks[at];
    Grid(g.blocks[at := NextBlock(p, b, at.0, at.1, tid)],
         NextOutput(p, b, at.0, at.1, tid, g.y),
         NextWrites(p, b, at.0, at.1, tid, g.writes))
  }

  // At launch: accumulators are zero; shared memory, registers and y hold anything.
  ghost predicate InitialGrid<F>(p: Problem<F>, g: Grid<F>)
    requires p.Valid()
  {
    && WellShapedGrid(p, g)
    && (forall at | at in g.blocks :: forall i | 0 <= i < THREADS ::
          var th := g.blocks[at].threads[i];
          && th.pc == TileStart(p.k, 0, i)
          && th.barriers == 0
          && forall e | 0 <= e < 16 :: th.acc[e] == p.ar.zero)
    && forall i | 0 <= i < |g.writes| :: g.writes[i] == 0
  }

  // ---------------------------------------------------- invariant of a block

  // The fold a register accumulates; outside the matrix it folds padding.
  ghost function PadDot<F>(p: Problem<F>, r: nat, c: nat, i: nat): F
    requires p.Valid()
  {
    if i == 0 then p.ar.zero
    else p.ar.add(PadDot(p, r, c, i - 1), p.ar.mul(XPad(p, r, i - 1), WPad(p, i - 1, c)))
  }

  // No padding reaches a cell inside the matrix.
  lemma {:induction false} PadDotIsDot<F>(p: Problem<F>, r: nat, c: nat, i: nat)
    requires p.Valid() && r < p.rows && c < p.n && i <= p.k
    ensures PadDot(p, r, c, i) == Dot(p, r, c, i)
  {
    if i > 0 {
      PadDotIsDot(p, r, c, i - 1);
    }
  }

  function Tiles(k: nat): nat {
    (k + 15) / 16
  }

  function BarriersAt(k: nat, pc: Pc): nat {
    match pc
    case Load(k0, _, _) => 2 * (k0 / 16)
    case Wait1(k0) => 2 * (k0 / 16) + 1
    case ReadX(k0, _, _) => 2 * (k0 / 16) + 1
    case ReadW(k0, _, _) => 2 * (k0 / 16) + 1
    case Mac(k0, _, _, _) => 2 * (k0 / 16) + 1
    case Wait2(k0) => 2 * (k0 / 16) + 2
    case Store(_, _) => 2 * Tiles(k)
    case Done => 2 * Tiles(k)
  }

  function Passed(pc: Pc, barriers: nat): int {
    if Waiting(pc) then barriers - 1 else barriers
  }

  // How many products the accumulator of cell (a, b) has absorbed.
  function Absorbed(k: nat, pc: Pc, a: nat, b: nat): nat {
    match pc
    case Load(k0, _, _) => k0
    case Wait1(k0) => k0
    case ReadX(k0, kk, _) => k0 + kk
    case ReadW(k0, kk, _) => k0 + kk
    case Mac(k0, kk, a', b') => k0 + kk + if a < a' || (a == a' && b < b') then 1 else 0
    case Wait2(k0) => Min(k0 + 16, k)
    case Store(_, _) => k
    case Done => k
  }

  ghost predicate AccumulatorsHold<F>(p: Problem<F>, bc: nat, br: nat, tid: nat, th: Thread<F>)
    requires p.Valid() && |th.acc| == 16
  {
    forall a: nat, b: nat | a < 4 && b < 4 ::
      th.acc[a * 4 + b] == PadDot(p, CellRow(br, tid, a), CellCol(bc, tid, b), Absorbed(p.k, th.pc, a, b))
  }

  ghost predicate RegistersHold<F>(p: Problem<F>, bc: nat, br: nat, tid: nat, th: Thread<F>)
    requires p.Valid() && |th.xv| == |th.wv| == 4
  {
    XRegistersHold(p, br, tid, th) && WRegistersHold(p, bc, tid, th)
  }

  ghost predicate XRegistersHold<F>(p: Problem<F>, br: nat, tid: nat, th: Thread<F>)
    requires p.Valid() && |th.xv| == 4
  {
    var pc := th.pc;
    && (pc.ReadX? ==> forall a: nat | a < pc.a :: a < 4 ==> th.xv[a] == XPad(p, CellRow(br, tid, a), pc.k0 + pc.kk))
    && (pc.ReadW? || pc.Mac? ==> forall a: nat | a < 4 :: th.xv[a] == XPad(p, CellRow(br, tid, a), pc.k0 + pc.kk))
  }

  ghost predicate WRegistersHold<F>(p: Problem<F>, bc: nat, tid: nat, th: Thread<F>)
    requires p.Valid() && |th.wv| == 4
  {
    var pc := th.pc;
    && (pc.ReadW? ==> forall b: nat | b < pc.b :: b < 4 ==> th.wv[b] == WPad(p, pc.k0 + pc.kk, CellCol(bc, tid, b)))
    && (pc.Mac? ==> forall b: nat | b < 4 :: th.wv[b] == WPad(p, pc.k0 + pc.kk, CellCol(bc, tid, b)))
  }

  // Thread tid alone stages the cells t with t % 256 == tid. While it works on
  // a tile, those it has reached hold that tile's values.
  ghost predicate CellStaged<F>(p: Problem<F>, bc: nat, br: nat, b: Block<F>, pc: Pc, t: nat)
    requires p.Valid() && WellShaped(b) && t < TILE_CELLS
  {
    match pc
    case Load(k0, cur, weights) =>
      && (t < cur || (t == cur && weights) ==> b.xs[t] == XTile(p, br, k0, t))
      && (t < cur ==> b.ws[t] == WTile(p, bc, k0, t))
    case Store(_, _) => true
    case Done => true
    case _ => b.xs[t] == XTile(p, br, pc.k0, t) && b.ws[t] == WTile(p, bc, pc.k0, t)
  }

  ghost predicate ThreadInv<F>(p: Problem<F>, bc: nat, br: nat, b: Block<F>, tid: nat)
    requires p.Valid() && WellShaped(b) && tid < THREADS
  {
    var th := b.threads[tid];
    && PcInRange(p.k, tid, th.pc)
    && th.barriers == BarriersAt(p.k, th.pc)
    && AccumulatorsHold(p, bc, br, tid, th)
    && RegistersHold(p, bc, br, tid, th)
    && forall t: nat | t < TILE_CELLS && t % THREADS == tid :: CellStaged(p, bc, br, b, th.pc, t)
  }

  // No thread has passed a barrier that another has not reached.
  ghost predicate BarriersAgree<F>(b: Block<F>)
    requires WellShaped(b)
  {
    forall i, j | 0 <= i < THREADS && 0 <= j < THREADS ::
      Passed(b.threads[i].pc, b.threads[i].barriers) <= b.threads[j].barriers
  }

  ghost predicate BlockInv<F>(p: Problem<F>, bc: nat, br: nat, b: Block<F>)
    requires p.Valid()
  {
    && WellShaped(b)
    && (forall i | 0 <= i < THREADS :: ThreadInv(p, bc, br, b, i))
    && BarriersAgree(b)
  }

  // While one thread computes on tile k0, every thread has finished staging
  // that tile and none has begun the next.
  lemma {:induction false} OthersOnSameTile<F>(p: Problem<F>, bc: nat, br: nat, b: Block<F>, tid: nat, j: nat)
    requires p.Valid() && BlockInv(p, bc, br, b) && tid < THREADS && j < THREADS
    requires var pc := b.threads[tid].pc; pc.ReadX? || pc.ReadW? || pc.Mac?
    ensures var pc, other := b.threads[tid].pc, b.threads[j].pc;
            !other.Load? && !other.Store? && !other.Done? && other.k0 == pc.k0
  {
    var th, other := b.threads[tid], b.threads[j];
    assert ThreadInv(p, bc, br, b, tid) && ThreadInv(p, bc, br, b, j);
    assert Passed(th.pc, th.barriers) <= other.barriers;
    assert Passed(other.pc, other.barriers) <= th.barriers;
  }

  // Every shared read returns the value of the tile being computed.
  lemma {:induction false} ReadSeesCurrentTile<F>(p: Problem<F>, bc: nat, br: nat, b: Block<F>, tid: nat, t: nat)
    requires p.Valid() && BlockInv(p, bc, br, b) && tid < THREADS && t < TILE_CELLS
    requires var pc := b.threads[tid].pc; pc.ReadX? || pc.ReadW?
    ensures b.xs[t] == XTile(p, br, b.threads[tid].pc.k0, t)
    ensures b.ws[t] == WTile(p, bc, b.threads[tid].pc.k0, t)
  {
    var j := t % THREADS;
    OthersOnSameTile(p, bc, br, b, tid, j);
    assert ThreadInv(p, bc, br, b, j);
    assert CellStaged(p, bc, br, b, b.threads[j].pc, t);
  }

  // No data race: staging and computing never coexist inside a block, and two
  // threads never stage the same cell.
  lemma {:induction false} NoSharedMemoryRace<F>(p: Problem<F>, bc: nat, br: nat, b: Block<F>, i: nat, j: nat)
    requires p.Valid() && BlockInv(p, bc, br, b) && i < THREADS && j < THREADS && i != j
    requires b.threads[i].pc.Load?
    ensures !b.threads[j].pc.ReadX? && !b.threads[j].pc.ReadW?
    ensures b.threads[j].pc.Load? ==> b.threads[i].pc.t != b.threads[j].pc.t
  {
    assert ThreadInv(p, bc, br, b, i) && ThreadInv(p, bc, br, b, j);
    if b.threads[j].pc.ReadX? || b.threads[j].pc.ReadW? {
      OthersOnSameTile(p, bc, br, b, j, i);
    }
  }

  // Barriers are uniform: two threads held at the same barrier count are held
  // at the same barrier statement of the same tile.
  lemma {:induction false} BarriersAreUniform<F>(p: Problem<F>, bc: nat, br: nat, b: Block<F>, i: nat, j: nat)
    requires p.Valid() && BlockInv(p, bc, br, b) && i < THREADS && j < THREADS
    requires Waiting(b.threads[i].pc) && Waiting(b.threads[j].pc)
    requires b.threads[i].barriers == b.threads[j].barriers
    ensures b.threads[i].pc == b.threads[j].pc
  {
    assert ThreadInv(p, bc, br, b, i) && ThreadInv(p, bc, br, b, j);
  }

  // ------------------------------------------------- the invariant is kept

  lemma {:induction false} OtherThreadKept<F>(p: Problem<F>, bc: nat, br: nat, b: Block<F>, tid: nat, j: nat)
    requires p.Valid() && BlockInv(p, bc, br, b) && tid < THREADS && j < THREADS && j != tid
    ensures ThreadInv(p, bc, br, b, tid)
    ensures ThreadInv(p, bc, br, NextBlock(p, b, bc, br, tid), j)
  {
    assert ThreadInv(p, bc, br, b, tid) && ThreadInv(p, bc, br, b, j);
    var b' := NextBlock(p, b, bc, br, tid);
    forall t: nat | t < TILE_CELLS && t % THREADS == j
      ensures CellStaged(p, bc, br, b', b'.threads[j].pc, t)
    {
      assert CellStaged(p, bc, br, b, b.threads[j].pc, t);
    }
  }

  lemma {:induction false} OwnCellsKept<F>(p: Problem<F>, bc: nat, br: nat, b: Block<F>, tid: nat, t: nat)
    requires p.Valid() && BlockInv(p, bc, br, b) && tid < THREADS && t < TILE_CELLS && t % THREADS == tid
    requires Enabled(b, tid)
    ensures ThreadInv(p, bc, br, b, tid)
    ensures var b' := NextBlock(p, b, bc, br, tid); CellStaged(p, bc, br, b', b'.threads[tid].pc, t)
  {
    assert ThreadInv(p, bc, br, b, tid);
    assert CellStaged(p, bc, br, b, b.threads[tid].pc, t);
    if b.threads[tid].pc.Load? {
      StagingKeepsCell(p, bc, br, b, tid, t);
    } else {
      ComputingKeepsCell(p, bc, br, b, tid, t);
    }
  }

  lemma {:induction false} StagingKeepsCell<F>(p: Problem<F>, bc: nat, br: nat, b: Block<F>, tid: nat, t: nat)
    requires p.Valid() && WellShaped(b) && tid < THREADS && t < TILE_CELLS && t % THREADS == tid
    requires var pc := b.threads[tid].pc;
             PcInRange(p.k, tid, pc) && pc.Load? && CellStaged(p, bc, br, b, pc, t)
    ensures CellStaged(p, bc, br, NextBlock(p, b, bc, br, tid), NextThread(p, b, br, tid).pc, t)
  {
    SameResidue(t, b.threads[tid].pc.t);
  }

  lemma {:induction false} ComputingKeepsCell<F>(p: Problem<F>, bc: nat, br: nat, b: Block<F>, tid: nat, t: nat)
    requires p.Valid() && WellShaped(b) && tid < THREADS && t < TILE_CELLS && t % THREADS == tid
    requires var pc := b.threads[tid].pc;
             PcInRange(p.k, tid, pc) && !pc.Load? && CellStaged(p, bc, br, b, pc, t)
    ensures CellStaged(p, bc, br, NextBlock(p, b, bc, br, tid), NextThread(p, b, br, tid).pc, t)
  {
    var pc' := NextThread(p, b, br, tid).pc;
    assert NextBlock(p, b, bc, br, tid).xs == b.xs && NextBlock(p, b, bc, br, tid).ws == b.ws;
    if pc'.Load? {
      SameResidue(t, pc'.t);
    }
  }

  lemma {:induction false} SameResidue(t: nat, cur: nat)
    requires t % THREADS == cur % THREADS
    ensures t < cur + THREADS ==> t <= cur
    ensures cur < THREADS ==> cur <= t
  {
  }

  // How a step moves the number of absorbed products of one accumulator.
  lemma {:induction false} AbsorbedSteps(k: nat, rows: nat, br: nat, tid: nat, pc: Pc, a: nat, b: nat)
    requires tid < THREADS && PcInRange(k, tid, pc) && a < 4 && b < 4
    ensures Absorbed(k, NextPc(k, rows, br, tid, pc), a, b)
            == Absorbed(k, pc, a, b) + if pc.Mac? && (a, b) == (pc.a, pc.b) then 1 else 0
    ensures pc.Mac? && (a, b) == (pc.a, pc.b) ==> Absorbed(k, pc, a, b) == pc.k0 + pc.kk
  {
  }

  lemma {:induction false} OwnAccumulatorsKept<F>(p: Problem<F>, bc: nat, br: nat, b: Block<F>, tid: nat)
    requires p.Valid() && WellShaped(b) && tid < THREADS && PcInRange(p.k, tid, b.threads[tid].pc)
    requires AccumulatorsHold(p, bc, br, tid, b.threads[tid])
    requires RegistersHold(p, bc, br, tid, b.threads[tid])
    ensures AccumulatorsHold(p, bc, br, tid, NextThread(p, b, br, tid))
  {
    var th, th' := b.threads[tid], NextThread(p, b, br, tid);
    forall a: nat, c: nat | a < 4 && c < 4
      ensures th'.acc[a * 4 + c] ==
              PadDot(p, CellRow(br, tid, a), CellCol(bc, tid, c), Absorbed(p.k, th'.pc, a, c))
    {
      AbsorbedSteps(p.k, p.rows, br, tid, th.pc, a, c);
    }
  }

  // Cell kk * 64 + lane * 4 + e of a shared array is row kk, column lane * 4 + e.
  lemma {:induction false} TileCell(kk: nat, lane: nat, e: nat)
    requires kk < 16 && lane < 16 && e < 4
    ensures var t := kk * 64 + lane * 4 + e;
            t < TILE_CELLS && t / 64 == kk && t % 64 == lane * 4 + e
  {
  }

  lemma {:induction false} ReadXLoads<F>(p: Problem<F>, bc: nat, br: nat, b: Block<F>, tid: nat)
    requires p.Valid() && BlockInv(p, bc, br, b) && tid < THREADS && b.threads[tid].pc.ReadX?
    ensures var pc := b.threads[tid].pc;
            PcInRange(p.k, tid, pc)
            && pc.kk * 64 + tid / 16 * 4 + pc.a < TILE_CELLS
            && b.xs[pc.kk * 64 + tid / 16 * 4 + pc.a] == XPad(p, CellRow(br, tid, pc.a), pc.k0 + pc.kk)
  {
    assert ThreadInv(p, bc, br, b, tid);
    var pc := b.threads[tid].pc;
    TileCell(pc.kk, tid / 16, pc.a);
    ReadSeesCurrentTile(p, bc, br, b, tid, pc.kk * 64 + tid / 16 * 4 + pc.a);
  }

  lemma {:induction false} ReadWLoads<F>(p: Problem<F>, bc: nat, br: nat, b: Block<F>, tid: nat)
    requires p.Valid() && BlockInv(p, bc, br, b) && tid < THREADS && b.threads[tid].pc.ReadW?
    ensures var pc := b.threads[tid].pc;
            PcInRange(p.k, tid, pc)
            && pc.kk * 64 + tid % 16 * 4 + pc.b < TILE_CELLS
            && b.ws[pc.kk * 64 + tid % 16 * 4 + pc.b] == WPad(p, pc.k0 + pc.kk, CellCol(bc, tid, pc.b))
  {
    assert ThreadInv(p, bc, br, b, tid);
    var pc := b.threads[tid].pc;
    TileCell(pc.kk, tid % 16, pc.b);
    ReadSeesCurrentTile(p, bc, br, b, tid, pc.kk * 64 + tid % 16 * 4 + pc.b);
  }

  lemma {:induction false} OwnRegistersKept<F>(p: Problem<F>, bc: nat, br: nat, b: Block<F>, tid: nat)
    requires p.Valid() && WellShaped(b) && tid < THREADS && PcInRange(p.k, tid, b.threads[tid].pc)
    requires RegistersHold(p, bc, br, tid, b.threads[tid])
    requires var pc := b.threads[tid].pc;
             && (pc.ReadX? ==> b.xs[pc.kk * 64 + tid / 16 * 4 + pc.a] == XPad(p, CellRow(br, tid, pc.a), pc.k0 + pc.kk))
             && (pc.ReadW? ==> b.ws[pc.kk * 64 + tid % 16 * 4 + pc.b] == WPad(p, pc.k0 + pc.kk, CellCol(bc, tid, pc.b)))
    ensures RegistersHold(p, bc, br, tid, NextThread(p, b, br, tid))
  {
    OwnXKept(p, br, b, tid);
    OwnWKept(p, bc, br, b, tid);
  }

  lemma {:induction false} OwnXKept<F>(p: Problem<F>, br: nat, b: Block<F>, tid: nat)
    requires p.Valid() && WellShaped(b) && tid < THREADS && PcInRange(p.k, tid, b.threads[tid].pc)
    requires XRegistersHold(p, br, tid, b.threads[tid])
    requires var pc := b.threads[tid].pc;
             pc.ReadX? ==> b.xs[pc.kk * 64 + tid / 16 * 4 + pc.a] == XPad(p, CellRow(br, tid, pc.a), pc.k0 + pc.kk)
    ensures XRegistersHold(p, br, tid, NextThread(p, b, br, tid))
  {
  }

  lemma {:induction false} OwnWKept<F>(p: Problem<F>, bc: nat, br: nat, b: Block<F>, tid: nat)
    requires p.Valid() && WellShaped(b) && tid < THREADS && PcInRange(p.k, tid, b.threads[tid].pc)
    requires WRegistersHold(p, bc, tid, b.threads[tid])
    requires var pc := b.threads[tid].pc;
             pc.ReadW? ==> b.ws[pc.kk * 64 + tid % 16 * 4 + pc.b] == WPad(p, pc.k0 + pc.kk, CellCol(bc, tid, pc.b))
    ensures WRegistersHold(p, bc, tid, NextThread(p, b, br, tid))
  {
  }

  lemma {:induction false} NextTile(k: nat, k0: nat)
    requires k0 % 16 == 0 && k0 < k
    ensures (k0 + 16) % 16 == 0 && (k0 + 16) / 16 == k0 / 16 + 1
    ensures k0 + 16 >= k ==> Tiles(k) == k0 / 16 + 1
  {
  }

  lemma {:induction false} NextPcInRange(k: nat, rows: nat, br: nat, tid: nat, pc: Pc)
    requires tid < THREADS && PcInRange(k, tid, pc)
    ensures PcInRange(k, tid, NextPc(k, rows, br, tid, pc))
  {
    match pc
    case Load(k0, t, _) => assert (t + THREADS) % THREADS == t % THREADS;
    case Wait2(k0) => NextTile(k, k0);
    case _ =>
  }

  lemma {:induction false} BarriersCounted(k: nat, rows: nat, br: nat, tid: nat, pc: Pc)
    requires tid < THREADS && PcInRange(k, tid, pc)
    ensures var next := NextPc(k, rows, br, tid, pc);
            BarriersAt(k, next) == BarriersAt(k, pc) + if Waiting(next) then 1 else 0
  {
    if pc.Wait2? {
      NextTile(k, pc.k0);
    }
  }

  lemma {:induction false} OwnThreadKept<F>(p: Problem<F>, bc: nat, br: nat, b: Block<F>, tid: nat)
    requires p.Valid() && BlockInv(p, bc, br, b) && tid < THREADS && Enabled(b, tid)
    ensures ThreadInv(p, bc, br, b, tid)
    ensures ThreadInv(p, bc, br, NextBlock(p, b, bc, br, tid), tid)
  {
    assert ThreadInv(p, bc, br, b, tid);
    var b' := NextBlock(p, b, bc, br, tid);
    NextPcInRange(p.k, p.rows, br, tid, b.threads[tid].pc);
    BarriersCounted(p.k, p.rows, br, tid, b.threads[tid].pc);
    OwnAccumulatorsKept(p, bc, br, b, tid);
    if b.threads[tid].pc.ReadX? {
      ReadXLoads(p, bc, br, b, tid);
    } else if b.threads[tid].pc.ReadW? {
      ReadWLoads(p, bc, br, b, tid);
    }
    OwnRegistersKept(p, bc, br, b, tid);
    forall t: nat | t < TILE_CELLS && t % THREADS == tid
      ensures CellStaged(p, bc, br, b', b'.threads[tid].pc, t)
    {
      OwnCellsKept(p, bc, br, b, tid, t);
    }
  }

  lemma {:induction false} BlockStepKeepsInv<F>(p: Problem<F>, bc: nat, br: nat, b: Block<F>, tid: nat)
    requires p.Valid() && BlockInv(p, bc, br, b) && tid < THREADS && Enabled(b, tid)
    ensures ThreadInv(p, bc, br, b, tid)
    ensures BlockInv(p, bc, br, NextBlock(p, b, bc, br, tid))
  {
    assert ThreadInv(p, bc, br, b, tid);
    var b' := NextBlock(p, b, bc, br, tid);
    forall i | 0 <= i < THREADS ensures ThreadInv(p, bc, br, b', i) {
      if i == tid {
        OwnThreadKept(p, bc, br, b, tid);
      } else {
        OtherThreadKept(p, bc, br, b, tid, i);
      }
    }
    var th, th' := b.threads[tid], b'.threads[tid];
    assert th.barriers <= th'.barriers;
    assert Passed(th'.pc, th'.barriers) <= Passed(th.pc, th.barriers)
           || (Waiting(th.pc) && Passed(th'.pc, th'.barriers) <= th.barriers);
  }
}
