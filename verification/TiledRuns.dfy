// Whole runs of the tiled kernel: any number of blocks, any interleaving.

module TiledRuns {
  import opened Basics
  import opened LinearSpec
  import opened TiledKernel

  datatype Choice = Choice(at: (nat, nat), tid: nat)

  ghost predicate CanRun<F>(p: Problem<F>, g: Grid<F>, choice: Choice)
    requires p.Valid() && WellShapedGrid(p, g)
  {
    choice.at in g.blocks && choice.tid < THREADS && Enabled(g.blocks[choice.at], choice.tid)
  }

  // Executing the schedule from g, every choice being enabled, ends in g'.
  ghost predicate Runs<F>(p: Problem<F>, g: Grid<F>, schedule: seq<Choice>, g': Grid<F>)
    requires p.Valid()
    decreases |schedule|
  {
    if schedule == [] then g == g'
    else
      && WellShapedGrid(p, g)
      && CanRun(p, g, schedule[0])
      && Runs(p, NextGrid(p, g, schedule[0].at, schedule[0].tid), schedule[1..], g')
  }

  ghost predicate Finished<F>(g: Grid<F>) {
    forall at | at in g.blocks :: forall i | 0 <= i < |g.blocks[at].threads| :: g.blocks[at].threads[i].pc.Done?
  }

  // ------------------------------------------------------- output ownership

  // Output cell (r, c) belongs to one register of one thread of one block.
  function OwnerBlock(r: nat, c: nat): (nat, nat) {
    (c / 64, r / 64)
  }

  function OwnerThread(r: nat, c: nat): nat {
    r % 64 / 4 * 16 + c % 64 / 4
  }

  predicate AlreadyStored(pc: Pc, a: nat, b: nat) {
    match pc
    case Store(a', b') => a < a' || (a == a' && b < b')
    case Done => true
    case _ => false
  }

  lemma {:induction false} Coordinate(v: nat, tile: nat, lane: nat, e: nat)
    requires lane < 16 && e < 4
    ensures v == tile * 64 + lane * 4 + e <==> tile == v / 64 && lane == v % 64 / 4 && e == v % 4
  {
  }

  lemma {:induction false} Lanes(ty: nat, tx: nat, tid: nat)
    requires ty < 16 && tx < 16
    ensures tid == ty * 16 + tx <==> ty == tid / 16 && tx == tid % 16
  {
  }

  lemma {:induction false} OwnerIsTheStorer(r: nat, c: nat, bc: nat, br: nat, tid: nat, a: nat, b: nat)
    requires tid < THREADS && a < 4 && b < 4
    ensures OwnerThread(r, c) < THREADS
    ensures r == CellRow(br, tid, a) && c == CellCol(bc, tid, b) <==>
            (bc, br) == OwnerBlock(r, c) && tid == OwnerThread(r, c) && a == r % 4 && b == c % 4
  {
    Coordinate(r, br, tid / 16, a);
    Coordinate(c, bc, tid % 16, b);
    Lanes(r % 64 / 4, c % 64 / 4, tid);
  }

  // Whether the owner has stored the cell.
  predicate Marked<F>(g: Grid<F>, r: nat, c: nat)
    requires OwnerBlock(r, c) in g.blocks && |g.blocks[OwnerBlock(r, c)].threads| == THREADS
  {
    AlreadyStored(g.blocks[OwnerBlock(r, c)].threads[OwnerThread(r, c)].pc, r % 4, c % 4)
  }

  ghost predicate CellInv<F>(p: Problem<F>, g: Grid<F>, y0: seq<F>, r: nat, c: nat)
    requires p.Valid() && WellShapedGrid(p, g) && |y0| == p.rows * p.n && r < p.rows && c < p.n
  {
    FlatInBounds(r, p.n, c, p.rows);
    var i := Flat(r, p.n, c);
    assert OwnerBlock(r, c) in g.blocks;
    && g.writes[i] == (if Marked(g, r, c) then 1 else 0)
    && g.y[i] == (if Marked(g, r, c) then Dot(p, r, c, p.k) else y0[i])
  }

  ghost predicate GridInv<F>(p: Problem<F>, g: Grid<F>, y0: seq<F>)
    requires p.Valid()
  {
    && WellShapedGrid(p, g)
    && |y0| == p.rows * p.n
    && (forall at | at in g.blocks :: BlockInv(p, at.0, at.1, g.blocks[at]))
    && forall r: nat, c: nat | r < p.rows && c < p.n :: CellInv(p, g, y0, r, c)
  }

  lemma {:induction false} InitialBlockInv<F>(p: Problem<F>, g: Grid<F>, at: (nat, nat))
    requires p.Valid() && InitialGrid(p, g) && at in g.blocks
    ensures BlockInv(p, at.0, at.1, g.blocks[at])
  {
    var b := g.blocks[at];
    forall i | 0 <= i < THREADS ensures ThreadInv(p, at.0, at.1, b, i) {
      var th := b.threads[i];
      assert th.pc == TileStart(p.k, 0, i);
      forall a: nat, c: nat | a < 4 && c < 4
        ensures th.acc[a * 4 + c] ==
                PadDot(p, CellRow(at.1, i, a), CellCol(at.0, i, c), Absorbed(p.k, th.pc, a, c))
      {
      }
      forall t: nat | t < TILE_CELLS && t % THREADS == i
        ensures CellStaged(p, at.0, at.1, b, th.pc, t)
      {
        SameResidue(t, i);
      }
    }
  }

  lemma {:induction false} InitialInv<F>(p: Problem<F>, g: Grid<F>)
    requires p.Valid() && InitialGrid(p, g)
    ensures GridInv(p, g, g.y)
  {
    forall at | at in g.blocks ensures BlockInv(p, at.0, at.1, g.blocks[at]) {
      InitialBlockInv(p, g, at);
    }
    forall r: nat, c: nat | r < p.rows && c < p.n ensures CellInv(p, g, g.y, r, c) {
      FlatInBounds(r, p.n, c, p.rows);
      assert OwnerBlock(r, c) in g.blocks;
      assert g.blocks[OwnerBlock(r, c)].threads[OwnerThread(r, c)].pc == TileStart(p.k, 0, OwnerThread(r, c));
    }
  }

  // A step that is not the store of cell (r, c) leaves that cell alone.
  lemma {:induction false} OutputUntouched<F>(p: Problem<F>, g: Grid<F>, choice: Choice, r: nat, c: nat)
    requires p.Valid() && WellShapedGrid(p, g) && r < p.rows && c < p.n && CanRun(p, g, choice)
    requires var pc := g.blocks[choice.at].threads[choice.tid].pc;
             !(pc.Store? && CellRow(choice.at.1, choice.tid, pc.a) == r && CellCol(choice.at.0, choice.tid, pc.b) == c)
    ensures Flat(r, p.n, c) < p.rows * p.n
    ensures var g' := NextGrid(p, g, choice.at, choice.tid);
            g'.y[Flat(r, p.n, c)] == g.y[Flat(r, p.n, c)] && g'.writes[Flat(r, p.n, c)] == g.writes[Flat(r, p.n, c)]
  {
    var at, tid := choice.at, choice.tid;
    var pc := g.blocks[at].threads[tid].pc;
    FlatInBounds(r, p.n, c, p.rows);
    if Stores(p, g.blocks[at], at.0, at.1, tid) {
      if StoreIndex(p, g.blocks[at], at.0, at.1, tid) == Flat(r, p.n, c) {
        FlatInjective(CellRow(at.1, tid, pc.a), CellCol(at.0, tid, pc.b), r, c, p.n);
      }
    }
  }

  lemma {:induction false} StoredUnchanged<F>(p: Problem<F>, b: Block<F>, at: (nat, nat), tid: nat, r: nat, c: nat)
    requires p.Valid() && InRange(p.k, b) && tid < THREADS && r < p.rows
    requires at == OwnerBlock(r, c) && tid == OwnerThread(r, c)
    requires var pc := b.threads[tid].pc;
             !(pc.Store? && CellRow(at.1, tid, pc.a) == r && CellCol(at.0, tid, pc.b) == c)
    ensures AlreadyStored(NextThread(p, b, at.1, tid).pc, r % 4, c % 4) ==
            AlreadyStored(b.threads[tid].pc, r % 4, c % 4)
  {
    OwnerIsTheStorer(r, c, at.0, at.1, tid, r % 4, c % 4);
  }

  lemma {:induction false} CellUntouched<F>(p: Problem<F>, g: Grid<F>, y0: seq<F>, choice: Choice, r: nat, c: nat)
    requires p.Valid() && WellShapedGrid(p, g) && |y0| == p.rows * p.n && r < p.rows && c < p.n
    requires CanRun(p, g, choice) && WellShapedGrid(p, NextGrid(p, g, choice.at, choice.tid))
    requires CellInv(p, g, y0, r, c)
    requires var pc := g.blocks[choice.at].threads[choice.tid].pc;
             !(pc.Store? && CellRow(choice.at.1, choice.tid, pc.a) == r && CellCol(choice.at.0, choice.tid, pc.b) == c)
    ensures CellInv(p, NextGrid(p, g, choice.at, choice.tid), y0, r, c)
  {
    OutputUntouched(p, g, choice, r, c);
    MarkUntouched(p, g, choice, r, c);
  }

  lemma {:induction false} MarkUntouched<F>(p: Problem<F>, g: Grid<F>, choice: Choice, r: nat, c: nat)
    requires p.Valid() && WellShapedGrid(p, g) && r < p.rows && c < p.n && CanRun(p, g, choice)
    requires OwnerBlock(r, c) in g.blocks
    requires var pc := g.blocks[choice.at].threads[choice.tid].pc;
             !(pc.Store? && CellRow(choice.at.1, choice.tid, pc.a) == r && CellCol(choice.at.0, choice.tid, pc.b) == c)
    ensures Marked(NextGrid(p, g, choice.at, choice.tid), r, c) == Marked(g, r, c)
  {
    var at, tid := OwnerBlock(r, c), OwnerThread(r, c);
    ThreadAfterStep(p, g, choice, at, tid);
    if choice.at == at && choice.tid == tid {
      StoredUnchanged(p, g.blocks[at], at, tid, r, c);
    }
  }

  // A step moves the chosen thread and no other.
  lemma {:induction false} ThreadAfterStep<F>(p: Problem<F>, g: Grid<F>, choice: Choice, at: (nat, nat), tid: nat)
    requires p.Valid() && WellShapedGrid(p, g) && CanRun(p, g, choice) && at in g.blocks && tid < THREADS
    ensures var g' := NextGrid(p, g, choice.at, choice.tid);
            && at in g'.blocks && |g'.blocks[at].threads| == THREADS
            && g'.blocks[at].threads[tid] ==
                 if choice == Choice(at, tid) then NextThread(p, g.blocks[at], at.1, tid) else g.blocks[at].threads[tid]
  {
  }

  lemma {:induction false} CellStored<F>(p: Problem<F>, g: Grid<F>, y0: seq<F>, choice: Choice, r: nat, c: nat)
    requires p.Valid() && WellShapedGrid(p, g) && |y0| == p.rows * p.n && r < p.rows && c < p.n
    requires CanRun(p, g, choice) && WellShapedGrid(p, NextGrid(p, g, choice.at, choice.tid))
    requires CellInv(p, g, y0, r, c)
    requires AccumulatorsHold(p, choice.at.0, choice.at.1, choice.tid, g.blocks[choice.at].threads[choice.tid])
    requires var pc := g.blocks[choice.at].threads[choice.tid].pc;
             pc.Store? && CellRow(choice.at.1, choice.tid, pc.a) == r && CellCol(choice.at.0, choice.tid, pc.b) == c
    ensures CellInv(p, NextGrid(p, g, choice.at, choice.tid), y0, r, c)
  {
    StoreReachesOutput(p, g, choice, r, c);
    StoreIsMarked(p, g.blocks[choice.at], choice.at, choice.tid, r, c);
  }

  // A storing thread's register holds the finished fold of its cell.
  lemma {:induction false} StoredFold<F>(p: Problem<F>, at: (nat, nat), tid: nat, th: Thread<F>, r: nat, c: nat)
    requires p.Valid() && r < p.rows && c < p.n && tid < THREADS && |th.acc| == 16
    requires th.pc.Store? && th.pc.a < 4 && th.pc.b < 4 && AccumulatorsHold(p, at.0, at.1, tid, th)
    requires CellRow(at.1, tid, th.pc.a) == r && CellCol(at.0, tid, th.pc.b) == c
    ensures th.acc[th.pc.a * 4 + th.pc.b] == Dot(p, r, c, p.k)
  {
    PadDotIsDot(p, r, c, p.k);
    assert th.acc[th.pc.a * 4 + th.pc.b] == PadDot(p, r, c, p.k);
  }

  // The store puts the finished fold into the cell and counts one write.
  lemma {:induction false} StoreReachesOutput<F>(p: Problem<F>, g: Grid<F>, choice: Choice, r: nat, c: nat)
    requires p.Valid() && WellShapedGrid(p, g) && r < p.rows && c < p.n && CanRun(p, g, choice)
    requires AccumulatorsHold(p, choice.at.0, choice.at.1, choice.tid, g.blocks[choice.at].threads[choice.tid])
    requires var pc := g.blocks[choice.at].threads[choice.tid].pc;
             pc.Store? && CellRow(choice.at.1, choice.tid, pc.a) == r && CellCol(choice.at.0, choice.tid, pc.b) == c
    ensures var g', i := NextGrid(p, g, choice.at, choice.tid), Flat(r, p.n, c);
            i < p.rows * p.n && g'.y[i] == Dot(p, r, c, p.k) && g'.writes[i] == g.writes[i] + 1
  {
    FlatInBounds(r, p.n, c, p.rows);
    StoredFold(p, choice.at, choice.tid, g.blocks[choice.at].threads[choice.tid], r, c);
  }

  // The storing thread owns the cell: it counts as stored after the step only.
  lemma {:induction false} StoreIsMarked<F>(p: Problem<F>, b: Block<F>, at: (nat, nat), tid: nat, r: nat, c: nat)
    requires p.Valid() && InRange(p.k, b) && tid < THREADS && r < p.rows
    requires var pc := b.threads[tid].pc;
             pc.Store? && CellRow(at.1, tid, pc.a) == r && CellCol(at.0, tid, pc.b) == c
    ensures at == OwnerBlock(r, c) && tid == OwnerThread(r, c)
    ensures !AlreadyStored(b.threads[tid].pc, r % 4, c % 4)
    ensures AlreadyStored(NextThread(p, b, at.1, tid).pc, r % 4, c % 4)
  {
    var pc := b.threads[tid].pc;
    OwnerIsTheStorer(r, c, at.0, at.1, tid, pc.a, pc.b);
  }

  lemma {:induction false} CellKept<F>(p: Problem<F>, g: Grid<F>, y0: seq<F>, choice: Choice, r: nat, c: nat)
    requires p.Valid() && GridInv(p, g, y0) && CanRun(p, g, choice) && r < p.rows && c < p.n
    requires WellShapedGrid(p, NextGrid(p, g, choice.at, choice.tid))
    ensures CellInv(p, NextGrid(p, g, choice.at, choice.tid), y0, r, c)
  {
    var at, tid := choice.at, choice.tid;
    var pc := g.blocks[at].threads[tid].pc;
    assert CellInv(p, g, y0, r, c);
    assert ThreadInv(p, at.0, at.1, g.blocks[at], tid);
    if pc.Store? && CellRow(at.1, tid, pc.a) == r && CellCol(at.0, tid, pc.b) == c {
      CellStored(p, g, y0, choice, r, c);
    } else {
      CellUntouched(p, g, y0, choice, r, c);
    }
  }

  lemma {:induction false} BlockInvInRange<F>(p: Problem<F>, at: (nat, nat), b: Block<F>)
    requires p.Valid() && BlockInv(p, at.0, at.1, b)
    ensures InRange(p.k, b)
  {
    forall i | 0 <= i < THREADS ensures PcInRange(p.k, i, b.threads[i].pc) {
      assert ThreadInv(p, at.0, at.1, b, i);
    }
  }

  lemma {:induction false} StepKeepsShape<F>(p: Problem<F>, g: Grid<F>, choice: Choice)
    requires p.Valid() && WellShapedGrid(p, g) && CanRun(p, g, choice)
    requires InRange(p.k, NextBlock(p, g.blocks[choice.at], choice.at.0, choice.at.1, choice.tid))
    ensures WellShapedGrid(p, NextGrid(p, g, choice.at, choice.tid))
  {
    var g' := NextGrid(p, g, choice.at, choice.tid);
    assert g'.blocks.Keys == g.blocks.Keys;
  }

  lemma {:induction false} StepKeepsInv<F>(p: Problem<F>, g: Grid<F>, y0: seq<F>, choice: Choice)
    requires p.Valid() && GridInv(p, g, y0) && CanRun(p, g, choice)
    ensures GridInv(p, NextGrid(p, g, choice.at, choice.tid), y0)
  {
    var at, g' := choice.at, NextGrid(p, g, choice.at, choice.tid);
    BlockStepKeepsInv(p, at.0, at.1, g.blocks[at], choice.tid);
    BlockInvInRange(p, at, g'.blocks[at]);
    StepKeepsShape(p, g, choice);
    forall r: nat, c: nat | r < p.rows && c < p.n ensures CellInv(p, g', y0, r, c) {
      CellKept(p, g, y0, choice, r, c);
    }
  }

  lemma {:induction false} RunKeepsInv<F>(p: Problem<F>, g: Grid<F>, y0: seq<F>, schedule: seq<Choice>, g': Grid<F>)
    requires p.Valid() && GridInv(p, g, y0) && Runs(p, g, schedule, g')
    ensures GridInv(p, g', y0)
    decreases |schedule|
  {
    if schedule != [] {
      StepKeepsInv(p, g, y0, schedule[0]);
      RunKeepsInv(p, NextGrid(p, g, schedule[0].at, schedule[0].tid), y0, schedule[1..], g');
    }
  }

  // ------------------------------------------------------------ main results

  lemma {:induction false} FinishedCell<F>(p: Problem<F>, g: Grid<F>, y0: seq<F>, r: nat, c: nat)
    requires p.Valid() && GridInv(p, g, y0) && Finished(g) && r < p.rows && c < p.n
    ensures Flat(r, p.n, c) < |g.y| == |g.writes|
    ensures g.y[Flat(r, p.n, c)] == Dot(p, r, c, p.k) && g.writes[Flat(r, p.n, c)] == 1
  {
    FlatInBounds(r, p.n, c, p.rows);
    assert CellInv(p, g, y0, r, c);
    assert OwnerBlock(r, c) in g.blocks;
  }

  lemma {:induction false} FinishedOutput<F>(p: Problem<F>, g: Grid<F>, y0: seq<F>)
    requires p.Valid() && GridInv(p, g, y0) && Finished(g)
    ensures IsProduct(p, g.y)
  {
    forall r: nat, c: nat | r < p.rows && c < p.n
      ensures Flat(r, p.n, c) < |g.y| && g.y[Flat(r, p.n, c)] == Dot(p, r, c, p.k)
    {
      FinishedCell(p, g, y0, r, c);
    }
  }

  lemma {:induction false} FinishedWrites<F>(p: Problem<F>, g: Grid<F>, y0: seq<F>, i: nat)
    requires p.Valid() && GridInv(p, g, y0) && Finished(g) && i < |g.writes|
    ensures g.writes[i] == 1
  {
    var r, c := Unflatten(i, p.rows, p.n);
    FinishedCell(p, g, y0, r, c);
  }

  // Whatever the interleaving of blocks and threads, a finished run has
  // written every output cell exactly once, with the naive kernel's fold.
  lemma {:induction false} TiledRefinesNaive<F>(p: Problem<F>, g: Grid<F>, schedule: seq<Choice>, g': Grid<F>)
    requires p.Valid() && InitialGrid(p, g) && Runs(p, g, schedule, g') && Finished(g')
    ensures IsProduct(p, g'.y)
    ensures |g'.writes| == p.rows * p.n && forall i | 0 <= i < |g'.writes| :: g'.writes[i] == 1
  {
    InitialInv(p, g);
    RunKeepsInv(p, g, g.y, schedule, g');
    FinishedOutput(p, g', g.y);
    forall i | 0 <= i < |g'.writes| ensures g'.writes[i] == 1 {
      FinishedWrites(p, g', g.y, i);
    }
  }

  // The result does not depend on the schedule, nor on what shared memory, the
  // registers and the output held at launch.
  lemma {:induction false} ResultIsScheduleIndependent<F>(
    p: Problem<F>, g: Grid<F>, s: seq<Choice>, g': Grid<F>, h: Grid<F>, t: seq<Choice>, h': Grid<F>)
    requires p.Valid() && InitialGrid(p, g) && InitialGrid(p, h)
    requires Runs(p, g, s, g') && Finished(g') && Runs(p, h, t, h') && Finished(h')
    ensures g'.y == h'.y
  {
    TiledRefinesNaive(p, g, s, g');
    TiledRefinesNaive(p, h, t, h');
    ProductIsUnique(p, g'.y, h'.y);
  }

  // -------------------------------------------------- progress, termination

  lemma {:induction false} LaggardIsEnabled<F>(
    p: Problem<F>, bc: nat, br: nat, b: Block<F>, upTo: nat)
    returns (tid: nat)
    requires p.Valid() && BlockInv(p, bc, br, b) && 0 < upTo <= THREADS
    ensures tid < upTo
    ensures forall j | 0 <= j < upTo :: b.threads[tid].barriers <= b.threads[j].barriers
    ensures forall j | 0 <= j < upTo ::
              b.threads[j].barriers == b.threads[tid].barriers && b.threads[tid].pc.Done? ==> b.threads[j].pc.Done?
  {
    tid := 0;
    for i := 1 to upTo
      invariant tid < i
      invariant forall j | 0 <= j < i :: b.threads[tid].barriers <= b.threads[j].barriers
      invariant forall j | 0 <= j < i ::
          b.threads[j].barriers == b.threads[tid].barriers && b.threads[tid].pc.Done? ==> b.threads[j].pc.Done?
    {
      var th, best := b.threads[i], b.threads[tid];
      if th.barriers < best.barriers || (th.barriers == best.barriers && best.pc.Done?) {
        tid := i;
      }
    }
  }

  lemma {:induction false} UnfinishedBlockRuns<F>(
    p: Problem<F>, bc: nat, br: nat, b: Block<F>, i: nat)
    returns (tid: nat)
    requires p.Valid() && BlockInv(p, bc, br, b) && i < THREADS && !b.threads[i].pc.Done?
    ensures tid < THREADS && Enabled(b, tid)
  {
    tid := LaggardIsEnabled(p, bc, br, b, THREADS);
    assert ThreadInv(p, bc, br, b, i) && ThreadInv(p, bc, br, b, tid);
  }

  // The barriers never deadlock: an unfinished reachable grid can step.
  lemma {:induction false} NoDeadlock<F>(p: Problem<F>, g: Grid<F>, y0: seq<F>)
    requires p.Valid() && GridInv(p, g, y0) && !Finished(g)
    ensures exists choice :: CanRun(p, g, choice)
  {
    var at :| at in g.blocks && exists i :: 0 <= i < |g.blocks[at].threads| && !g.blocks[at].threads[i].pc.Done?;
    var i :| 0 <= i < THREADS && !g.blocks[at].threads[i].pc.Done?;
    var tid := UnfinishedBlockRuns(p, at.0, at.1, g.blocks[at], i);
    assert CanRun(p, g, Choice(at, tid));
  }

  // Upper bound on the steps a thread still has to take.
  function ThreadWork(k: nat, pc: Pc): nat
    requires match pc { case Store(_, _) => true case Done => true case _ => pc.k0 < k }
  {
    match pc
    case Load(k0, t, weights) =>
      (k - k0) * 6000 + 2000 + (if t < TILE_CELLS then 2 * (TILE_CELLS - t) else 0) + (if weights then 0 else 1)
    case Wait1(k0) => (k - k0) * 6000 + 1900
    case ReadX(k0, kk, a) => (k - k0) * 6000 + 1000 + ComputeWork(kk) + 20 + 4 - Min(a, 4)
    case ReadW(k0, kk, b) => (k - k0) * 6000 + 1000 + ComputeWork(kk) + 16 + 4 - Min(b, 4)
    case Mac(k0, kk, a, b) => (k - k0) * 6000 + 1000 + ComputeWork(kk) + 16 - Min(a * 4 + b, 16)
    case Wait2(k0) => (k - k0) * 6000 + 500
    case Store(a, b) => 17 - Min(a * 4 + b, 16)
    case Done => 0
  }

  function ComputeWork(kk: nat): nat {
    if kk < 16 then (16 - kk) * 40 else 0
  }

  // How often a schedule picks one thread.
  function Turns(schedule: seq<Choice>, choice: Choice): nat {
    if schedule == [] then 0
    else (if schedule[0] == choice then 1 else 0) + Turns(schedule[1..], choice)
  }

  ghost function WorkLeft<F>(p: Problem<F>, g: Grid<F>, y0: seq<F>, choice: Choice): nat
    requires p.Valid() && GridInv(p, g, y0) && choice.at in g.blocks && choice.tid < THREADS
  {
    assert ThreadInv(p, choice.at.0, choice.at.1, g.blocks[choice.at], choice.tid);
    ThreadWork(p.k, g.blocks[choice.at].threads[choice.tid].pc)
  }

  lemma {:induction false} PcSpendsWork(k: nat, rows: nat, br: nat, tid: nat, pc: Pc)
    requires tid < THREADS && PcInRange(k, tid, pc) && !pc.Done?
    ensures PcInRange(k, tid, NextPc(k, rows, br, tid, pc))
    ensures ThreadWork(k, NextPc(k, rows, br, tid, pc)) < ThreadWork(k, pc)
  {
    NextPcInRange(k, rows, br, tid, pc);
  }

  lemma {:induction false} StepSpendsWork<F>(p: Problem<F>, g: Grid<F>, y0: seq<F>, choice: Choice)
    requires p.Valid() && GridInv(p, g, y0) && CanRun(p, g, choice)
    ensures GridInv(p, NextGrid(p, g, choice.at, choice.tid), y0)
    ensures WorkLeft(p, NextGrid(p, g, choice.at, choice.tid), y0, choice) < WorkLeft(p, g, y0, choice)
  {
    StepKeepsInv(p, g, y0, choice);
    assert ThreadInv(p, choice.at.0, choice.at.1, g.blocks[choice.at], choice.tid);
    PcSpendsWork(p.k, p.rows, choice.at.1, choice.tid, g.blocks[choice.at].threads[choice.tid].pc);
  }

  lemma {:induction false} TurnsSpendWork<F>(
    p: Problem<F>, g: Grid<F>, y0: seq<F>, schedule: seq<Choice>, g': Grid<F>, choice: Choice)
    requires p.Valid() && GridInv(p, g, y0) && Runs(p, g, schedule, g')
    requires choice.at in g.blocks && choice.tid < THREADS
    ensures Turns(schedule, choice) <= WorkLeft(p, g, y0, choice)
    decreases |schedule|
  {
    if schedule != [] {
      var next := NextGrid(p, g, schedule[0].at, schedule[0].tid);
      StepSpendsWork(p, g, y0, schedule[0]);
      TurnsSpendWork(p, next, y0, schedule[1..], g', choice);
    }
  }

  // No run goes on for ever: from launch a thread is scheduled at most
  // 6000 * k + 4050 times, whatever the others do.
  lemma {:induction false} TurnsAreBounded<F>(
    p: Problem<F>, g: Grid<F>, schedule: seq<Choice>, g': Grid<F>, choice: Choice)
    requires p.Valid() && InitialGrid(p, g) && Runs(p, g, schedule, g')
    requires choice.at in g.blocks && choice.tid < THREADS
    ensures Turns(schedule, choice) <= 6000 * p.k + 4050
  {
    InitialInv(p, g);
    TurnsSpendWork(p, g, g.y, schedule, g', choice);
    assert g.blocks[choice.at].threads[choice.tid].pc == TileStart(p.k, 0, choice.tid);
  }
}
