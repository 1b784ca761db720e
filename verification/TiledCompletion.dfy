// Every run of the tiled kernel can be completed, and in a bounded number of
// steps.

module TiledCompletion {
  import opened LinearSpec
  import opened TiledKernel
  import opened TiledRuns

  // ------------------------------------------------------ counting by thread

  function Others(schedule: seq<Choice>, x: Choice): seq<Choice> {
    if schedule == [] then []
    else (if schedule[0] == x then [] else [schedule[0]]) + Others(schedule[1..], x)
  }

  lemma {:induction false} OthersSplit(schedule: seq<Choice>, x: Choice)
    ensures |schedule| == Turns(schedule, x) + |Others(schedule, x)|
    ensures forall c :: c in Others(schedule, x) <==> c in schedule && c != x
  {
    if schedule != [] {
      OthersSplit(schedule[1..], x);
      assert schedule == [schedule[0]] + schedule[1..];
    }
  }

  lemma {:induction false} OthersTurns(schedule: seq<Choice>, x: Choice, c: Choice)
    requires c != x
    ensures Turns(Others(schedule, x), c) == Turns(schedule, c)
  {
    if schedule != [] {
      OthersTurns(schedule[1..], x, c);
      var rest := Others(schedule[1..], x);
      assert ([schedule[0]] + rest)[1..] == rest;
      assert [] + rest == rest;
    }
  }

  // A schedule is as long as its threads and their turns allow.
  lemma {:induction false} LengthIsBounded(schedule: seq<Choice>, threads: set<Choice>, turns: nat)
    requires forall c | c in schedule :: c in threads
    requires forall c | c in threads :: Turns(schedule, c) <= turns
    ensures |schedule| <= |threads| * turns
    decreases |threads|
  {
    assert schedule != [] ==> schedule[0] in schedule && schedule[0] in threads;
    if threads != {} {
      var x :| x in threads;
      var rest := Others(schedule, x);
      OthersSplit(schedule, x);
      forall c | c in threads - {x} ensures Turns(rest, c) <= turns {
        OthersTurns(schedule, x, c);
      }
      LengthIsBounded(rest, threads - {x}, turns);
      OneMore(|threads| - 1, turns);
    }
  }

  lemma {:induction false} OneMore(n: nat, turns: nat)
    ensures (n + 1) * turns == n * turns + turns
  {
  }

  // ------------------------------------------------------ bounded runs

  // The threads of a grid.
  ghost function ThreadsOf<F>(g: Grid<F>): set<Choice> {
    set at, tid: nat | at in g.blocks.Keys && tid in Tids() :: Choice(at, tid)
  }

  predicate InBlock(tid: nat) {
    tid < THREADS
  }

  function Tids(): set<nat> {
    set tid: nat | tid < THREADS && InBlock(tid)
  }

  lemma {:induction false} StepKeepsThreads<F>(p: Problem<F>, g: Grid<F>, choice: Choice)
    requires p.Valid() && WellShapedGrid(p, g) && CanRun(p, g, choice)
    ensures ThreadsOf(NextGrid(p, g, choice.at, choice.tid)) == ThreadsOf(g)
  {
    assert NextGrid(p, g, choice.at, choice.tid).blocks.Keys == g.blocks.Keys;
  }

  lemma {:induction false} RunsOnThreads<F>(p: Problem<F>, g: Grid<F>, schedule: seq<Choice>, g': Grid<F>)
    requires p.Valid() && Runs(p, g, schedule, g')
    ensures forall c | c in schedule :: c in ThreadsOf(g)
    decreases |schedule|
  {
    if schedule != [] {
      StepKeepsThreads(p, g, schedule[0]);
      RunsOnThreads(p, NextGrid(p, g, schedule[0].at, schedule[0].tid), schedule[1..], g');
      assert schedule == [schedule[0]] + schedule[1..];
    }
  }

  ghost function Bound<F>(p: Problem<F>, g: Grid<F>): nat {
    |ThreadsOf(g)| * (6000 * p.k + 4050)
  }

  // From launch no run is longer than the number of threads times a linear
  // function of k.
  lemma {:induction false} RunsAreBounded<F>(p: Problem<F>, g: Grid<F>, schedule: seq<Choice>, g': Grid<F>)
    requires p.Valid() && InitialGrid(p, g) && Runs(p, g, schedule, g')
    ensures |schedule| <= Bound(p, g)
  {
    RunsOnThreads(p, g, schedule, g');
    forall c | c in ThreadsOf(g) ensures Turns(schedule, c) <= 6000 * p.k + 4050 {
      TurnsAreBounded(p, g, schedule, g', c);
    }
    LengthIsBounded(schedule, ThreadsOf(g), 6000 * p.k + 4050);
  }

  // ------------------------------------------------------ completion

  lemma {:induction false} RunOneMore<F>(p: Problem<F>, g: Grid<F>, schedule: seq<Choice>, g': Grid<F>, choice: Choice)
    requires p.Valid() && Runs(p, g, schedule, g') && WellShapedGrid(p, g') && CanRun(p, g', choice)
    ensures Runs(p, g, schedule + [choice], NextGrid(p, g', choice.at, choice.tid))
    decreases |schedule|
  {
    if schedule == [] {
      assert [choice][1..] == [];
    } else {
      RunOneMore(p, NextGrid(p, g, schedule[0].at, schedule[0].tid), schedule[1..], g', choice);
      assert (schedule + [choice])[1..] == schedule[1..] + [choice];
    }
  }

  // However a run from launch began, it can be continued to a finished one,
  // within the bound.
  lemma {:induction false} RunsCanBeCompleted<F>(p: Problem<F>, g: Grid<F>, schedule: seq<Choice>, g': Grid<F>)
    returns (whole: seq<Choice>, end: Grid<F>)
    requires p.Valid() && InitialGrid(p, g) && Runs(p, g, schedule, g')
    ensures schedule <= whole && Runs(p, g, whole, end) && Finished(end) && |whole| <= Bound(p, g)
    decreases Bound(p, g) - |schedule|
  {
    InitialInv(p, g);
    RunKeepsInv(p, g, g.y, schedule, g');
    RunsAreBounded(p, g, schedule, g');
    if Finished(g') {
      whole, end := schedule, g';
    } else {
      NoDeadlock(p, g', g.y);
      var choice :| CanRun(p, g', choice);
      RunOneMore(p, g, schedule, g', choice);
      RunsAreBounded(p, g, schedule + [choice], NextGrid(p, g', choice.at, choice.tid));
      whole, end := RunsCanBeCompleted(p, g, schedule + [choice], NextGrid(p, g', choice.at, choice.tid));
    }
  }

  // So every launch has finished runs, and they all compute the product.
  lemma {:induction false} LaunchFinishes<F>(p: Problem<F>, g: Grid<F>) returns (schedule: seq<Choice>, end: Grid<F>)
    requires p.Valid() && InitialGrid(p, g)
    ensures Runs(p, g, schedule, end) && Finished(end) && IsProduct(p, end.y)
  {
    schedule, end := RunsCanBeCompleted(p, g, [], g);
    TiledRefinesNaive(p, g, schedule, end);
  }
}
