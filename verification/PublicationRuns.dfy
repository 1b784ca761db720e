// Publication without faults, and how long it takes: exactly one publisher wins
// each destination, and every run can be completed within a stated bound.

module PublicationRuns {
  import opened Wrappers
  import opened Publication

  predicate FaultFree(schedule: seq<Action>) {
    forall k | 0 <= k < |schedule| :: schedule[k].Run?
  }

  // No destination is a temporary name of any of the jobs.
  ghost predicate NoCollision(jobs: seq<Job>) {
    forall k | 0 <= k < |jobs| :: Clear(jobs, jobs[k].output)
  }

  // No temporary name that a job can still be given is taken.
  ghost predicate NoStale(jobs: seq<Job>, s: State) {
    forall i, nonce: nat | 0 <= i < |jobs| && Counter(s, jobs[i].pid) <= nonce :: TempPath(jobs[i], nonce) !in s.dir
  }

  // Without faults a publisher fails only where the destination exists, and
  // one that linked succeeds.
  predicate FailsCleanly(jobs: seq<Job>, s: State, i: nat)
    requires |s.publishers| == |jobs| && i < |jobs|
  {
    var p := s.publishers[i];
    (p.pc.Cleanup? || p.pc.Returned?) && !p.pc.ok ==> jobs[i].output in s.dir && !p.linked
  }

  // Who has returned has removed its temporary.
  predicate LeavesNothing(jobs: seq<Job>, s: State, i: nat)
    requires |s.publishers| == |jobs| && i < |jobs|
  {
    s.publishers[i].pc.Returned? ==> !Created(jobs, s, TempName(jobs, s, i), i)
  }

  predicate CleanInv(jobs: seq<Job>, s: State)
    requires |s.publishers| == |jobs|
  {
    && (forall i | 0 <= i < |jobs| :: FailsCleanly(jobs, s, i))
    && (forall i | 0 <= i < |jobs| :: LeavesNothing(jobs, s, i))
  }

  // Two publishers' temporary names differ.
  lemma {:induction false} TemporariesDiffer(jobs: seq<Job>, s0: State, s: State, i: nat, j: nat)
    requires Inv(jobs, s0, s) && i < |jobs| && j < |jobs| && i != j
    requires TookNonce(s.publishers[i]) && TookNonce(s.publishers[j])
    ensures TempName(jobs, s, i) != TempName(jobs, s, j)
  {
    assert Separate(jobs, s, i, j);
    if TempName(jobs, s, i) == TempName(jobs, s, j) {
      TempPathInjective(jobs[i], s.publishers[i].nonce, jobs[j], s.publishers[j].nonce);
    }
  }

  lemma {:induction false} NewTemporaryIsFree(jobs: seq<Job>, s0: State, s: State, i: nat)
    requires Inv(jobs, s0, s) && NoCollision(jobs) && NoStale(jobs, s0)
    requires i < |jobs| && s.publishers[i].pc.Create?
    ensures TempName(jobs, s, i) !in s.dir
  {
    var n := TempName(jobs, s, i);
    assert PublisherInv(jobs, s0, s, i);
    if n in s.dir {
      assert Accounted(jobs, s0, s, n) && n !in s0.dir;
      var j :| 0 <= j < |jobs| && (Linked(jobs, s, n, j) || Created(jobs, s, n, j));
      assert Clear(jobs, jobs[j].output) && Created(jobs, s, n, j);
      assert PublisherInv(jobs, s0, s, j);
      TemporariesDiffer(jobs, s0, s, i, j);
    }
  }

  lemma {:induction false} ClearIsNotHeld(jobs: seq<Job>, s: State, n: Path)
    requires |s.publishers| == |jobs| && Clear(jobs, n)
    ensures !Held(jobs, s, n)
  {
  }

  lemma {:induction false} OthersFailCleanly(jobs: seq<Job>, s0: State, s: State, act: Action, j: nat)
    requires Inv(jobs, s0, s) && CanStep(jobs, s, act) && NoCollision(jobs)
    requires j < |jobs| && j != act.who && FailsCleanly(jobs, s, j)
    ensures |Next(jobs, s, act).publishers| == |jobs| && FailsCleanly(jobs, Next(jobs, s, act), j)
  {
    StepMovesOne(jobs, s, act, j);
    if jobs[j].output in s.dir {
      ClearIsNotHeld(jobs, s, jobs[j].output);
      StepKeepsFile(jobs, s0, s, act, jobs[j].output);
    }
  }

  lemma {:induction false} ActorFailsCleanly(jobs: seq<Job>, s0: State, s: State, act: Action)
    requires Inv(jobs, s0, s) && CanStep(jobs, s, act) && act.Run?
    requires FailsCleanly(jobs, s, act.who)
    requires s.publishers[act.who].pc.Create? ==> TempName(jobs, s, act.who) !in s.dir
    ensures |Next(jobs, s, act).publishers| == |jobs| && FailsCleanly(jobs, Next(jobs, s, act), act.who)
  {
    assert PublisherInv(jobs, s0, s, act.who);
    TempPathIsNotItsOutput(jobs[act.who], s.publishers[act.who].nonce);
  }

  // No step binds a name to the inode of another publisher.
  lemma {:induction false} OthersLeaveNothing(jobs: seq<Job>, s0: State, s: State, act: Action, j: nat)
    requires Inv(jobs, s0, s) && CanStep(jobs, s, act) && Inv(jobs, s0, Next(jobs, s, act))
    requires j < |jobs| && j != act.who && LeavesNothing(jobs, s, j)
    ensures LeavesNothing(jobs, Next(jobs, s, act), j)
  {
    var s', n := Next(jobs, s, act), TempName(jobs, s, j);
    StepMovesOne(jobs, s, act, j);
    StepRebindsNothing(jobs, s, act);
    if n !in s.dir && n in s'.dir {
      NewNameIsAccounted(jobs, s, act, n);
      assert PublisherInv(jobs, s0, s', act.who) && Separate(jobs, s', act.who, j);
    }
  }

  lemma {:induction false} ActorLeavesNothing(jobs: seq<Job>, s0: State, s: State, act: Action)
    requires Inv(jobs, s0, s) && CanStep(jobs, s, act) && act.Run?
    ensures |Next(jobs, s, act).publishers| == |jobs| && LeavesNothing(jobs, Next(jobs, s, act), act.who)
  {
    assert PublisherInv(jobs, s0, s, act.who);
  }

  lemma {:induction false} CleanStep(jobs: seq<Job>, s0: State, s: State, act: Action)
    requires Inv(jobs, s0, s) && CanStep(jobs, s, act) && CleanInv(jobs, s) && act.Run?
    requires NoCollision(jobs) && NoStale(jobs, s0) && Inv(jobs, s0, Next(jobs, s, act))
    ensures CleanInv(jobs, Next(jobs, s, act))
  {
    var s', i := Next(jobs, s, act), act.who;
    if s.publishers[i].pc.Create? {
      NewTemporaryIsFree(jobs, s0, s, i);
    }
    forall j | 0 <= j < |jobs| ensures FailsCleanly(jobs, s', j) && LeavesNothing(jobs, s', j) {
      assert FailsCleanly(jobs, s, j) && LeavesNothing(jobs, s, j);
      if j == i {
        ActorFailsCleanly(jobs, s0, s, act);
        ActorLeavesNothing(jobs, s0, s, act);
      } else {
        OthersFailCleanly(jobs, s0, s, act, j);
        OthersLeaveNothing(jobs, s0, s, act, j);
      }
    }
  }

  lemma {:induction false} CleanRun(jobs: seq<Job>, s0: State, s: State, schedule: seq<Action>, s': State)
    requires Inv(jobs, s0, s) && CleanInv(jobs, s) && Runs(jobs, s, schedule, s') && FaultFree(schedule)
    requires NoCollision(jobs) && NoStale(jobs, s0)
    ensures Inv(jobs, s0, s') && CleanInv(jobs, s')
    decreases |schedule|
  {
    if schedule != [] {
      StepKeepsInv(jobs, s0, s, schedule[0]);
      CleanStep(jobs, s0, s, schedule[0]);
      CleanRun(jobs, s0, Next(jobs, s, schedule[0]), schedule[1..], s');
    }
  }

  predicate AllReturned(jobs: seq<Job>, s: State) {
    |s.publishers| == |jobs| && forall i | 0 <= i < |jobs| :: s.publishers[i].pc.Returned?
  }

  predicate Wins(jobs: seq<Job>, s: State, path: Path, w: nat)
    requires |s.publishers| == |jobs| && w < |jobs|
  {
    jobs[w].output == path && Succeeded(s.publishers[w])
  }

  ghost predicate HasOneWinner(jobs: seq<Job>, s: State, path: Path)
    requires |s.publishers| == |jobs|
  {
    exists w :: 0 <= w < |jobs| && Wins(jobs, s, path, w)
                && forall j | 0 <= j < |jobs| && j != w :: !Wins(jobs, s, path, j)
  }

  // No collision, no stale temporary, no faults, and everyone has returned:
  // each destination that was absent and wanted by someone has exactly one
  // winner, and every new name is a destination.
  lemma {:induction false} ExactlyOneWinner(jobs: seq<Job>, s0: State, schedule: seq<Action>, s: State, someone: nat)
    requires NoCollision(jobs) && NoStale(jobs, s0)
    requires Initial(jobs, s0) && Runs(jobs, s0, schedule, s) && FaultFree(schedule) && AllReturned(jobs, s)
    requires someone < |jobs| && jobs[someone].output !in s0.dir
    ensures HasOneWinner(jobs, s, jobs[someone].output)
    ensures forall n | n in s.dir && n !in s0.dir :: exists i :: 0 <= i < |jobs| && Linked(jobs, s, n, i)
  {
    InitialInv(jobs, s0);
    CleanRun(jobs, s0, s0, schedule, s);
    var path := jobs[someone].output;
    forall n | n in s.dir && n !in s0.dir ensures exists i :: 0 <= i < |jobs| && Linked(jobs, s, n, i) {
      NewNameIsLinked(jobs, s0, s, n);
    }
    assert PublisherInv(jobs, s0, s, someone) && FailsCleanly(jobs, s, someone);
    var w :| 0 <= w < |jobs| && Linked(jobs, s, path, w);
    assert FailsCleanly(jobs, s, w) && Wins(jobs, s, path, w);
    forall j | 0 <= j < |jobs| && j != w ensures !Wins(jobs, s, path, j) {
      if jobs[j].output == path {
        AtMostOneWinner(jobs, s0, schedule, s, w, j);
      }
    }
  }

  lemma {:induction false} NewNameIsLinked(jobs: seq<Job>, s0: State, s: State, n: Path)
    requires Inv(jobs, s0, s) && CleanInv(jobs, s) && AllReturned(jobs, s) && n in s.dir && n !in s0.dir
    ensures exists i :: 0 <= i < |jobs| && Linked(jobs, s, n, i)
  {
    assert Accounted(jobs, s0, s, n);
    var i :| 0 <= i < |jobs| && (Linked(jobs, s, n, i) || Created(jobs, s, n, i));
    assert LeavesNothing(jobs, s, i);
  }

  // ------------------------------------------------------------- termination

  function StepsLeft(job: Job, pc: Pc): nat {
    match pc
    case Validate => |job.payload| + 7
    case TakeNonce => |job.payload| + 6
    case Create => |job.payload| + 5
    case Write(written) => if written <= |job.payload| then |job.payload| - written + 4 else 4
    case Link => 3
    case ReadBack => 2
    case Cleanup(_) => 1
    case Returned(_) => 0
  }

  // Every unfinished publisher can always move, with or without a fault-free
  // outcome, and each of its moves brings it closer to returning.
  lemma {:induction false} NobodyBlocks(jobs: seq<Job>, s0: State, s: State, i: nat)
    requires Inv(jobs, s0, s) && i < |jobs| && !s.publishers[i].pc.Returned?
    ensures exists chunk :: CanStep(jobs, s, Run(i, chunk))
    ensures forall act | CanStep(jobs, s, act) && act.who == i ::
              StepsLeft(jobs[i], Next(jobs, s, act).publishers[i].pc) < StepsLeft(jobs[i], s.publishers[i].pc)
  {
    var pc := s.publishers[i].pc;
    assert PublisherInv(jobs, s0, s, i);
    assert CanStep(jobs, s, Run(i, if pc.Write? then |jobs[i].payload| - pc.written else 1));
    forall act | CanStep(jobs, s, act) && act.who == i
      ensures StepsLeft(jobs[i], Next(jobs, s, act).publishers[i].pc) < StepsLeft(jobs[i], s.publishers[i].pc)
    {
      StepSpends(jobs, s, act);
    }
  }

  lemma {:induction false} StepSpends(jobs: seq<Job>, s: State, act: Action)
    requires Consistent(jobs, s) && CanStep(jobs, s, act)
    ensures |Next(jobs, s, act).publishers| == |jobs|
    ensures StepsLeft(jobs[act.who], Next(jobs, s, act).publishers[act.who].pc) <
            StepsLeft(jobs[act.who], s.publishers[act.who].pc)
  {
    if act.Fault? {
      FaultSpends(jobs, s, act);
    } else {
      RunSpends(jobs, s, act);
    }
  }

  lemma {:induction false} FaultSpends(jobs: seq<Job>, s: State, act: Action)
    requires Consistent(jobs, s) && CanStep(jobs, s, act) && act.Fault?
    ensures StepsLeft(jobs[act.who], Next(jobs, s, act).publishers[act.who].pc) <
            StepsLeft(jobs[act.who], s.publishers[act.who].pc)
  {
  }

  lemma {:induction false} RunSpends(jobs: seq<Job>, s: State, act: Action)
    requires Consistent(jobs, s) && CanStep(jobs, s, act) && act.Run?
    ensures StepsLeft(jobs[act.who], Next(jobs, s, act).publishers[act.who].pc) <
            StepsLeft(jobs[act.who], s.publishers[act.who].pc)
  {
    var job, pc, next := jobs[act.who], s.publishers[act.who].pc, Next(jobs, s, act).publishers[act.who].pc;
    if pc.Write? {
      assert next == if pc.written == |job.payload| then Link else Write(pc.written + act.chunk);
    } else {
      assert pc.Validate? ==> next.TakeNonce? || next.Returned?;
      assert pc.TakeNonce? ==> next.Create?;
      assert pc.Create? ==> next == Write(0) || next.Returned?;
      assert pc.Link? ==> next.ReadBack? || next.Cleanup?;
      assert pc.ReadBack? ==> next.Cleanup?;
      assert pc.Cleanup? ==> next.Returned?;
    }
  }

  // The steps the first n publishers have left.
  function TotalLeft(jobs: seq<Job>, s: State, n: nat): nat
    requires n <= |jobs| == |s.publishers|
  {
    if n == 0 then 0 else TotalLeft(jobs, s, n - 1) + StepsLeft(jobs[n - 1], s.publishers[n - 1].pc)
  }

  lemma {:induction false} TotalFalls(jobs: seq<Job>, s: State, s': State, who: nat, n: nat)
    requires n <= |jobs| == |s.publishers| == |s'.publishers| && who < |jobs|
    requires StepsLeft(jobs[who], s'.publishers[who].pc) < StepsLeft(jobs[who], s.publishers[who].pc)
    requires forall j | 0 <= j < |jobs| && j != who :: s'.publishers[j] == s.publishers[j]
    ensures TotalLeft(jobs, s', n) + (if who < n then 1 else 0) <= TotalLeft(jobs, s, n)
  {
    if n > 0 {
      TotalFalls(jobs, s, s', who, n - 1);
    }
  }

  lemma {:induction false} StepSpendsTotal(jobs: seq<Job>, s: State, act: Action)
    requires Consistent(jobs, s) && CanStep(jobs, s, act)
    ensures |Next(jobs, s, act).publishers| == |jobs|
    ensures TotalLeft(jobs, Next(jobs, s, act), |jobs|) < TotalLeft(jobs, s, |jobs|)
  {
    var s' := Next(jobs, s, act);
    StepSpends(jobs, s, act);
    forall j | 0 <= j < |jobs| && j != act.who ensures s'.publishers[j] == s.publishers[j] {
      StepMovesOne(jobs, s, act, j);
    }
    TotalFalls(jobs, s, s', act.who, |jobs|);
  }

  lemma {:induction false} RunSpendsTotal(jobs: seq<Job>, s: State, schedule: seq<Action>, s': State)
    requires |s.publishers| == |jobs| && Runs(jobs, s, schedule, s')
    ensures |s'.publishers| == |jobs|
    ensures |schedule| + TotalLeft(jobs, s', |jobs|) <= TotalLeft(jobs, s, |jobs|)
    decreases |schedule|
  {
    if schedule != [] {
      StepSpendsTotal(jobs, s, schedule[0]);
      RunSpendsTotal(jobs, Next(jobs, s, schedule[0]), schedule[1..], s');
    }
  }

  // A write takes at least one byte, and there are seven other steps to a call.
  function Bound(jobs: seq<Job>): nat {
    if jobs == [] then 0 else Bound(jobs[..|jobs| - 1]) + |jobs[|jobs| - 1].payload| + 7
  }

  lemma {:induction false} InitialTotal(jobs: seq<Job>, s: State, n: nat)
    requires Initial(jobs, s) && n <= |jobs|
    ensures TotalLeft(jobs, s, n) == Bound(jobs[..n])
  {
    if n > 0 {
      InitialTotal(jobs, s, n - 1);
      assert jobs[..n][..n - 1] == jobs[..n - 1];
    }
  }

  // No run is longer than the payloads allow.
  lemma {:induction false} RunsAreBounded(jobs: seq<Job>, s0: State, schedule: seq<Action>, s: State)
    requires Initial(jobs, s0) && Runs(jobs, s0, schedule, s)
    ensures |schedule| <= Bound(jobs)
  {
    RunSpendsTotal(jobs, s0, schedule, s);
    InitialTotal(jobs, s0, |jobs|);
    assert jobs[..|jobs|] == jobs;
  }

  lemma {:induction false} RunsFrom(
    jobs: seq<Job>, s: State, act: Action, middle: State, rest: seq<Action>, s': State)
    requires Consistent(jobs, s) && CanStep(jobs, s, act) && middle == Next(jobs, s, act)
    requires Runs(jobs, middle, rest, s')
    ensures Runs(jobs, s, [act] + rest, s')
  {
    assert ([act] + rest)[1..] == rest;
  }

  lemma {:induction false} Regroup(first: seq<Action>, second: seq<Action>)
    requires first != []
    ensures [first[0]] + (first[1..] + second) == first + second
  {
  }

  lemma {:induction false} RunsJoin(
    jobs: seq<Job>, s: State, first: seq<Action>, middle: State, second: seq<Action>, s': State)
    requires Runs(jobs, s, first, middle) && Runs(jobs, middle, second, s')
    ensures Runs(jobs, s, first + second, s')
    decreases |first|
  {
    if first == [] {
      assert first + second == second;
    } else {
      var t := Next(jobs, s, first[0]);
      RunsJoin(jobs, t, first[1..], middle, second, s');
      RunsFrom(jobs, s, first[0], t, first[1..] + second, s');
      Regroup(first, second);
    }
  }

  lemma {:induction false} OneStepRuns(jobs: seq<Job>, s: State, act: Action)
    requires Consistent(jobs, s) && CanStep(jobs, s, act)
    ensures Runs(jobs, s, [act], Next(jobs, s, act))
  {
    RunsFrom(jobs, s, act, Next(jobs, s, act), [], Next(jobs, s, act));
  }

  lemma {:induction false} Finish(jobs: seq<Job>, s0: State, s: State) returns (rest: seq<Action>, end: State)
    requires Inv(jobs, s0, s)
    ensures Runs(jobs, s, rest, end) && FaultFree(rest) && AllReturned(jobs, end)
    decreases TotalLeft(jobs, s, |jobs|)
  {
    if AllReturned(jobs, s) {
      rest, end := [], s;
    } else {
      var i :| 0 <= i < |jobs| && !s.publishers[i].pc.Returned?;
      NobodyBlocks(jobs, s0, s, i);
      var chunk :| CanStep(jobs, s, Run(i, chunk));
      var act := Run(i, chunk);
      StepKeepsInv(jobs, s0, s, act);
      StepSpendsTotal(jobs, s, act);
      var later: seq<Action>;
      later, end := Finish(jobs, s0, Next(jobs, s, act));
      OneStepRuns(jobs, s, act);
      RunsJoin(jobs, s, [act], Next(jobs, s, act), later, end);
      rest := [act] + later;
    }
  }

  // However a run began, it can be continued without any further fault until
  // everyone has returned, within the bound.
  lemma {:induction false} RunsCanBeCompleted(jobs: seq<Job>, s0: State, before: seq<Action>, s: State)
    returns (rest: seq<Action>, end: State)
    requires Initial(jobs, s0) && Runs(jobs, s0, before, s)
    ensures Runs(jobs, s, rest, end) && FaultFree(rest) && AllReturned(jobs, end)
    ensures Runs(jobs, s0, before + rest, end) && |before + rest| <= Bound(jobs)
  {
    InitialInv(jobs, s0);
    RunKeepsInv(jobs, s0, s0, before, s);
    rest, end := Finish(jobs, s0, s);
    RunsJoin(jobs, s0, before, s, rest, end);
    RunsAreBounded(jobs, s0, before + rest, end);
  }

  // So every start without collision or stale temporary has such runs, and each
  // wanted absent destination gets its winner in them.
  lemma {:induction false} StartFinishes(jobs: seq<Job>, s0: State) returns (schedule: seq<Action>, end: State)
    requires Initial(jobs, s0) && NoCollision(jobs) && NoStale(jobs, s0)
    ensures Runs(jobs, s0, schedule, end) && FaultFree(schedule) && AllReturned(jobs, end)
    ensures forall k | 0 <= k < |jobs| && jobs[k].output !in s0.dir :: HasOneWinner(jobs, end, jobs[k].output)
  {
    schedule, end := RunsCanBeCompleted(jobs, s0, [], s0);
    assert [] + schedule == schedule;
    forall k | 0 <= k < |jobs| && jobs[k].output !in s0.dir ensures HasOneWinner(jobs, end, jobs[k].output) {
      ExactlyOneWinner(jobs, s0, schedule, end, k);
    }
  }
}
