// What depends on the texts of the names: a destination stays final and whole,
// and every destination gets its winner, exactly when no destination is the
// temporary name of one of the jobs.

module PublicationCollisions {
  import opened Wrappers
  import opened Basics
  import opened Publication
  import opened PublicationRuns

  // An empty directory in which the process of one job is at a given nonce.
  function Empty(jobs: seq<Job>, pid: nat, nonce: nat): (s: State)
    ensures Initial(jobs, s) && s.dir == map[] && s.counters == map[pid := nonce]
  {
    State(map[], map[], 0, map[pid := nonce],
          seq(|jobs|, i requires 0 <= i < |jobs| => Publisher(Validate, 0, None, false)))
  }

  lemma {:induction false} EmptyIsNotStale(jobs: seq<Job>, pid: nat, nonce: nat)
    ensures NoStale(jobs, Empty(jobs, pid, nonce))
  {
    var s := Empty(jobs, pid, nonce);
    forall i, m: nat | 0 <= i < |jobs| && Counter(s, jobs[i].pid) <= m ensures TempPath(jobs[i], m) !in s.dir {
      assert s.dir == map[];
    }
  }

  // The state in which one job has just created its temporary, and the run to it.
  function JustCreated(jobs: seq<Job>, i: nat, nonce: nat): (s: State)
    requires i < |jobs|
    ensures Consistent(jobs, s)
  {
    var start := Empty(jobs, jobs[i].pid, nonce);
    State(map[TempPath(jobs[i], nonce) := 0], map[0 := []], 1, map[jobs[i].pid := nonce + 1],
          start.publishers[i := Publisher(Write(0), nonce, Some(0), false)])
  }

  lemma {:induction false} ThreeStepsRun(jobs: seq<Job>, s: State, act: Action)
    requires Consistent(jobs, s) && CanStep(jobs, s, act)
    requires Consistent(jobs, Next(jobs, s, act)) && CanStep(jobs, Next(jobs, s, act), act)
    requires Consistent(jobs, Next(jobs, Next(jobs, s, act), act))
    requires CanStep(jobs, Next(jobs, Next(jobs, s, act), act), act)
    ensures Runs(jobs, s, [act, act, act], Next(jobs, Next(jobs, Next(jobs, s, act), act), act))
  {
    var s1 := Next(jobs, s, act);
    var s2 := Next(jobs, s1, act);
    OneStepRuns(jobs, s, act);
    OneStepRuns(jobs, s1, act);
    OneStepRuns(jobs, s2, act);
    RunsJoin(jobs, s, [act], s1, [act], s2);
    RunsJoin(jobs, s, [act] + [act], s2, [act], Next(jobs, s2, act));
    assert [act] + [act] + [act] == [act, act, act];
  }

  lemma {:induction false} CanCreate(jobs: seq<Job>, i: nat, nonce: nat)
    requires i < |jobs|
    ensures Runs(jobs, Empty(jobs, jobs[i].pid, nonce), [Run(i, 1), Run(i, 1), Run(i, 1)], JustCreated(jobs, i, nonce))
  {
    var s0, act := Empty(jobs, jobs[i].pid, nonce), Run(i, 1);
    var start := s0.publishers;
    var s1 := s0.(publishers := start[i := Publisher(TakeNonce, 0, None, false)]);
    var s2 := s0.(counters := map[jobs[i].pid := nonce + 1],
                  publishers := start[i := Publisher(Create, nonce, None, false)]);
    assert Consistent(jobs, s1) && Consistent(jobs, s2);
    assert Next(jobs, s0, act) == s1;
    assert Next(jobs, s1, act) == s2 by {
      assert s1.counters[jobs[i].pid := nonce + 1] == s2.counters;
      assert s1.publishers[i := Publisher(Create, nonce, None, false)] == s2.publishers;
    }
    assert Next(jobs, s2, act) == JustCreated(jobs, i, nonce) by {
      assert s2.publishers[i := Publisher(Write(0), nonce, Some(0), false)] == JustCreated(jobs, i, nonce).publishers;
    }
    ThreeStepsRun(jobs, s0, act);
  }

  // The write fails and the temporary is removed.
  lemma {:induction false} CanGiveUp(jobs: seq<Job>, i: nat, nonce: nat) returns (s: State)
    requires i < |jobs|
    ensures Runs(jobs, JustCreated(jobs, i, nonce), [Fault(i), Run(i, 1)], s)
    ensures TempPath(jobs[i], nonce) !in s.dir
  {
    var s3 := JustCreated(jobs, i, nonce);
    var s4 := Goto(s3, i, Cleanup(false));
    assert Next(jobs, s3, Fault(i)) == s4;
    StepConsistent(jobs, s3, Fault(i));
    s := Next(jobs, s4, Run(i, 1));
    OneStepRuns(jobs, s3, Fault(i));
    OneStepRuns(jobs, s4, Run(i, 1));
    RunsJoin(jobs, s3, [Fault(i)], s4, [Run(i, 1)], s);
    assert [Fault(i)] + [Run(i, 1)] == [Fault(i), Run(i, 1)];
  }

  // Once present, the name never changes again, in any run from any start.
  ghost predicate AlwaysFinal(jobs: seq<Job>, path: Path) {
    forall s0, before, s, after, s' |
      Initial(jobs, s0) && Runs(jobs, s0, before, s) && Runs(jobs, s, after, s') && path in s.dir ::
      FileAt(s', path) == FileAt(s, path)
  }

  lemma {:induction false} ClearIsFinal(jobs: seq<Job>, path: Path)
    requires Clear(jobs, path)
    ensures AlwaysFinal(jobs, path)
  {
    forall s0, before, s, after, s' |
      Initial(jobs, s0) && Runs(jobs, s0, before, s) && Runs(jobs, s, after, s') && path in s.dir
      ensures FileAt(s', path) == FileAt(s, path)
    {
      DestinationIsFinal(jobs, s0, before, s, after, s', path);
      ClearIsNotHeld(jobs, s, path);
    }
  }

  lemma {:induction false} TemporaryIsNotFinal(jobs: seq<Job>, i: nat, nonce: nat)
    requires i < |jobs|
    ensures !AlwaysFinal(jobs, TempPath(jobs[i], nonce))
  {
    CanCreate(jobs, i, nonce);
    var s, path := JustCreated(jobs, i, nonce), TempPath(jobs[i], nonce);
    var s' := CanGiveUp(jobs, i, nonce);
    assert FileAt(s, path) == Some([]) && FileAt(s', path) == None;
  }

  // A name is final in every run exactly when it is no temporary name of the
  // jobs.
  lemma {:induction false} FinalExactlyWhenClear(jobs: seq<Job>, path: Path)
    ensures AlwaysFinal(jobs, path) <==> Clear(jobs, path)
  {
    if Clear(jobs, path) {
      ClearIsFinal(jobs, path);
    } else {
      var i, nonce: nat :| 0 <= i < |jobs| && TempPath(jobs[i], nonce) == path;
      TemporaryIsNotFinal(jobs, i, nonce);
    }
  }

  // The name is whole in every state that any start can reach.
  ghost predicate AlwaysWhole(jobs: seq<Job>, path: Path) {
    forall s0, schedule, s | Initial(jobs, s0) && Runs(jobs, s0, schedule, s) ::
      |s.publishers| == |jobs| && Whole(jobs, s0, s, path)
  }

  lemma {:induction false} ClearIsWhole(jobs: seq<Job>, path: Path)
    requires Clear(jobs, path)
    ensures AlwaysWhole(jobs, path)
  {
    forall s0, schedule, s | Initial(jobs, s0) && Runs(jobs, s0, schedule, s)
      ensures |s.publishers| == |jobs| && Whole(jobs, s0, s, path)
    {
      NeverPartial(jobs, s0, schedule, s, path);
      assert forall i | 0 <= i < |jobs| :: TempName(jobs, s, i) != path;
    }
  }

  lemma {:induction false} TemporaryIsNotWhole(jobs: seq<Job>, i: nat, nonce: nat)
    requires i < |jobs|
    ensures !AlwaysWhole(jobs, TempPath(jobs[i], nonce))
  {
    CanCreate(jobs, i, nonce);
    var s, path := JustCreated(jobs, i, nonce), TempPath(jobs[i], nonce);
    assert FileAt(s, path) == Some([]) && forall j | 0 <= j < |jobs| :: !s.publishers[j].linked;
    assert !Whole(jobs, Empty(jobs, jobs[i].pid, nonce), s, path);
  }

  // A name is whole in every reachable state exactly when it is no temporary
  // name of the jobs.
  lemma {:induction false} WholeExactlyWhenClear(jobs: seq<Job>, path: Path)
    ensures AlwaysWhole(jobs, path) <==> Clear(jobs, path)
  {
    if Clear(jobs, path) {
      ClearIsWhole(jobs, path);
    } else {
      var i, nonce: nat :| 0 <= i < |jobs| && TempPath(jobs[i], nonce) == path;
      TemporaryIsNotWhole(jobs, i, nonce);
    }
  }

  predicate Refused(jobs: seq<Job>, s: State, path: Path, j: nat)
    requires |s.publishers| == |jobs| && j < |jobs|
  {
    jobs[j].output == path ==> s.publishers[j].pc == Returned(false)
  }

  // While a name is taken, every job that wants it and starts is refused.
  lemma {:induction false} RefuseAll(jobs: seq<Job>, s: State, path: Path, n: nat)
    returns (schedule: seq<Action>, s': State)
    requires Consistent(jobs, s) && n <= |jobs| && path in s.dir
    requires forall j | 0 <= j < n && jobs[j].output == path :: s.publishers[j].pc.Validate?
    requires forall j | n <= j < |jobs| :: Refused(jobs, s, path, j)
    ensures Runs(jobs, s, schedule, s') && FaultFree(schedule) && |s'.publishers| == |jobs|
    ensures forall j | 0 <= j < |jobs| :: Refused(jobs, s', path, j)
    decreases n
  {
    if n == 0 {
      schedule, s' := [], s;
    } else if jobs[n - 1].output != path {
      schedule, s' := RefuseAll(jobs, s, path, n - 1);
    } else {
      var act := Run(n - 1, 1);
      var t := Goto(s, n - 1, Returned(false));
      assert Next(jobs, s, act) == t;
      StepConsistent(jobs, s, act);
      assert forall j | 0 <= j < |jobs| && j != n - 1 :: t.publishers[j] == s.publishers[j];
      assert forall j | n <= j < |jobs| :: Refused(jobs, s, path, j) ==> Refused(jobs, t, path, j);
      assert Refused(jobs, t, path, n - 1);
      var later: seq<Action>;
      later, s' := RefuseAll(jobs, t, path, n - 1);
      OneStepRuns(jobs, s, act);
      RunsJoin(jobs, s, [act], t, later, s');
      schedule := [act] + later;
    }
  }

  lemma {:induction false} RunKeepsRefused(
    jobs: seq<Job>, s: State, schedule: seq<Action>, s': State, path: Path, j: nat)
    requires |s.publishers| == |jobs| && Runs(jobs, s, schedule, s') && j < |jobs| && Refused(jobs, s, path, j)
    ensures |s'.publishers| == |jobs| && Refused(jobs, s', path, j)
    decreases |schedule|
  {
    if schedule != [] {
      StepKeepsRefused(jobs, s, schedule[0], path, j);
      RunKeepsRefused(jobs, Next(jobs, s, schedule[0]), schedule[1..], s', path, j);
    }
  }

  lemma {:induction false} StepKeepsRefused(jobs: seq<Job>, s: State, act: Action, path: Path, j: nat)
    requires Consistent(jobs, s) && CanStep(jobs, s, act) && j < |jobs| && Refused(jobs, s, path, j)
    ensures |Next(jobs, s, act).publishers| == |jobs| && Refused(jobs, Next(jobs, s, act), path, j)
  {
    StepSpends(jobs, s, act);
    if j != act.who {
      StepMovesOne(jobs, s, act, j);
    }
  }

  lemma {:induction false} RefusedLose(jobs: seq<Job>, s: State, schedule: seq<Action>, s': State, path: Path)
    requires |s.publishers| == |jobs| && Runs(jobs, s, schedule, s')
    requires forall j | 0 <= j < |jobs| :: Refused(jobs, s, path, j)
    ensures |s'.publishers| == |jobs| && !HasOneWinner(jobs, s', path)
  {
    RunSpendsTotal(jobs, s, schedule, s');
    forall w | 0 <= w < |jobs| ensures !Wins(jobs, s', path, w) {
      RunKeepsRefused(jobs, s, schedule, s', path, w);
    }
  }

  // Where a destination is somebody's temporary name, a run without faults can
  // leave it without a winner: everyone who wants it is refused meanwhile.
  lemma {:induction false} CollisionCanLose(jobs: seq<Job>, i: nat, nonce: nat, k: nat)
    returns (schedule: seq<Action>, s: State)
    requires i < |jobs| && k < |jobs| && TempPath(jobs[i], nonce) == jobs[k].output
    ensures Runs(jobs, Empty(jobs, jobs[i].pid, nonce), schedule, s) && FaultFree(schedule) && AllReturned(jobs, s)
    ensures !HasOneWinner(jobs, s, jobs[k].output)
  {
    var s0, path := Empty(jobs, jobs[i].pid, nonce), jobs[k].output;
    var create := [Run(i, 1), Run(i, 1), Run(i, 1)];
    var created := JustCreated(jobs, i, nonce);
    CanCreate(jobs, i, nonce);
    TempPathIsNotItsOutput(jobs[i], nonce);
    var refuse, refused := RefuseAll(jobs, created, path, |jobs|);
    RunsJoin(jobs, s0, create, created, refuse, refused);
    var rest: seq<Action>;
    rest, s := RunsCanBeCompleted(jobs, s0, create + refuse, refused);
    schedule := (create + refuse) + rest;
    RefusedLose(jobs, refused, rest, s, path);
  }

  // Every finished run without faults, from any start without stale temporaries,
  // gives each destination that was absent its one winner.
  ghost predicate AlwaysWon(jobs: seq<Job>) {
    forall s0, schedule, s, k |
      && Initial(jobs, s0) && NoStale(jobs, s0)
      && Runs(jobs, s0, schedule, s) && FaultFree(schedule) && AllReturned(jobs, s)
      && 0 <= k < |jobs| && jobs[k].output !in s0.dir ::
      HasOneWinner(jobs, s, jobs[k].output)
  }

  // That is so exactly when no destination is a temporary name of the jobs.
  lemma {:induction false} WonExactlyWithoutCollision(jobs: seq<Job>)
    ensures AlwaysWon(jobs) <==> NoCollision(jobs)
  {
    if NoCollision(jobs) {
      forall s0, schedule, s, k |
        && Initial(jobs, s0) && NoStale(jobs, s0)
        && Runs(jobs, s0, schedule, s) && FaultFree(schedule) && AllReturned(jobs, s)
        && 0 <= k < |jobs| && jobs[k].output !in s0.dir
        ensures HasOneWinner(jobs, s, jobs[k].output)
      {
        ExactlyOneWinner(jobs, s0, schedule, s, k);
      }
    } else {
      var k :| 0 <= k < |jobs| && !Clear(jobs, jobs[k].output);
      var i, nonce: nat :| 0 <= i < |jobs| && TempPath(jobs[i], nonce) == jobs[k].output;
      EmptyIsNotStale(jobs, jobs[i].pid, nonce);
      var schedule, s := CollisionCanLose(jobs, i, nonce, k);
    }
  }

  // Two destinations that publication admits and that break all three.
  lemma {:induction false} CollidingNames(a: Bytes, b: Bytes)
    ensures var jobs := [Job(7, Path("evidence", "e.json"), a), Job(8, Path("evidence", ".e.json.tmp.7.0"), b)];
            && !AlwaysFinal(jobs, jobs[1].output) && !AlwaysWhole(jobs, jobs[1].output) && !AlwaysWon(jobs)
  {
    var jobs := [Job(7, Path("evidence", "e.json"), a), Job(8, Path("evidence", ".e.json.tmp.7.0"), b)];
    assert Decimal(7) == "7" && Decimal(0) == "0";
    assert TempFile("e.json", 7, 0) == ".e.json.tmp.7.0";
    assert TempPath(jobs[0], 0) == jobs[1].output;
    assert !Clear(jobs, jobs[1].output);
    FinalExactlyWhenClear(jobs, jobs[1].output);
    WholeExactlyWhenClear(jobs, jobs[1].output);
    WonExactlyWithoutCollision(jobs);
  }

  // What both callers enforce suffices: destinations that end in ".json".
  lemma {:induction false} JsonDestinationsAreSafe(jobs: seq<Job>)
    requires forall k | 0 <= k < |jobs| :: EndsWith(jobs[k].output.file, ".json")
    ensures NoCollision(jobs) && AlwaysWon(jobs)
    ensures forall k | 0 <= k < |jobs| :: AlwaysFinal(jobs, jobs[k].output) && AlwaysWhole(jobs, jobs[k].output)
  {
    forall k | 0 <= k < |jobs|
      ensures Clear(jobs, jobs[k].output)
      ensures AlwaysFinal(jobs, jobs[k].output) && AlwaysWhole(jobs, jobs[k].output)
    {
      JsonIsClear(jobs, jobs[k].output);
      FinalExactlyWhenClear(jobs, jobs[k].output);
      WholeExactlyWhenClear(jobs, jobs[k].output);
    }
    WonExactlyWithoutCollision(jobs);
  }
}
