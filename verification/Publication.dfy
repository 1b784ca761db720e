// No-replace evidence publication: any number of concurrent publishers write a
// temporary file, hard-link it to the destination, read the destination back
// and remove the temporary name. A directory maps names to inodes and the two
// names of a link share one inode, so a write through either would be seen
// through both. Every file operation may also fail without effect.
//
// Destinations and temporary files share one name space, so a destination may
// be the very text of somebody's temporary name. What holds regardless is
// proved here; PublicationCollisions proves what else holds exactly for the
// destinations that are not.

module Publication {
  import opened Wrappers
  import opened Basics

  newtype byte = x: int | 0 <= x < 256
  type Bytes = seq<byte>

  // A directory and the text of a file name in it.
  datatype Path = Path(parent: string, file: string)

  // One call: the process it runs in, its destination and what it publishes.
  datatype Job = Job(pid: nat, output: Path, payload: Bytes)

  datatype Pc =
    | Validate
    | TakeNonce
    | Create
    | Write(written: nat) // through the open handle; at the end flush and sync
    | Link
    | ReadBack
    | Cleanup(ok: bool)
    | Returned(ok: bool)

  // `inode` is the handle of the created temporary; `linked` is history.
  datatype Publisher = Publisher(pc: Pc, nonce: nat, inode: Option<nat>, linked: bool)

  // Inodes below nextInode are allocated; `counters` holds each process's nonce.
  datatype State = State(
    dir: map<Path, nat>, content: map<nat, Bytes>, nextInode: nat,
    counters: map<nat, nat>, publishers: seq<Publisher>)

  // One scheduling choice. `chunk` is how much a single write accepts.
  datatype Action = Run(who: nat, chunk: nat) | Fault(who: nat)

  function Counter(s: State, pid: nat): nat {
    if pid in s.counters then s.counters[pid] else 0
  }

  // ---------------------------------------------------------- temporary names

  function TempFile(file: string, pid: nat, nonce: nat): string {
    "." + file + ".tmp" + "." + Decimal(pid) + "." + Decimal(nonce)
  }

  // Temporary files live beside the destination.
  function TempPath(job: Job, nonce: nat): Path {
    Path(job.output.parent, TempFile(job.output.file, job.pid, nonce))
  }

  // The text of a temporary name identifies its destination's file name, the
  // process and the nonce.
  lemma {:induction false} TempFileInjective(f: string, p: nat, m: nat, g: string, q: nat, n: nat)
    requires TempFile(f, p, m) == TempFile(g, q, n)
    ensures f == g && p == q && m == n
  {
    DecimalIsDigits(p);
    DecimalIsDigits(q);
    DecimalIsDigits(m);
    DecimalIsDigits(n);
    var a, b := "." + f + ".tmp", "." + g + ".tmp";
    LastSplit('.', a + "." + Decimal(p), Decimal(m), b + "." + Decimal(q), Decimal(n));
    LastSplit('.', a, Decimal(p), b, Decimal(q));
    DecimalInjective(p, q);
    DecimalInjective(m, n);
    assert f == a[1..|a| - 4] && g == b[1..|b| - 4];
  }

  lemma {:induction false} TempPathInjective(a: Job, m: nat, b: Job, n: nat)
    requires TempPath(a, m) == TempPath(b, n)
    ensures a.output == b.output && a.pid == b.pid && m == n
  {
    TempFileInjective(a.output.file, a.pid, m, b.output.file, b.pid, n);
  }

  lemma {:induction false} TempPathIsNotItsOutput(job: Job, nonce: nat)
    ensures TempPath(job, nonce) != job.output
  {
    assert |TempFile(job.output.file, job.pid, nonce)| > |job.output.file|;
  }

  // The name is no temporary name of any of the jobs, whatever their nonces.
  ghost predicate Clear(jobs: seq<Job>, path: Path) {
    forall i, nonce: nat | 0 <= i < |jobs| :: TempPath(jobs[i], nonce) != path
  }

  // Both callers publish only to names that end in ".json".
  lemma {:induction false} JsonIsClear(jobs: seq<Job>, path: Path)
    requires EndsWith(path.file, ".json")
    ensures Clear(jobs, path)
  {
    forall i, nonce: nat | 0 <= i < |jobs| ensures TempPath(jobs[i], nonce) != path {
      var text := TempFile(jobs[i].output.file, jobs[i].pid, nonce);
      DecimalIsDigits(nonce);
      assert text[|text| - 1] == Decimal(nonce)[|Decimal(nonce)| - 1];
      assert IsDigit(text[|text| - 1]);
      assert path.file[|path.file| - 1] == ".json"[4];
    }
  }

  // ---------------------------------------------------------------- the steps

  function TempName(jobs: seq<Job>, s: State, i: nat): Path
    requires i < |jobs| && i < |s.publishers|
  {
    TempPath(jobs[i], s.publishers[i].nonce)
  }

  predicate Consistent(jobs: seq<Job>, s: State) {
    && |s.publishers| == |jobs|
    && (forall n | n in s.dir :: s.dir[n] in s.content)
    && (forall n | n in s.content :: n < s.nextInode)
    && forall i | 0 <= i < |jobs| :: HandleIsOpen(jobs[i], s.content, s.publishers[i])
  }

  predicate HandleIsOpen(job: Job, content: map<nat, Bytes>, p: Publisher) {
    && (p.pc.Write? ==> p.pc.written <= |job.payload| && p.inode.Some?)
    && (p.inode.Some? ==> p.inode.value in content)
  }

  predicate Initial(jobs: seq<Job>, s: State) {
    && Consistent(jobs, s)
    && forall i | 0 <= i < |jobs| ::
         s.publishers[i].pc.Validate? && s.publishers[i].inode.None? && !s.publishers[i].linked
  }

  predicate CanStep(jobs: seq<Job>, s: State, act: Action)
    requires Consistent(jobs, s)
  {
    && act.who < |jobs|
    && var p := s.publishers[act.who];
       && !p.pc.Returned?
       && (act.Fault? ==> !p.pc.TakeNonce?)
       && (act.Run? && p.pc.Write? && p.pc.written < |jobs[act.who].payload| ==>
             0 < act.chunk <= |jobs[act.who].payload| - p.pc.written)
  }

  function Goto(s: State, i: nat, pc: Pc): State
    requires i < |s.publishers|
  {
    s.(publishers := s.publishers[i := s.publishers[i].(pc := pc)])
  }

  // A fault before the temporary exists returns at once; later it cleans up.
  function AfterFault(pc: Pc): Pc {
    if pc.Write? || pc.Link? || pc.ReadBack? then Cleanup(false) else Returned(false)
  }

  function Next(jobs: seq<Job>, s: State, act: Action): State
    requires Consistent(jobs, s) && CanStep(jobs, s, act)
  {
    var i := act.who;
    var job, p := jobs[i], s.publishers[i];
    var temporary := TempName(jobs, s, i);
    if act.Fault? then Goto(s, i, AfterFault(p.pc))
    else
      match p.pc
      case Validate => Goto(s, i, if job.output in s.dir then Returned(false) else TakeNonce)
      case TakeNonce =>
        var nonce := Counter(s, job.pid);
        s.(counters := s.counters[job.pid := nonce + 1],
           publishers := s.publishers[i := p.(pc := Create, nonce := nonce)])
      case Create =>
        if temporary in s.dir then Goto(s, i, Returned(false))
        else
          s.(dir := s.dir[temporary := s.nextInode],
             content := s.content[s.nextInode := []],
             nextInode := s.nextInode + 1,
             publishers := s.publishers[i := p.(pc := Write(0), inode := Some(s.nextInode))])
      case Write(written) =>
        if written == |job.payload| then Goto(s, i, Link)
        else
          var more := job.payload[written..written + act.chunk];
          s.(content := s.content[p.inode.value := s.content[p.inode.value] + more],
             publishers := s.publishers[i := p.(pc := Write(written + act.chunk))])
      case Link =>
        if job.output in s.dir || temporary !in s.dir then Goto(s, i, Cleanup(false))
        else
          s.(dir := s.dir[job.output := s.dir[temporary]],
             publishers := s.publishers[i := p.(pc := ReadBack, linked := true)])
      case ReadBack =>
        Goto(s, i, Cleanup(job.output in s.dir && s.content[s.dir[job.output]] == job.payload))
      case Cleanup(ok) =>
        if temporary in s.dir then Goto(s.(dir := s.dir - {temporary}), i, Returned(ok))
        else Goto(s, i, Returned(false))
  }

  // --------------------------------------------------------------- invariant

  predicate TookNonce(p: Publisher) {
    !p.pc.Validate? && !p.pc.TakeNonce? && !(p.pc.Returned? && p.inode.None?)
  }

  // The publisher created its temporary and has not yet tried to remove it.
  predicate HoldsTemporary(p: Publisher) {
    p.pc.Write? || p.pc.Link? || p.pc.ReadBack? || p.pc.Cleanup?
  }

  predicate BoundTo(s: State, n: Path, p: Publisher) {
    p.inode.Some? && n in s.dir && s.dir[n] == p.inode.value
  }

  predicate PublisherInv(jobs: seq<Job>, s0: State, s: State, i: nat)
    requires Consistent(jobs, s) && i < |jobs|
  {
    var job, p := jobs[i], s.publishers[i];
    && (TookNonce(p) ==> Counter(s0, job.pid) <= p.nonce < Counter(s, job.pid))
    && (HoldsTemporary(p) ==> BoundTo(s, TempName(jobs, s, i), p))
    && (p.inode.Some? ==> s0.nextInode <= p.inode.value < s.nextInode)
    && (p.pc.Validate? || p.pc.TakeNonce? || p.pc.Create? ==> p.inode.None?)
    && (p.pc.Write? ==> s.content[p.inode.value] == job.payload[..p.pc.written])
    && (p.pc.Link? || p.pc.ReadBack? ==> s.content[p.inode.value] == job.payload)
    && (p.pc.ReadBack? ==> p.linked)
    && (p.linked ==>
          && BoundTo(s, job.output, p)
          && (p.pc.ReadBack? || p.pc.Cleanup? || p.pc.Returned?)
          && s.content[p.inode.value] == job.payload
          && job.output !in s0.dir)
    && ((p.pc.Cleanup? || p.pc.Returned?) && p.pc.ok ==> p.linked)
  }

  // Distinct publishers never share an inode or a temporary name.
  predicate Separate(jobs: seq<Job>, s: State, i: nat, j: nat)
    requires |s.publishers| == |jobs| && i < |jobs| && j < |jobs|
  {
    var p, q := s.publishers[i], s.publishers[j];
    && (p.inode.Some? && q.inode.Some? ==> p.inode.value != q.inode.value)
    && (TookNonce(p) && TookNonce(q) && jobs[i].pid == jobs[j].pid ==> p.nonce != q.nonce)
  }

  predicate Linked(jobs: seq<Job>, s: State, n: Path, i: nat)
    requires |s.publishers| == |jobs| && i < |jobs|
  {
    jobs[i].output == n && s.publishers[i].linked
  }

  // Publisher i created the file of this name as its temporary.
  predicate Created(jobs: seq<Job>, s: State, n: Path, i: nat)
    requires |s.publishers| == |jobs| && i < |jobs|
  {
    BoundTo(s, n, s.publishers[i]) && TempName(jobs, s, i) == n
  }

  // Every name is as it was at the start, was linked by somebody, or is
  // somebody's temporary name.
  ghost predicate Accounted(jobs: seq<Job>, s0: State, s: State, n: Path)
    requires |s.publishers| == |jobs|
  {
    || n in s0.dir
    || exists i :: 0 <= i < |jobs| && (Linked(jobs, s, n, i) || Created(jobs, s, n, i))
  }

  predicate SameAsAtStart(s0: State, s: State, n: Path)
    requires n in s0.dir
  {
    n in s.dir && s.dir[n] == s0.dir[n]
  }

  ghost predicate Inv(jobs: seq<Job>, s0: State, s: State) {
    && Consistent(jobs, s0)
    && Consistent(jobs, s)
    && s0.nextInode <= s.nextInode
    && (forall pid :: Counter(s0, pid) <= Counter(s, pid))
    && (forall n | n in s0.content :: n in s.content && s.content[n] == s0.content[n])
    && (forall n | n in s0.dir :: SameAsAtStart(s0, s, n))
    && (forall n | n in s.dir :: Accounted(jobs, s0, s, n))
    && (forall i | 0 <= i < |jobs| :: PublisherInv(jobs, s0, s, i))
    && (forall i, j | 0 <= i < |jobs| && 0 <= j < |jobs| && i != j :: Separate(jobs, s, i, j))
  }

  lemma {:induction false} InitialInv(jobs: seq<Job>, s: State)
    requires Initial(jobs, s)
    ensures Inv(jobs, s, s)
  {
  }

  lemma {:induction false} StepKeepsStore(jobs: seq<Job>, s: State, act: Action)
    requires Consistent(jobs, s) && CanStep(jobs, s, act)
    ensures var s' := Next(jobs, s, act);
            && |s'.publishers| == |jobs|
            && (forall n | n in s.content :: n in s'.content)
            && (forall n | n in s'.content :: n < s'.nextInode)
            && (forall n | n in s'.dir :: s'.dir[n] in s'.content)
  {
  }

  lemma {:induction false} ActorKeepsHandle(jobs: seq<Job>, s: State, act: Action)
    requires Consistent(jobs, s) && CanStep(jobs, s, act)
    ensures |Next(jobs, s, act).publishers| == |jobs|
    ensures HandleIsOpen(jobs[act.who], Next(jobs, s, act).content, Next(jobs, s, act).publishers[act.who])
  {
    assert HandleIsOpen(jobs[act.who], s.content, s.publishers[act.who]);
  }

  lemma {:induction false} StepConsistent(jobs: seq<Job>, s: State, act: Action)
    requires Consistent(jobs, s) && CanStep(jobs, s, act)
    ensures Consistent(jobs, Next(jobs, s, act))
  {
    StepKeepsStore(jobs, s, act);
    ActorKeepsHandle(jobs, s, act);
    var s' := Next(jobs, s, act);
    forall j | 0 <= j < |jobs| && j != act.who ensures HandleIsOpen(jobs[j], s'.content, s'.publishers[j]) {
      assert HandleIsOpen(jobs[j], s.content, s.publishers[j]);
      StepMovesOne(jobs, s, act, j);
    }
  }

  // A step moves one publisher.
  lemma {:induction false} StepMovesOne(jobs: seq<Job>, s: State, act: Action, j: nat)
    requires Consistent(jobs, s) && CanStep(jobs, s, act) && j < |jobs| && j != act.who
    ensures var s' := Next(jobs, s, act);
            && |s'.publishers| == |jobs| && s'.publishers[j] == s.publishers[j]
            && s.nextInode <= s'.nextInode && Counter(s, jobs[j].pid) <= Counter(s', jobs[j].pid)
  {
  }

  lemma {:induction false} ActorWrites(jobs: seq<Job>, s0: State, s: State, act: Action)
    requires Inv(jobs, s0, s) && CanStep(jobs, s, act) && Consistent(jobs, Next(jobs, s, act))
    requires act.Run? && s.publishers[act.who].pc.Write?
    ensures PublisherInv(jobs, s0, Next(jobs, s, act), act.who)
  {
    var job, p := jobs[act.who], s.publishers[act.who];
    assert PublisherInv(jobs, s0, s, act.who);
    assert job.payload[..|job.payload|] == job.payload;
    if p.pc.written < |job.payload| {
      assert job.payload[..p.pc.written] + job.payload[p.pc.written..p.pc.written + act.chunk]
          == job.payload[..p.pc.written + act.chunk];
    }
  }

  lemma {:induction false} ActorFails(jobs: seq<Job>, s0: State, s: State, act: Action)
    requires Inv(jobs, s0, s) && CanStep(jobs, s, act) && Consistent(jobs, Next(jobs, s, act)) && act.Fault?
    ensures PublisherInv(jobs, s0, Next(jobs, s, act), act.who)
  {
    assert PublisherInv(jobs, s0, s, act.who);
  }

  lemma {:induction false} ActorMoves(jobs: seq<Job>, s0: State, s: State, act: Action)
    requires Inv(jobs, s0, s) && CanStep(jobs, s, act) && Consistent(jobs, Next(jobs, s, act))
    requires act.Run? && !s.publishers[act.who].pc.Write?
    ensures PublisherInv(jobs, s0, Next(jobs, s, act), act.who)
  {
    assert PublisherInv(jobs, s0, s, act.who);
    TempPathIsNotItsOutput(jobs[act.who], s.publishers[act.who].nonce);
  }

  lemma {:induction false} StepKeepsActor(jobs: seq<Job>, s0: State, s: State, act: Action)
    requires Inv(jobs, s0, s) && CanStep(jobs, s, act) && Consistent(jobs, Next(jobs, s, act))
    ensures PublisherInv(jobs, s0, Next(jobs, s, act), act.who)
  {
    if act.Fault? {
      ActorFails(jobs, s0, s, act);
    } else if s.publishers[act.who].pc.Write? {
      ActorWrites(jobs, s0, s, act);
    } else {
      ActorMoves(jobs, s0, s, act);
    }
  }

  lemma {:induction false} StepRebindsNothing(jobs: seq<Job>, s: State, act: Action)
    requires Consistent(jobs, s) && CanStep(jobs, s, act)
    ensures forall n | n in s.dir && n in Next(jobs, s, act).dir :: Next(jobs, s, act).dir[n] == s.dir[n]
  {
  }

  // The only name a step removes is the actor's own temporary, while it holds it.
  lemma {:induction false} StepRemovesOwn(jobs: seq<Job>, s: State, act: Action, n: Path)
    requires Consistent(jobs, s) && CanStep(jobs, s, act)
    requires n in s.dir && n !in Next(jobs, s, act).dir
    ensures HoldsTemporary(s.publishers[act.who]) && n == TempName(jobs, s, act.who)
  {
  }

  // The only content a step changes is that of the inode the actor writes to.
  lemma {:induction false} StepWritesOwn(jobs: seq<Job>, s: State, act: Action, inode: nat)
    requires Consistent(jobs, s) && CanStep(jobs, s, act) && inode in s.content
    requires s.publishers[act.who].pc.Write? ==> s.publishers[act.who].inode != Some(inode)
    ensures inode in Next(jobs, s, act).content && Next(jobs, s, act).content[inode] == s.content[inode]
  {
  }

  // A name bound to another publisher's inode stays bound to it.
  lemma {:induction false} StepKeepsBound(jobs: seq<Job>, s0: State, s: State, act: Action, j: nat, n: Path)
    requires Inv(jobs, s0, s) && CanStep(jobs, s, act) && j < |jobs| && j != act.who
    requires BoundTo(s, n, s.publishers[j])
    ensures BoundTo(Next(jobs, s, act), n, s.publishers[j])
    ensures s.dir[n] in Next(jobs, s, act).content
    ensures Next(jobs, s, act).content[s.dir[n]] == s.content[s.dir[n]]
  {
    assert PublisherInv(jobs, s0, s, act.who) && Separate(jobs, s, act.who, j);
    StepRebindsNothing(jobs, s, act);
    StepWritesOwn(jobs, s, act, s.dir[n]);
    if n !in Next(jobs, s, act).dir {
      StepRemovesOwn(jobs, s, act, n);
    }
  }

  lemma {:induction false} StepKeepsContent(jobs: seq<Job>, s0: State, s: State, act: Action, j: nat)
    requires Inv(jobs, s0, s) && CanStep(jobs, s, act) && j < |jobs| && j != act.who
    requires s.publishers[j].inode.Some?
    ensures var inode := s.publishers[j].inode.value;
            inode in Next(jobs, s, act).content && Next(jobs, s, act).content[inode] == s.content[inode]
  {
    assert Separate(jobs, s, act.who, j);
    StepWritesOwn(jobs, s, act, s.publishers[j].inode.value);
  }

  lemma {:induction false} StepKeepsBystander(jobs: seq<Job>, s0: State, s: State, act: Action, j: nat)
    requires Inv(jobs, s0, s) && CanStep(jobs, s, act) && Consistent(jobs, Next(jobs, s, act))
    requires j < |jobs| && j != act.who
    ensures PublisherInv(jobs, s0, Next(jobs, s, act), j)
  {
    var p := s.publishers[j];
    assert PublisherInv(jobs, s0, s, j);
    StepMovesOne(jobs, s, act, j);
    if HoldsTemporary(p) {
      StepKeepsBound(jobs, s0, s, act, j, TempName(jobs, s, j));
    }
    if p.linked {
      StepKeepsBound(jobs, s0, s, act, j, jobs[j].output);
    }
    if p.inode.Some? {
      StepKeepsContent(jobs, s0, s, act, j);
    }
  }

  lemma {:induction false} SeparateFromActor(jobs: seq<Job>, s0: State, s: State, act: Action, j: nat)
    requires Inv(jobs, s0, s) && CanStep(jobs, s, act) && j < |jobs| && j != act.who
    ensures Separate(jobs, Next(jobs, s, act), act.who, j)
  {
    assert PublisherInv(jobs, s0, s, act.who) && PublisherInv(jobs, s0, s, j);
    assert Separate(jobs, s, act.who, j);
  }

  lemma {:induction false} StepKeepsSeparate(jobs: seq<Job>, s0: State, s: State, act: Action, i: nat, j: nat)
    requires Inv(jobs, s0, s) && CanStep(jobs, s, act) && i < |jobs| && j < |jobs| && i != j
    ensures Separate(jobs, Next(jobs, s, act), i, j)
  {
    if i == act.who {
      SeparateFromActor(jobs, s0, s, act, j);
    } else if j == act.who {
      SeparateFromActor(jobs, s0, s, act, i);
    } else {
      assert Separate(jobs, s, i, j);
    }
  }

  // What was there at the start keeps its name and its content.
  lemma {:induction false} StepKeepsStart(jobs: seq<Job>, s0: State, s: State, act: Action, n: Path)
    requires Inv(jobs, s0, s) && CanStep(jobs, s, act) && n in s0.dir
    ensures SameAsAtStart(s0, Next(jobs, s, act), n)
  {
    assert SameAsAtStart(s0, s, n) && PublisherInv(jobs, s0, s, act.who);
    if n !in Next(jobs, s, act).dir {
      StepRemovesOwn(jobs, s, act, n);
    }
  }

  lemma {:induction false} StepKeepsLinked(jobs: seq<Job>, s: State, act: Action, n: Path, i: nat)
    requires Consistent(jobs, s) && CanStep(jobs, s, act) && i < |jobs| && Linked(jobs, s, n, i)
    ensures |Next(jobs, s, act).publishers| == |jobs| && Linked(jobs, Next(jobs, s, act), n, i)
  {
  }

  // Once a publisher has created its temporary, its nonce and inode are fixed.
  lemma {:induction false} CreatorIsFixed(jobs: seq<Job>, s0: State, s: State, act: Action, i: nat)
    requires Inv(jobs, s0, s) && CanStep(jobs, s, act) && i < |jobs| && s.publishers[i].inode.Some?
    ensures |Next(jobs, s, act).publishers| == |jobs|
    ensures Next(jobs, s, act).publishers[i].inode == s.publishers[i].inode
    ensures Next(jobs, s, act).publishers[i].nonce == s.publishers[i].nonce
  {
    assert PublisherInv(jobs, s0, s, i);
  }

  lemma {:induction false} StepKeepsCreated(jobs: seq<Job>, s0: State, s: State, act: Action, n: Path, i: nat)
    requires Inv(jobs, s0, s) && CanStep(jobs, s, act) && i < |jobs| && Created(jobs, s, n, i)
    requires n in Next(jobs, s, act).dir
    ensures |Next(jobs, s, act).publishers| == |jobs| && Created(jobs, Next(jobs, s, act), n, i)
  {
    CreatorIsFixed(jobs, s0, s, act, i);
    StepRebindsNothing(jobs, s, act);
  }

  // A name appears only as the actor's temporary or as its destination.
  lemma {:induction false} NewNameIsAccounted(jobs: seq<Job>, s: State, act: Action, n: Path)
    requires Consistent(jobs, s) && CanStep(jobs, s, act) && n !in s.dir && n in Next(jobs, s, act).dir
    ensures |Next(jobs, s, act).publishers| == |jobs|
    ensures Linked(jobs, Next(jobs, s, act), n, act.who) || Created(jobs, Next(jobs, s, act), n, act.who)
  {
  }

  lemma {:induction false} StepKeepsAccounted(jobs: seq<Job>, s0: State, s: State, act: Action, n: Path)
    requires Inv(jobs, s0, s) && CanStep(jobs, s, act) && n in Next(jobs, s, act).dir
    ensures |Next(jobs, s, act).publishers| == |jobs| && Accounted(jobs, s0, Next(jobs, s, act), n)
  {
    if n !in s.dir {
      NewNameIsAccounted(jobs, s, act, n);
    } else if n !in s0.dir {
      assert Accounted(jobs, s0, s, n);
      var i :| 0 <= i < |jobs| && (Linked(jobs, s, n, i) || Created(jobs, s, n, i));
      if Linked(jobs, s, n, i) {
        StepKeepsLinked(jobs, s, act, n, i);
      } else {
        StepKeepsCreated(jobs, s0, s, act, n, i);
      }
    }
  }

  lemma {:induction false} StepKeepsContents(jobs: seq<Job>, s0: State, s: State, act: Action, inode: nat)
    requires Inv(jobs, s0, s) && CanStep(jobs, s, act) && inode in s0.content
    ensures inode in Next(jobs, s, act).content && Next(jobs, s, act).content[inode] == s0.content[inode]
  {
    assert PublisherInv(jobs, s0, s, act.who);
    StepWritesOwn(jobs, s, act, inode);
  }

  lemma {:induction false} StepKeepsInv(jobs: seq<Job>, s0: State, s: State, act: Action)
    requires Inv(jobs, s0, s) && CanStep(jobs, s, act)
    ensures Inv(jobs, s0, Next(jobs, s, act))
  {
    var s' := Next(jobs, s, act);
    StepConsistent(jobs, s, act);
    assert s.nextInode <= s'.nextInode && forall pid :: Counter(s, pid) <= Counter(s', pid);
    forall n | n in s0.content ensures n in s'.content && s'.content[n] == s0.content[n] {
      StepKeepsContents(jobs, s0, s, act, n);
    }
    forall n | n in s0.dir ensures SameAsAtStart(s0, s', n) {
      StepKeepsStart(jobs, s0, s, act, n);
    }
    forall n | n in s'.dir ensures Accounted(jobs, s0, s', n) {
      StepKeepsAccounted(jobs, s0, s, act, n);
    }
    forall i | 0 <= i < |jobs| ensures PublisherInv(jobs, s0, s', i) {
      if i == act.who {
        StepKeepsActor(jobs, s0, s, act);
      } else {
        StepKeepsBystander(jobs, s0, s, act, i);
      }
    }
    forall i, j | 0 <= i < |jobs| && 0 <= j < |jobs| && i != j ensures Separate(jobs, s', i, j) {
      StepKeepsSeparate(jobs, s0, s, act, i, j);
    }
  }

  // -------------------------------------------------------------------- runs

  ghost predicate Runs(jobs: seq<Job>, s: State, schedule: seq<Action>, s': State)
    decreases |schedule|
  {
    if schedule == [] then s == s'
    else
      && Consistent(jobs, s)
      && CanStep(jobs, s, schedule[0])
      && Runs(jobs, Next(jobs, s, schedule[0]), schedule[1..], s')
  }

  lemma {:induction false} RunKeepsInv(jobs: seq<Job>, s0: State, s: State, schedule: seq<Action>, s': State)
    requires Inv(jobs, s0, s) && Runs(jobs, s, schedule, s')
    ensures Inv(jobs, s0, s')
    decreases |schedule|
  {
    if schedule != [] {
      StepKeepsInv(jobs, s0, s, schedule[0]);
      RunKeepsInv(jobs, s0, Next(jobs, s, schedule[0]), schedule[1..], s');
    }
  }

  predicate Succeeded(p: Publisher) {
    p.pc.Returned? && p.pc.ok
  }

  // What a reader of the name sees.
  function FileAt(s: State, n: Path): Option<Bytes> {
    if n in s.dir && s.dir[n] in s.content then Some(s.content[s.dir[n]]) else None
  }

  // In every reachable state, faults or not: two callers with the same
  // destination cannot both have returned Ok.
  lemma {:induction false} AtMostOneWinner(jobs: seq<Job>, s0: State, schedule: seq<Action>, s: State, i: nat, j: nat)
    requires Initial(jobs, s0) && Runs(jobs, s0, schedule, s)
    requires i < |jobs| && j < |jobs| && i != j && jobs[i].output == jobs[j].output
    ensures |s.publishers| == |jobs| && !(Succeeded(s.publishers[i]) && Succeeded(s.publishers[j]))
  {
    InitialInv(jobs, s0);
    RunKeepsInv(jobs, s0, s0, schedule, s);
    assert PublisherInv(jobs, s0, s, i) && PublisherInv(jobs, s0, s, j) && Separate(jobs, s, i, j);
  }

  // Ok means the destination was absent and now is exactly the payload.
  lemma {:induction false} OkMeansPublished(jobs: seq<Job>, s0: State, schedule: seq<Action>, s: State, i: nat)
    requires Initial(jobs, s0) && Runs(jobs, s0, schedule, s)
    requires i < |jobs|
    ensures |s.publishers| == |jobs|
    ensures Succeeded(s.publishers[i]) ==>
              FileAt(s0, jobs[i].output) == None && FileAt(s, jobs[i].output) == Some(jobs[i].payload)
  {
    InitialInv(jobs, s0);
    RunKeepsInv(jobs, s0, s0, schedule, s);
    assert PublisherInv(jobs, s0, s, i);
  }

  // ------------------------------------------------------- whole destinations

  // The name shows the whole payload of a publisher that linked it.
  ghost predicate Published(jobs: seq<Job>, s: State, path: Path)
    requires |s.publishers| == |jobs|
  {
    exists i :: 0 <= i < |jobs| && Linked(jobs, s, path, i) && FileAt(s, path) == Some(jobs[i].payload)
  }

  // The name shows what it did at the start, or was absent then and has been
  // published since.
  ghost predicate Whole(jobs: seq<Job>, s0: State, s: State, path: Path)
    requires |s.publishers| == |jobs|
  {
    FileAt(s, path) == FileAt(s0, path) || (FileAt(s0, path) == None && Published(jobs, s, path))
  }

  // At any moment a name is whole or is the temporary name of a publisher that
  // created it.
  lemma {:induction false} NeverPartial(jobs: seq<Job>, s0: State, schedule: seq<Action>, s: State, path: Path)
    requires Initial(jobs, s0) && Runs(jobs, s0, schedule, s)
    ensures |s.publishers| == |jobs|
    ensures Whole(jobs, s0, s, path) || exists i :: 0 <= i < |jobs| && Created(jobs, s, path, i)
  {
    InitialInv(jobs, s0);
    RunKeepsInv(jobs, s0, s0, schedule, s);
    if path in s0.dir {
      assert SameAsAtStart(s0, s, path);
    } else if path in s.dir {
      assert Accounted(jobs, s0, s, path);
      var i :| 0 <= i < |jobs| && (Linked(jobs, s, path, i) || Created(jobs, s, path, i));
      assert PublisherInv(jobs, s0, s, i);
    }
  }

  // --------------------------------------------------------- final destinations

  // Somebody still has this name as its temporary.
  ghost predicate Held(jobs: seq<Job>, s: State, n: Path)
    requires |s.publishers| == |jobs|
  {
    exists i :: 0 <= i < |jobs| && HoldsTemporary(s.publishers[i]) && TempName(jobs, s, i) == n
  }

  // Nobody writes to the inode of a name that is not held.
  lemma {:induction false} UnheldIsNotWritten(jobs: seq<Job>, s0: State, s: State, n: Path, i: nat)
    requires Inv(jobs, s0, s) && n in s.dir && !Held(jobs, s, n) && i < |jobs| && s.publishers[i].pc.Write?
    ensures s.publishers[i].inode != Some(s.dir[n])
  {
    assert PublisherInv(jobs, s0, s, i) && Accounted(jobs, s0, s, n);
    if n in s0.dir {
      assert SameAsAtStart(s0, s, n);
    } else {
      var j :| 0 <= j < |jobs| && (Linked(jobs, s, n, j) || Created(jobs, s, n, j));
      assert PublisherInv(jobs, s0, s, j);
      assert j != i && Separate(jobs, s, i, j);
    }
  }

  // A publisher gets hold of a name only while nothing has that name.
  lemma {:induction false} HeldNameWasFree(jobs: seq<Job>, s: State, act: Action)
    requires Consistent(jobs, s) && CanStep(jobs, s, act)
    ensures |Next(jobs, s, act).publishers| == |jobs|
    ensures HoldsTemporary(Next(jobs, s, act).publishers[act.who]) ==>
              || TempName(jobs, Next(jobs, s, act), act.who) !in s.dir
              || (HoldsTemporary(s.publishers[act.who])
                  && TempName(jobs, Next(jobs, s, act), act.who) == TempName(jobs, s, act.who))
  {
  }

  lemma {:induction false} StepKeepsUnheld(jobs: seq<Job>, s: State, act: Action, n: Path)
    requires Consistent(jobs, s) && CanStep(jobs, s, act) && n in s.dir && !Held(jobs, s, n)
    ensures |Next(jobs, s, act).publishers| == |jobs| && !Held(jobs, Next(jobs, s, act), n)
  {
    var s' := Next(jobs, s, act);
    HeldNameWasFree(jobs, s, act);
    forall j | 0 <= j < |jobs| && HoldsTemporary(s'.publishers[j]) ensures TempName(jobs, s', j) != n {
      if j != act.who {
        StepMovesOne(jobs, s, act, j);
      }
    }
  }

  lemma {:induction false} StepKeepsFile(jobs: seq<Job>, s0: State, s: State, act: Action, n: Path)
    requires Inv(jobs, s0, s) && CanStep(jobs, s, act) && n in s.dir && !Held(jobs, s, n)
    ensures n in Next(jobs, s, act).dir
    ensures FileAt(Next(jobs, s, act), n) == FileAt(s, n)
  {
    if s.publishers[act.who].pc.Write? {
      UnheldIsNotWritten(jobs, s0, s, n, act.who);
    }
    StepWritesOwn(jobs, s, act, s.dir[n]);
    StepRebindsNothing(jobs, s, act);
    if n !in Next(jobs, s, act).dir {
      StepRemovesOwn(jobs, s, act, n);
    }
  }

  lemma {:induction false} RunKeepsUnheld(
    jobs: seq<Job>, s0: State, s: State, schedule: seq<Action>, s': State, n: Path)
    requires Inv(jobs, s0, s) && Runs(jobs, s, schedule, s') && n in s.dir && !Held(jobs, s, n)
    ensures n in s'.dir && FileAt(s', n) == FileAt(s, n)
    decreases |schedule|
  {
    if schedule != [] {
      StepKeepsInv(jobs, s0, s, schedule[0]);
      StepKeepsUnheld(jobs, s, schedule[0], n);
      StepKeepsFile(jobs, s0, s, schedule[0], n);
      RunKeepsUnheld(jobs, s0, Next(jobs, s, schedule[0]), schedule[1..], s', n);
    }
  }

  // Once present and not somebody's temporary, a name never changes again:
  // neither one that was there beforehand nor one published along the way.
  lemma {:induction false} DestinationIsFinal(
    jobs: seq<Job>, s0: State, before: seq<Action>, s: State, after: seq<Action>, s': State, path: Path)
    requires Initial(jobs, s0) && Runs(jobs, s0, before, s) && Runs(jobs, s, after, s')
    requires path in s.dir
    ensures |s.publishers| == |jobs| && FileAt(s, path).Some?
    ensures !Held(jobs, s, path) ==> FileAt(s', path) == FileAt(s, path)
  {
    InitialInv(jobs, s0);
    RunKeepsInv(jobs, s0, s0, before, s);
    if !Held(jobs, s, path) {
      RunKeepsUnheld(jobs, s0, s, after, s', path);
    }
  }
}
