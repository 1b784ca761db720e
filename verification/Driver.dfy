// The branch driver: replay a recording up to one decision, force another
// choice there, and report the decisions that follow.

module Driver {
  import opened Wrappers
  import opened Basics
  import opened Trace
  import opened IdMap
  import opened Window
  import opened Targets
  import opened Sorting
  import Shuffle
  import opened CastWindow
  import opened Combat
  import opened Replay
  import opened Setup

  datatype BranchSpec = BranchSpec(
    targetPlayer: string, targetIndex: nat, targetActionType: string,
    targetCandidateCount: int, altIndex: nat, continueSteps: nat)

  datatype Boundary = Boundary(
    marker: string, actionType: string, candidateCount: nat,
    candidateKeys: seq<string>, forcedKey: string, state: string)

  datatype Report = Report(status: string, detail: string, boundaries: seq<Boundary>)

  // ------------------------------------------------------------ reporting

  // A stack item has no rendering; such targets stop the original run.
  function TargetNames(state: GameState, targets: seq<Target>, players: Players): seq<string> {
    seq(|targets|, i requires 0 <= i < |targets| =>
      match targets[i]
      case Player(seat) => NameOf(players, seat)
      case Object(id) => Name(state, id)
      case StackItem(_) => "")
  }

  datatype Listing = Listing(actionType: string, keys: seq<string>)

  // The decision's own candidates; None at the end of the game.
  function DecisionCandidates(state: GameState, d: Decision, players: Players): (r: Option<Listing>)
    ensures r.None? <==> d.GameOver?
    ensures r.Some? ==> r.value.actionType != "GAME_OVER"
  {
    match d
    case CastSpellOrPass(_, _, _, _, _, _) => Some(Listing("ACTIVATE_ABILITY_OR_SPELL", ReportedKeys(state, d)))
    case ChooseTargets(_, legal, canFinish) =>
      Some(Listing("SELECT_TARGETS",
                      SortStrings(TargetNames(state, legal, players) + if canFinish then ["DONE"] else [])))
    case ChooseCostTargets(_, candidates) => Some(Listing("SELECT_TARGETS", SortStrings(Names(state, candidates))))
    case Discard(_, choices, _) => Some(Listing("SELECT_CARD", SortStrings(Names(state, choices))))
    case DeclareAttackers(_, eligible) =>
      Some(Listing("DECLARE_ATTACKS", SortStrings(Names(state, eligible) + ["DONE"])))
    case DeclareBlockersForAttacker(blockers) =>
      Some(Listing("DECLARE_BLOCKS", SortStrings(Names(state, blockers) + ["DONE"])))
    case GameOver(_) => None
    case _ => Some(Listing("OTHER", []))
  }

  // Pass where passing is possible, else the engine's first candidate.
  function ContinuationAction(engine: Engine, d: Decision): (r: Result<Action>)
    ensures r.Ok? ==> Listed(d, r.value)
    ensures d.GameOver? ==> r.Err?
  {
    match d
    case CastSpellOrPass(_, _, _, _, _, _) => Ok(Pass)
    case ChooseTargets(_, legal, canFinish) =>
      if legal != [] then Ok(ChooseTarget(legal[0]))
      else if canFinish then Ok(FinishSelection)
      else Err("continuation:no-legal-targets")
    case ChooseCostTargets(_, candidates) =>
      if candidates == [] then Err("continuation:no-cost-target-candidates") else Ok(ChooseCostTarget(candidates[0]))
    case Discard(_, choices, count) => Ok(DiscardCards(choices[..Min(count, |choices|)]))
    case DeclareAttackers(_, _) => Ok(Attack([]))
    case DeclareBlockersForAttacker(_) => Ok(Block([]))
    case ChooseMadnessCast(_) => Ok(CastForMadness(false))
    case ChooseEntryColor(_) => Err("continuation:unsupported-banner-entry-color-protocol")
    case DeclareBlockers(_) => Err("continuation:unreachable-DeclareBlockers")
    case GameOver(_) => Err("continuation:game-already-over")
    case Silent(_, _) => engine.defaultAnswer(d)
  }

  function Marker(step: nat): string {
    "POST_BRANCH_" + Decimal(step)
  }

  // The boundary reported for the decision reached at a step.
  function BoundaryAt(engine: Engine, players: Players, turn: Turn, step: nat): Boundary {
    var rendered := engine.render(turn.state);
    match turn.decision
    case GameOver(winner) =>
      Boundary(Marker(step), "GAME_OVER", 0, [],
               if winner.None? then "draw_or_unknown" else NameOf(players, winner.value), rendered)
    case _ =>
      var c := DecisionCandidates(turn.state, turn.decision, players).value;
      Boundary(Marker(step), c.actionType, |SortStrings(c.keys)|, SortStrings(c.keys), "", rendered)
  }

  // What a boundary lists: the keys of the listed actions once each in a cast
  // window, and otherwise the names of the candidates, with "DONE" where the
  // selection can be ended.
  ghost predicate ListsCandidates(state: GameState, d: Decision, players: Players, keys: seq<string>) {
    match d
    case CastSpellOrPass(_, _, _, _, _, _) =>
      && (forall key :: key in keys <==> exists a :: Listed(d, a) && KeyReads(state, a, key))
      && forall i, j | 0 <= i < j < |keys| :: keys[i] != keys[j]
    case ChooseTargets(_, legal, canFinish) =>
      exists names: seq<string> ::
        && |names| == |legal| && (forall i | 0 <= i < |legal| :: NamesTarget(state, legal[i], players, names[i]))
        && multiset(keys) == multiset(names + if canFinish then ["DONE"] else [])
    case ChooseCostTargets(_, candidates) => multiset(keys) == multiset(Names(state, candidates))
    case Discard(_, choices, _) => multiset(keys) == multiset(Names(state, choices))
    case DeclareAttackers(_, eligible) => multiset(keys) == multiset(Names(state, eligible) + ["DONE"])
    case DeclareBlockersForAttacker(blockers) => multiset(keys) == multiset(Names(state, blockers) + ["DONE"])
    case _ => keys == []
  }

  ghost predicate NamesTarget(state: GameState, t: Target, players: Players, name: string) {
    match t
    case Player(seat) => name == if seat == P0 then players.p0 else players.p1
    case Object(id) => name == Name(state, id)
    case StackItem(_) => true
  }

  lemma {:induction false} WindowListsCandidates(state: GameState, d: Decision, players: Players)
    requires d.CastSpellOrPass?
    ensures ListsCandidates(state, d, players, ReportedKeys(state, d))
  {
    WindowKeysAreReported(state, d);
    forall key ensures key in ReportedKeys(state, d) <==> exists a :: Listed(d, a) && KeyReads(state, a, key) {
      ReportedKeysRead(state, d, key);
    }
  }

  lemma {:induction false} TargetsAreListed(state: GameState, d: Decision, players: Players, keys: seq<string>)
    requires d.ChooseTargets?
    requires multiset(keys) ==
             multiset(TargetNames(state, d.legal, players) + if d.canFinish then ["DONE"] else [])
    ensures ListsCandidates(state, d, players, keys)
  {
    var names := TargetNames(state, d.legal, players);
    assert |names| == |d.legal| && forall i | 0 <= i < |d.legal| :: NamesTarget(state, d.legal[i], players, names[i]);
  }

  lemma {:induction false} DecisionListsCandidates(state: GameState, d: Decision, players: Players)
    requires !d.GameOver?
    ensures ListsCandidates(state, d, players, DecisionCandidates(state, d, players).value.keys)
  {
    if d.CastSpellOrPass? {
      WindowListsCandidates(state, d, players);
    } else if d.ChooseTargets? {
      TargetsAreListed(state, d, players, DecisionCandidates(state, d, players).value.keys);
    }
  }

  lemma {:induction false} SortedListsCandidates(
    state: GameState, d: Decision, players: Players, keys: seq<string>, sorted: seq<string>)
    requires ListsCandidates(state, d, players, keys) && multiset(sorted) == multiset(keys)
    ensures ListsCandidates(state, d, players, sorted)
  {
    if d.CastSpellOrPass? {
      forall key ensures key in sorted <==> key in keys {
        assert key in sorted <==> key in multiset(sorted);
        assert key in keys <==> key in multiset(keys);
      }
      Shuffle.PermutationOfDistinct(keys, sorted);
    } else if d.ChooseTargets? {
      var names :|
        && |names| == |d.legal|
        && (forall i | 0 <= i < |d.legal| :: NamesTarget(state, d.legal[i], players, names[i]))
        && multiset(keys) == multiset(names + if d.canFinish then ["DONE"] else []);
    } else if !(d.ChooseCostTargets? || d.Discard? || d.DeclareAttackers? || d.DeclareBlockersForAttacker?) {
      assert |multiset(sorted)| == 0;
    }
  }

  ghost function WinnerText(d: Decision, players: Players): string
    requires d.GameOver?
  {
    match d.winner
    case None => "draw_or_unknown"
    case Some(P0) => players.p0
    case Some(P1) => players.p1
  }

  // Reports list the decision's candidates in ascending order, and the end of
  // the game by its own action type only.
  lemma {:induction false} BoundaryIsSorted(engine: Engine, players: Players, turn: Turn, step: nat)
    ensures var b := BoundaryAt(engine, players, turn, step);
            && (forall i, j | 0 <= i < j < |b.candidateKeys| ::
                  b.candidateKeys[i] == b.candidateKeys[j] || Before(b.candidateKeys[i], b.candidateKeys[j]))
            && |b.candidateKeys| == b.candidateCount
            && (b.actionType == "GAME_OVER" <==> turn.decision.GameOver?)
            && (turn.decision.GameOver? ==> b.candidateKeys == [] && b.forcedKey == WinnerText(turn.decision, players))
            && (!turn.decision.GameOver? ==>
                  && ListsCandidates(turn.state, turn.decision, players, b.candidateKeys)
                  && b.actionType == ExpectedKind(turn.decision) && b.forcedKey == "")
            && b.marker == "POST_BRANCH_" + Decimal(step) && b.state == engine.render(turn.state)
  {
    if !turn.decision.GameOver? {
      var keys := DecisionCandidates(turn.state, turn.decision, players).value.keys;
      var sorted := SortStrings(keys);
      StringsAreOrdered(keys);
      SortSorts(keys, StringLe);
      forall i, j | 0 <= i < j < |sorted| ensures sorted[i] == sorted[j] || Before(sorted[i], sorted[j]) {
        StringLeMeansBefore(sorted[i], sorted[j]);
      }
      DecisionListsCandidates(turn.state, turn.decision, players);
      SortedListsCandidates(turn.state, turn.decision, players, keys, sorted);
    }
  }

  // What the continuation plays: it passes, declines and declares nobody where
  // it can, takes the first candidate where it must choose, and the first ones
  // where it must discard.
  lemma {:induction false} ContinuationTakesTheFirst(engine: Engine, d: Decision, a: Action)
    requires ContinuationAction(engine, d) == Ok(a) && !d.Silent?
    ensures match a
            case Pass => d.CastSpellOrPass?
            case ChooseTarget(t) => d.ChooseTargets? && d.legal != [] && t == d.legal[0]
            case FinishSelection => d.ChooseTargets? && d.legal == [] && d.canFinish
            case ChooseCostTarget(id) => d.ChooseCostTargets? && d.candidates != [] && id == d.candidates[0]
            case DiscardCards(ids) =>
              d.Discard? && ids <= d.choices && (|ids| == d.count || (|ids| < d.count && ids == d.choices))
            case Attack(ids) => d.DeclareAttackers? && ids == []
            case Block(ids) => d.DeclareBlockersForAttacker? && ids == []
            case CastForMadness(attempt) => d.ChooseMadnessCast? && !attempt
            case _ => false
  {
  }

  lemma {:induction false} MarkersDiffer(i: nat, j: nat)
    ensures Marker(i) == Marker(j) ==> i == j
    ensures Marker(i) != "BRANCHED"
  {
    assert Marker(i)[0] == 'P';
    if Marker(i) == Marker(j) {
      assert Marker(i)[12..] == Decimal(i) && Marker(j)[12..] == Decimal(j);
      DecimalInjective(i, j);
    }
  }

  // ------------------------------------------------------------ capture

  // The decision reached at a step after the branch under the continuation
  // policy, unless the walk stops earlier.
  function Reached(engine: Engine, start: GameState, step: nat): Option<Turn>
    requires step > 0
  {
    if step == 1 then Some(engine.next(start))
    else
      var before := Reached(engine, start, step - 1);
      if before.None? then None
      else
        var action := ContinuationAction(engine, before.value.decision);
        if action.Err? then None
        else
          var after := engine.apply(before.value.state, action.value);
          if after.Err? then None else Some(engine.next(after.value))
  }

  // The boundary reports the decision of step k.
  ghost predicate Shown(engine: Engine, players: Players, start: GameState, b: Boundary, k: nat)
    requires k > 0
  {
    var turn := Reached(engine, start, k);
    turn.Some? && b == BoundaryAt(engine, players, turn.value, k)
  }

  ghost predicate GoesOnAt(engine: Engine, start: GameState, k: nat)
    requires k > 0
  {
    var turn := Reached(engine, start, k);
    turn.Some? && !turn.value.decision.GameOver?
  }

  // One report for each of the steps 1..m, from the engine's own walk; only
  // the last may be the end of the game.
  ghost predicate Captured(engine: Engine, players: Players, start: GameState, boundaries: seq<Boundary>, m: nat) {
    && |boundaries| == m + 1
    && boundaries[0].marker == "BRANCHED"
    && (forall k | 1 <= k <= m :: Shown(engine, players, start, boundaries[k], k))
    && forall k | 1 <= k < m :: GoesOnAt(engine, start, k)
  }

  // No two boundaries of a capture carry the same marker.
  lemma {:induction false} CapturedMarkersDiffer(
    engine: Engine, players: Players, start: GameState, boundaries: seq<Boundary>, m: nat, i: nat, j: nat)
    requires Captured(engine, players, start, boundaries, m) && i < j <= m
    ensures boundaries[i].marker != boundaries[j].marker
  {
    assert Shown(engine, players, start, boundaries[j], j);
    assert i > 0 ==> Shown(engine, players, start, boundaries[i], i);
    MarkersDiffer(i, j);
    MarkersDiffer(j, i);
  }

  // Why a walk of m decisions ended: all that were asked for were reported,
  // or the game was over, or the walk could not go on.
  ghost predicate WalkEnds(engine: Engine, start: GameState, continueSteps: nat, m: nat, status: string)
    requires m > 0
  {
    var last := Reached(engine, start, m);
    && last.Some?
    && var d := last.value.decision;
       match status
       case "ok" => m == 1 + continueSteps || d.GameOver?
       case "continuation_blocked" =>
         m < 1 + continueSteps && !d.GameOver? && ContinuationAction(engine, d).Err?
       case "continuation_engine_error" =>
         && m < 1 + continueSteps && !d.GameOver?
         && ContinuationAction(engine, d).Ok? && Reached(engine, start, m + 1).None?
       case _ => false
  }

  ghost predicate CaptureEnds(engine: Engine, players: Players, start: GameState, continueSteps: nat, r: Report) {
    var m := |r.boundaries| - 1;
    && 1 <= m <= 1 + continueSteps
    && Captured(engine, players, start, r.boundaries, m)
    && WalkEnds(engine, start, continueSteps, m, r.status)
  }

  lemma {:induction false} CaptureOne(
    engine: Engine, players: Players, start: GameState, boundaries: seq<Boundary>, m: nat, b: Boundary)
    requires Captured(engine, players, start, boundaries, m) && Shown(engine, players, start, b, m + 1)
    requires m > 0 ==> GoesOnAt(engine, start, m)
    ensures Captured(engine, players, start, boundaries + [b], m + 1)
  {
    var more := boundaries + [b];
    forall k | 1 <= k <= m + 1 ensures Shown(engine, players, start, more[k], k) {
      assert k <= m ==> more[k] == boundaries[k] && Shown(engine, players, start, boundaries[k], k);
    }
  }

  lemma {:induction false} ReachedNext(engine: Engine, start: GameState, step: nat)
    requires step > 0 && Reached(engine, start, step).Some?
    ensures var turn := Reached(engine, start, step).value;
            var action := ContinuationAction(engine, turn.decision);
            if action.Err? then Reached(engine, start, step + 1).None?
            else
              var after := engine.apply(turn.state, action.value);
              Reached(engine, start, step + 1) == if after.Err? then None else Some(engine.next(after.value))
  {
  }

  // What happens once a decision has been reported: the capture ends with a
  // status and a detail, or goes on from a new state.
  datatype Onward = Ends(status: string, detail: string) | GoesOn(state: GameState)

  function Continue(engine: Engine, turn: Turn, last: bool): Onward {
    if turn.decision.GameOver? then Ends("ok", "reached_game_over_during_capture")
    else if last then Ends("ok", "")
    else
      var action := ContinuationAction(engine, turn.decision);
      if action.Err? then Ends("continuation_blocked", action.error)
      else
        var applied := engine.apply(turn.state, action.value);
        if applied.Err? then Ends("continuation_engine_error", applied.error) else GoesOn(applied.value)
  }

  lemma {:induction false} WalkStops(engine: Engine, start: GameState, continueSteps: nat, m: nat, turn: Turn)
    requires 1 <= m <= 1 + continueSteps && Reached(engine, start, m) == Some(turn)
    ensures var onward := Continue(engine, turn, m == 1 + continueSteps);
            onward.Ends? ==> WalkEnds(engine, start, continueSteps, m, onward.status)
  {
    ReachedNext(engine, start, m);
  }

  lemma {:induction false} CaptureGoesOn(engine: Engine, start: GameState, continueSteps: nat, m: nat, turn: Turn)
    requires 1 <= m <= 1 + continueSteps && Reached(engine, start, m) == Some(turn)
    ensures var onward := Continue(engine, turn, m == 1 + continueSteps);
            onward.GoesOn? ==> m <= continueSteps && !turn.decision.GameOver? &&
                               Reached(engine, start, m + 1) == Some(engine.next(onward.state))
  {
    ReachedNext(engine, start, m);
  }

  // Reports the decisions after the branch. Only a finished game has no
  // candidates, so no report ends for want of them.
  method Capture(engine: Engine, players: Players, start: GameState, branched: Boundary, continueSteps: nat)
    returns (r: Report)
    requires branched.marker == "BRANCHED"
    ensures CaptureEnds(engine, players, start, continueSteps, r) && r.boundaries[0] == branched
    ensures forall i, j | 0 <= i < j < |r.boundaries| :: r.boundaries[i].marker != r.boundaries[j].marker
  {
    r := CaptureFrom(engine, players, start, branched, continueSteps);
    forall i, j | 0 <= i < j < |r.boundaries| ensures r.boundaries[i].marker != r.boundaries[j].marker {
      CapturedMarkersDiffer(engine, players, start, r.boundaries, |r.boundaries| - 1, i, j);
    }
  }

  // Appends the report of the decision just reached.
  method Describe(engine: Engine, players: Players, turn: Turn, boundaries: seq<Boundary>, ghost start: GameState)
    returns (more: seq<Boundary>)
    requires boundaries != [] && Captured(engine, players, start, boundaries, |boundaries| - 1)
    requires |boundaries| > 1 ==> GoesOnAt(engine, start, |boundaries| - 1)
    requires Reached(engine, start, |boundaries|) == Some(turn)
    ensures Captured(engine, players, start, more, |boundaries|) && more[0] == boundaries[0]
  {
    var b := BoundaryAt(engine, players, turn, |boundaries|);
    CaptureOne(engine, players, start, boundaries, |boundaries| - 1, b);
    more := boundaries + [b];
  }

  method CaptureFrom(engine: Engine, players: Players, start: GameState, branched: Boundary, continueSteps: nat)
    returns (r: Report)
    requires branched.marker == "BRANCHED"
    ensures CaptureEnds(engine, players, start, continueSteps, r) && r.boundaries[0] == branched
  {
    var turn, step := engine.next(start), 1;
    var boundaries := Describe(engine, players, turn, [branched], start);
    while true
      invariant 1 <= step <= 1 + continueSteps
      invariant Captured(engine, players, start, boundaries, step) && boundaries[0] == branched
      invariant Reached(engine, start, step) == Some(turn)
      decreases 1 + continueSteps - step
    {
      var onward := Continue(engine, turn, step == 1 + continueSteps);
      if onward.Ends? {
        WalkStops(engine, start, continueSteps, step, turn);
        return Report(onward.status, onward.detail, boundaries);
      }
      CaptureGoesOn(engine, start, continueSteps, step, turn);
      turn, step := engine.next(onward.state), step + 1;
      boundaries := Describe(engine, players, turn, boundaries, start);
    }
  }

  lemma {:induction false} WalkGoesOn(
    engine: Engine, players: Players, start: GameState, boundaries: seq<Boundary>, n: nat, m: nat)
    requires Captured(engine, players, start, boundaries, n) && 1 <= m < n
    ensures GoesOnAt(engine, start, m) && Reached(engine, start, m + 1).Some?
  {
    assert Shown(engine, players, start, boundaries[m + 1], m + 1);
  }

  lemma {:induction false} WalkCannotGoOn(engine: Engine, start: GameState, continueSteps: nat, m: nat, status: string)
    requires 1 <= m < 1 + continueSteps && WalkEnds(engine, start, continueSteps, m, status)
    requires GoesOnAt(engine, start, m)
    ensures Reached(engine, start, m + 1).None?
  {
    ReachedNext(engine, start, m);
  }

  // A capture ends no earlier than another one from the same place.
  lemma {:induction false} EndsNoEarlier(
    engine: Engine, players: Players, start: GameState, continueSteps: nat, a: Report, b: Report)
    requires CaptureEnds(engine, players, start, continueSteps, a)
    requires CaptureEnds(engine, players, start, continueSteps, b)
    ensures |a.boundaries| >= |b.boundaries|
  {
    var m, n := |a.boundaries| - 1, |b.boundaries| - 1;
    if m < n {
      WalkGoesOn(engine, players, start, b.boundaries, n, m);
      WalkCannotGoOn(engine, start, continueSteps, m, a.status);
    }
  }

  lemma {:induction false} CapturedIsDetermined(
    engine: Engine, players: Players, start: GameState, a: seq<Boundary>, b: seq<Boundary>, m: nat)
    requires Captured(engine, players, start, a, m) && Captured(engine, players, start, b, m) && a[0] == b[0]
    ensures a == b
  {
    forall k | 0 <= k <= m ensures a[k] == b[k] {
      if k > 0 {
        assert Shown(engine, players, start, a[k], k) && Shown(engine, players, start, b[k], k);
      }
    }
  }

  // The engine and the policy determine the report of a capture.
  lemma {:induction false} CaptureIsDetermined(
    engine: Engine, players: Players, start: GameState, continueSteps: nat, a: Report, b: Report)
    requires CaptureEnds(engine, players, start, continueSteps, a)
    requires CaptureEnds(engine, players, start, continueSteps, b)
    requires a.boundaries[0] == b.boundaries[0]
    ensures a.boundaries == b.boundaries && a.status == b.status
  {
    EndsNoEarlier(engine, players, start, continueSteps, a, b);
    EndsNoEarlier(engine, players, start, continueSteps, b, a);
    CapturedIsDetermined(engine, players, start, a.boundaries, b.boundaries, |a.boundaries| - 1);
  }

  // ------------------------------------------------------------ forcing

  // The record's candidates match the engine's and the alternate is one.
  ghost predicate Forceable(state: GameState, d: Decision, rec: Record, idMap: Ids, seats: Seats, alt: nat) {
    match d
    case Discard(_, choices, _) =>
      && multiset(Names(state, choices)) == multiset(rec.texts)
      && alt < |rec.ids| && rec.ids[alt] in idMap && idMap[rec.ids[alt]] in choices
    case DeclareAttackers(_, _) => AllKnown(rec.ids, idMap, false) && alt < |rec.ids|
    case DeclareBlockersForAttacker(_) => AllKnown(rec.ids, idMap, true) && alt < |rec.ids|
    case _ => CandidatesMatch(state, d, rec, idMap, seats, Some(alt))
  }

  // The one action that the alternate is, checked against the engine's own
  // lists except for combat declarations.
  ghost function AlternateAction(
    state: GameState, d: Decision, rec: Record, idMap: Ids, seats: Seats, alt: nat): Option<Action>
  {
    match d
    case Discard(_, choices, _) => ToOption(AlternateDiscard(state, rec, choices, alt, idMap))
    case DeclareAttackers(_, _) => ToOption(AlternateCombat(Candidates(rec.ids, idMap, false), alt, false))
    case DeclareBlockersForAttacker(_) => ToOption(AlternateCombat(Candidates(rec.ids, idMap, true), alt, true))
    case _ => Resolution(state, d, rec, idMap, seats, Some(alt))
  }

  // A declaration of the candidate alone, or of nobody where it ends the list.
  ghost predicate DeclaresAlone(rec: Record, idMap: Ids, block: bool, alt: nat, ids: seq<ObjectId>) {
    && alt < |rec.ids|
    && if rec.ids[alt] == DONE then ids == [] else |ids| == 1 && CreatureIs(rec.ids[alt], idMap, block, ids[0])
  }

  // The action is what the record's candidate asks for.
  ghost predicate IsAlternate(
    state: GameState, d: Decision, rec: Record, idMap: Ids, seats: Seats, alt: nat, a: Action)
  {
    match d
    case DeclareAttackers(_, _) => a.Attack? && DeclaresAlone(rec, idMap, false, alt, a.ids)
    case DeclareBlockersForAttacker(_) => a.Block? && DeclaresAlone(rec, idMap, true, alt, a.ids)
    case _ => StandsFor(state, d, rec, idMap, seats, alt, a)
  }

  lemma {:induction false} CombatAlternateExists(rec: Record, idMap: Ids, block: bool, alt: nat)
    ensures var r := AlternateCombat(Candidates(rec.ids, idMap, block), alt, block);
            && (r.Ok? <==> AllKnown(rec.ids, idMap, block) && alt < |rec.ids|)
            && (r.Ok? && !block ==> r.value.Attack? && DeclaresAlone(rec, idMap, block, alt, r.value.ids))
            && (r.Ok? && block ==> r.value.Block? && DeclaresAlone(rec, idMap, block, alt, r.value.ids))
  {
    CandidatesAreFound(rec.ids, idMap, block);
    var found := Candidates(rec.ids, idMap, block);
    if found.Ok? && alt < |rec.ids| {
      assert EntryIs(rec.ids[alt], idMap, block, found.value[alt]);
    }
  }

  // It exists exactly when the lists match and the index is in range; it is
  // then a listed action, the one that the record's candidate asks for.
  lemma {:induction false} AlternateExists(
    state: GameState, d: Decision, rec: Record, idMap: Ids, seats: Seats, alt: nat)
    ensures var a := AlternateAction(state, d, rec, idMap, seats, alt);
            && (a.Some? <==> Forceable(state, d, rec, idMap, seats, alt))
            && (a.Some? ==> Listed(d, a.value) && IsAlternate(state, d, rec, idMap, seats, alt, a.value))
  {
    if d.Discard? {
      DiscardAlternateExists(state, rec, d.choices, alt, idMap);
    } else if d.DeclareAttackers? || d.DeclareBlockersForAttacker? {
      CombatAlternateExists(rec, idMap, d.DeclareBlockersForAttacker?, alt);
    } else {
      ResolutionIsListed(state, d, rec, idMap, seats, Some(alt));
    }
  }

  lemma {:induction false} AlternateIsUnique(
    state: GameState, d: Decision, rec: Record, idMap: Ids, seats: Seats, alt: nat, a: Action, b: Action)
    requires IsAlternate(state, d, rec, idMap, seats, alt, a) && IsAlternate(state, d, rec, idMap, seats, alt, b)
    ensures a == b
  {
    if d.DeclareAttackers? || d.DeclareBlockersForAttacker? {
      if rec.ids[alt] != DONE {
        CreatureIsUnique(rec.ids[alt], idMap, d.DeclareBlockersForAttacker?, a.ids[0], b.ids[0]);
      }
      assert a.ids == b.ids;
    } else {
      StandsForOne(state, d, rec, idMap, seats, alt, a, b);
    }
  }

  lemma {:induction false} DiscardAlternateExists(
    state: GameState, rec: Record, choices: seq<ObjectId>, alt: nat, idMap: Ids)
    ensures AlternateDiscard(state, rec, choices, alt, idMap).Ok? <==>
            && multiset(Names(state, choices)) == multiset(rec.texts)
            && alt < |rec.ids| && rec.ids[alt] in idMap && idMap[rec.ids[alt]] in choices
  {
    SortedCopiesAgree(Names(state, choices), rec.texts);
  }

  method ResolveAlternate(state: GameState, rec: Record, d: Decision, alt: nat, idMap: Ids, seats: Seats)
    returns (r: Result<Action>)
    ensures ToOption(r) == AlternateAction(state, d, rec, idMap, seats, alt)
    ensures r.Ok? <==> Forceable(state, d, rec, idMap, seats, alt)
  {
    AlternateExists(state, d, rec, idMap, seats, alt);
    match d {
      case Discard(_, choices, _) =>
        r := AlternateDiscard(state, rec, choices, alt, idMap);
      case DeclareAttackers(_, _) =>
        r := AlternateCombat(Candidates(rec.ids, idMap, false), alt, false);
      case DeclareBlockersForAttacker(_) =>
        r := AlternateCombat(Candidates(rec.ids, idMap, true), alt, true);
      case _ =>
        r := ResolveCandidate(state, d, rec, idMap, seats, Some(alt));
    }
  }

  function AlternateDiscard(
    state: GameState, rec: Record, choices: seq<ObjectId>, alt: nat, idMap: Ids): (r: Result<Action>)
    ensures r.Ok? ==> alt < |rec.ids| && rec.ids[alt] in idMap && idMap[rec.ids[alt]] in choices
    ensures r.Ok? ==> r.value == DiscardCards([idMap[rec.ids[alt]]])
  {
    if SortStrings(Names(state, choices)) != SortStrings(rec.texts) then Err("candidate-multiset-mismatch:Discard")
    else if alt >= |rec.ids| then Err("alt-index-out-of-range:Discard")
    else if rec.ids[alt] !in idMap then Err("untranslatable-object-id:Discard")
    else if idMap[rec.ids[alt]] !in choices then Err("alt-not-in-kernel-candidates:Discard")
    else Ok(DiscardCards([idMap[rec.ids[alt]]]))
  }

  // The end-of-list candidate is an empty declaration.
  function AlternateCombat(candidates: Result<seq<Option<ObjectId>>>, alt: nat, block: bool): Result<Action> {
    if candidates.Err? then Err(candidates.error)
    else if alt >= |candidates.value| then Err("alt-index-out-of-range")
    else
      var ids := if candidates.value[alt].None? then [] else [candidates.value[alt].value];
      Ok(if block then Block(ids) else Attack(ids))
  }

  // ------------------------------------------------------------ the driver

  function DecisionPlayer(d: Decision, state: GameState): Option<PlayerId> {
    match d
    case CastSpellOrPass(p, _, _, _, _, _) => Some(p)
    case ChooseTargets(p, _, _) => Some(p)
    case ChooseEntryColor(p) => Some(p)
    case ChooseCostTargets(p, _) => Some(p)
    case DeclareAttackers(p, _) => Some(p)
    case DeclareBlockers(p) => Some(p)
    case Discard(p, _, _) => Some(p)
    case DeclareBlockersForAttacker(_) => Some(Opponent(state.activePlayer))
    case _ => None
  }

  // The opponent of the active player decides on blocks; any other decision is
  // its own player's, and no record is looked up at the silent ones.
  lemma {:induction false} DeciderIs(d: Decision, state: GameState, p: PlayerId)
    ensures DecisionPlayer(d, state) == Some(p) <==>
            if d.DeclareBlockersForAttacker? then p != state.activePlayer
            else !d.GameOver? && !d.ChooseMadnessCast? && !d.Silent? && d.player == p
  {
  }

  function ExpectedKind(d: Decision): string {
    match d
    case CastSpellOrPass(_, _, _, _, _, _) => "ACTIVATE_ABILITY_OR_SPELL"
    case ChooseTargets(_, _, _) => "SELECT_TARGETS"
    case ChooseCostTargets(_, _) => "SELECT_TARGETS"
    case Discard(_, _, _) => "SELECT_CARD"
    case DeclareAttackers(_, _) => "DECLARE_ATTACKS"
    case DeclareBlockersForAttacker(_) => "DECLARE_BLOCKS"
    case _ => "OTHER"
  }

  // Why the record at the target does not fit the request; empty if it does.
  function Misalignment(spec: BranchSpec, d: Decision, rec: Record): string {
    if spec.targetActionType != "" && ExpectedKind(d) != spec.targetActionType then "action_type_mismatch"
    else if spec.targetActionType != "" && rec.actionType != spec.targetActionType then "trace_action_type_mismatch"
    else if spec.targetCandidateCount >= 0 && rec.candidateCount != spec.targetCandidateCount then
      "candidate_count_mismatch"
    else if spec.altIndex >= rec.candidateCount then "alt_index_out_of_range"
    else ""
  }

  // Everything that must hold where the alternate is forced.
  predicate Aligned(spec: BranchSpec, d: Decision, rec: Record, state: GameState, p: PlayerId) {
    && (spec.targetActionType != "" ==> ExpectedKind(d) == rec.actionType == spec.targetActionType)
    && (spec.targetCandidateCount >= 0 ==> rec.candidateCount == spec.targetCandidateCount)
    && spec.altIndex < rec.candidateCount
    && StateFits(state, p, rec)
  }

  lemma {:induction false} AlignedMeansNoProblem(
    spec: BranchSpec, d: Decision, rec: Record, state: GameState, p: PlayerId)
    ensures Aligned(spec, d, rec, state, p) <==> Misalignment(spec, d, rec) == "" && CheckState(state, p, rec) == ""
  {
    CheckStatePasses(state, p, rec);
  }

  ghost predicate Surfaced(engine: Engine, d: Decision, state: GameState) {
    exists before :: engine.next(before) == Turn(d, state)
  }

  const EXHAUSTED := "trace_exhausted_before_branch"
  const REPLAY_ERROR := "prefix_replay_error"
  const ALIGNMENT_ERROR := "alignment_error"

  predicate IsReplayFailure(status: string) {
    status == EXHAUSTED || status == REPLAY_ERROR || status == ALIGNMENT_ERROR
  }

  // Where the previews of a discard end.
  function PreviewEnd(queue: seq<Record>, from: nat): (to: nat)
    ensures from <= to && (from <= |queue| ==> to <= |queue|)
    ensures forall i | from <= i < to && i < |queue| :: queue[i].actionType == "SELECT_TARGETS"
    ensures to < |queue| ==> queue[to].actionType != "SELECT_TARGETS"
    decreases |queue| - from
  {
    if from < |queue| && queue[from].actionType == "SELECT_TARGETS" then PreviewEnd(queue, from + 1) else from
  }

  // The record that describes the decision reached with the cursor here.
  function RecordAt(queue: seq<Record>, d: Decision, arrival: nat): nat {
    if d.Discard? then PreviewEnd(queue, arrival) else arrival
  }

  // --------------------------------------------------- what phase one computes

  // Where phase one stands: still replaying, given up, or at the target. The
  // cursor of the target seat then points at the record.
  datatype Stand =
    | Replaying(known: Known, state: GameState)
    | GivenUp(status: string)
    | Arrived(known: Known, turn: Turn, rec: Record, arrival: nat)

  ghost function Onto(moved: Option<Moved>): Stand {
    if moved.None? then GivenUp(REPLAY_ERROR) else Replaying(moved.value.known, moved.value.state)
  }

  // At the requested place: ready to force when the record fits.
  function Arrive(g: Setting, spec: BranchSpec, k: Known, p: PlayerId, turn: Turn): Stand {
    var arrival := CursorOf(k, p);
    var at := RecordAt(QueueOf(g, p), turn.decision, arrival);
    if at >= |QueueOf(g, p)| then GivenUp(EXHAUSTED)
    else
      var rec := QueueOf(g, p)[at];
      if !Aligned(spec, turn.decision, rec, turn.state, p) then GivenUp(ALIGNMENT_ERROR)
      else Arrived(WithCursor(k.(idMap := LearnFrom(g, k.idMap, turn.state, rec)), p, at), turn, rec, arrival)
  }

  function Skip(g: Setting, k: Known, p: PlayerId, state: GameState): Known {
    WithCursor(k, p, SkipTo(state, k.idMap, QueueOf(g, p), CursorOf(k, p)))
  }

  // One decision: an unlogged window, the target, or one that follows the
  // recording after discards already applied.
  ghost function Step(g: Setting, spec: BranchSpec, target: PlayerId, k: Known, turn: Turn): Stand {
    var p := DecisionPlayer(turn.decision, turn.state);
    if p.None? then
      if turn.decision.GameOver? then GivenUp(EXHAUSTED) else Onto(PassWindow(g, k, turn))
    else
      var skipped := Skip(g, k, p.value, turn.state);
      if p.value == target && CursorOf(skipped, target) == spec.targetIndex
      then Arrive(g, spec, skipped, target, turn)
      else Onto(Follow(g, skipped, p.value, turn))
  }

  // Where phase one stands after one more decision.
  ghost function Next(g: Setting, spec: BranchSpec, target: PlayerId, s: Stand): Stand {
    if s.Replaying? then Step(g, spec, target, s.known, g.engine.next(s.state)) else s
  }

  function Iterated(next: Stand -> Stand, s: Stand, n: nat): Stand {
    if n == 0 then s else next(Iterated(next, s, n - 1))
  }

  ghost function Nexts(g: Setting, spec: BranchSpec, target: PlayerId): Stand -> Stand {
    s => Next(g, spec, target, s)
  }

  // Phase one after at most n decisions.
  ghost function Run(g: Setting, spec: BranchSpec, target: PlayerId, k: Known, start: GameState, n: nat): Stand {
    Iterated(Nexts(g, spec, target), Replaying(k, start), n)
  }

  lemma {:induction false} RunNext(
    g: Setting, spec: BranchSpec, target: PlayerId, k: Known, start: GameState, n: nat)
    ensures Run(g, spec, target, k, start, 0) == Replaying(k, start)
    ensures Run(g, spec, target, k, start, n + 1) == Next(g, spec, target, Run(g, spec, target, k, start, n))
  {
  }

  lemma {:induction false} IteratedKeeps(next: Stand -> Stand, good: Stand -> bool, s: Stand, n: nat)
    requires good(s) && forall x | good(x) :: good(next(x))
    ensures good(Iterated(next, s, n))
  {
    if n > 0 {
      IteratedKeeps(next, good, s, n - 1);
    }
  }

  lemma {:induction false} IteratedIsFinal(next: Stand -> Stand, s: Stand, m: nat, n: nat)
    requires m <= n && next(Iterated(next, s, m)) == Iterated(next, s, m)
    ensures Iterated(next, s, n) == Iterated(next, s, m)
  {
    if m < n {
      IteratedIsFinal(next, s, m, n - 1);
    }
  }

  // ------------------------------------------------------ what phase one keeps

  // The driver stands at the requested decision of the requested seat, whose
  // record fits the request and the state. Only a discard's previews lie
  // between the cursor on arrival and the record.
  ghost predicate AtBranch(g: Setting, spec: BranchSpec, target: PlayerId, s: Stand)
    requires s.Arrived?
  {
    var queue := QueueOf(g, target);
    && s.arrival == spec.targetIndex
    && CursorOf(s.known, target) == RecordAt(queue, s.turn.decision, s.arrival) < |queue|
    && s.rec == queue[CursorOf(s.known, target)]
    && Aligned(spec, s.turn.decision, s.rec, s.turn.state, target)
    && DecisionPlayer(s.turn.decision, s.turn.state) == Some(target)
  }

  // Every outcome is where it should be, having only learned and advanced.
  ghost predicate StandsWell(g: Setting, spec: BranchSpec, target: PlayerId, k: Known, s: Stand) {
    match s
    case Replaying(known, _) => Advances(g, k, known)
    case GivenUp(status) => IsReplayFailure(status)
    case Arrived(known, turn, _, _) =>
      && Advances(g, k, known) && AtBranch(g, spec, target, s)
      && Surfaced(g.engine, turn.decision, turn.state)
  }

  lemma {:induction false} AdvancesTransitive(g: Setting, a: Known, b: Known, c: Known)
    requires Advances(g, a, b) && Advances(g, b, c)
    ensures Advances(g, a, c)
  {
    LearnsTransitive(a.idMap, b.idMap, c.idMap, g.pregame, g.seats);
  }

  lemma {:induction false} ArriveStandsWell(g: Setting, spec: BranchSpec, k: Known, p: PlayerId, turn: Turn)
    requires DecisionPlayer(turn.decision, turn.state) == Some(p) && CursorOf(k, p) == spec.targetIndex
    ensures var s := Arrive(g, spec, k, p, turn);
            if s.Arrived? then Advances(g, k, s.known) && AtBranch(g, spec, p, s) && s.turn == turn
            else s.GivenUp? && IsReplayFailure(s.status)
  {
    var at := RecordAt(QueueOf(g, p), turn.decision, CursorOf(k, p));
    if at < |QueueOf(g, p)| {
      var rec := QueueOf(g, p)[at];
      LearnedLearns(k.idMap, g.pregame, |turn.state.objects|, g.seats, Mentioned(rec));
    }
  }

  lemma {:induction false} WindowStandsWell(g: Setting, spec: BranchSpec, target: PlayerId, k: Known, turn: Turn)
    ensures StandsWell(g, spec, target, k, Onto(PassWindow(g, k, turn)))
  {
    if PassWindow(g, k, turn).Some? {
      PassWindowAdvances(g, k, turn);
    }
  }

  lemma {:induction false} FollowStandsWell(
    g: Setting, spec: BranchSpec, target: PlayerId, k: Known, skipped: Known, p: PlayerId, turn: Turn)
    requires Advances(g, k, skipped)
    ensures StandsWell(g, spec, target, k, Onto(Follow(g, skipped, p, turn)))
  {
    if Follow(g, skipped, p, turn).Some? {
      FollowAdvances(g, skipped, p, turn);
      AdvancesTransitive(g, k, skipped, Follow(g, skipped, p, turn).value.known);
    }
  }

  lemma {:induction false} ArrivalStandsWell(
    g: Setting, spec: BranchSpec, target: PlayerId, k: Known, skipped: Known, turn: Turn)
    requires Advances(g, k, skipped) && Surfaced(g.engine, turn.decision, turn.state)
    requires DecisionPlayer(turn.decision, turn.state) == Some(target) && CursorOf(skipped, target) == spec.targetIndex
    ensures StandsWell(g, spec, target, k, Arrive(g, spec, skipped, target, turn))
  {
    ArriveStandsWell(g, spec, skipped, target, turn);
    var s := Arrive(g, spec, skipped, target, turn);
    if s.Arrived? {
      AdvancesTransitive(g, k, skipped, s.known);
    }
  }

  lemma {:induction false} SkipAdvances(g: Setting, k: Known, p: PlayerId, state: GameState)
    ensures Advances(g, k, Skip(g, k, p, state))
  {
  }

  lemma {:induction false} StepStandsWell(
    g: Setting, spec: BranchSpec, target: PlayerId, k: Known, state: GameState)
    ensures StandsWell(g, spec, target, k, Step(g, spec, target, k, g.engine.next(state)))
  {
    var turn := g.engine.next(state);
    assert Surfaced(g.engine, turn.decision, turn.state);
    var p := DecisionPlayer(turn.decision, turn.state);
    if p.None? {
      WindowStandsWell(g, spec, target, k, turn);
    } else {
      var skipped := Skip(g, k, p.value, turn.state);
      SkipAdvances(g, k, p.value, turn.state);
      if p.value == target && CursorOf(skipped, target) == spec.targetIndex {
        ArrivalStandsWell(g, spec, target, k, skipped, turn);
      } else {
        FollowStandsWell(g, spec, target, k, skipped, p.value, turn);
      }
    }
  }

  // Over every run: the map only learns, so it stays injective and gap-free;
  // cursors only advance; and the target is reached only where it should be.
  lemma {:induction false} RunStandsWell(
    g: Setting, spec: BranchSpec, target: PlayerId, k: Known, start: GameState, n: nat)
    ensures StandsWell(g, spec, target, k, Run(g, spec, target, k, start, n))
  {
    var good := s => StandsWell(g, spec, target, k, s);
    assert Advances(g, k, k);
    forall x | good(x) ensures good(Nexts(g, spec, target)(x)) {
      NextStandsWell(g, spec, target, k, x, Next(g, spec, target, x));
    }
    IteratedKeeps(Nexts(g, spec, target), good, Replaying(k, start), n);
  }

  lemma {:induction false} NextStandsWell(
    g: Setting, spec: BranchSpec, target: PlayerId, k: Known, s: Stand, next: Stand)
    requires StandsWell(g, spec, target, k, s) && next == Next(g, spec, target, s)
    ensures StandsWell(g, spec, target, k, next)
  {
    if s.Replaying? {
      StepStandsWell(g, spec, target, s.known, s.state);
      StandsTransitive(g, spec, target, k, s.known, next);
    }
  }

  lemma {:induction false} StandsTransitive(
    g: Setting, spec: BranchSpec, target: PlayerId, a: Known, b: Known, s: Stand)
    requires Advances(g, a, b) && StandsWell(g, spec, target, b, s)
    ensures StandsWell(g, spec, target, a, s)
  {
    if !s.GivenUp? {
      AdvancesTransitive(g, a, b, s.known);
    }
  }

  // Giving up and arriving are final: more decisions change nothing.
  lemma {:induction false} RunIsFinal(
    g: Setting, spec: BranchSpec, target: PlayerId, k: Known, start: GameState, m: nat, n: nat)
    requires m <= n && !Run(g, spec, target, k, start, m).Replaying?
    ensures Run(g, spec, target, k, start, n) == Run(g, spec, target, k, start, m)
  {
    IteratedIsFinal(Nexts(g, spec, target), Replaying(k, start), m, n);
  }

  // ------------------------------------------------------ phase one, in place

  // What the methods report: like a stand, with the reason for giving up.
  datatype Phase =
    | Running(state: GameState)
    | Stopped(status: string, detail: string)
    | AtTarget(turn: Turn, rec: Record, arrival: nat)

  // The context and the phase are as computed.
  ghost predicate Meets(ctx: ReplayCtx, phase: Phase, s: Stand)
    reads ctx
  {
    match s
    case Replaying(known, state) => phase == Running(state) && ctx.Knows() == known
    case GivenUp(status) => phase.Stopped? && phase.status == status
    case Arrived(known, turn, rec, arrival) => phase == AtTarget(turn, rec, arrival) && ctx.Knows() == known
  }

  function ReplayPhase(r: Result<GameState>): Phase {
    if r.Err? then Stopped(REPLAY_ERROR, r.error) else Running(r.value)
  }

  // Skips the previews of a discard, then checks the record at the target.
  method ArriveAtTarget(engine: Engine, spec: BranchSpec, ctx: ReplayCtx, p: PlayerId, turn: Turn)
    returns (phase: Phase)
    requires ctx.Valid()
    modifies ctx
    ensures ctx.Valid() && Meets(ctx, phase, Arrive(ctx.For(engine), spec, old(ctx.Knows()), p, turn))
  {
    var arrival := ctx.Cursor(p);
    SkipPreviews(ctx, p, turn.decision);
    var rec := ctx.Next(p);
    if rec.None? {
      return Stopped(EXHAUSTED, "no trace record at target cursor");
    }
    AlignedMeansNoProblem(spec, turn.decision, rec.value, turn.state, p);
    var misalignment := Misalignment(spec, turn.decision, rec.value);
    if misalignment != "" {
      return Stopped(ALIGNMENT_ERROR, misalignment);
    }
    var difference := CheckState(turn.state, p, rec.value);
    if difference != "" {
      return Stopped(ALIGNMENT_ERROR, "pre_branch_state_mismatch:" + difference);
    }
    ctx.LearnTokenIds(turn.state, rec.value);
    phase := AtTarget(turn, rec.value, arrival);
  }

  method SkipPreviews(ctx: ReplayCtx, p: PlayerId, d: Decision)
    requires ctx.Valid()
    modifies ctx
    ensures ctx.Valid()
    ensures ctx.Knows() == WithCursor(old(ctx.Knows()), p, RecordAt(ctx.Queue(p), d, old(ctx.Cursor(p))))
  {
    if d.Discard? {
      while ctx.Next(p).Some? && ctx.Next(p).value.actionType == "SELECT_TARGETS"
        invariant ctx.Valid() && ctx.Knows() == WithCursor(old(ctx.Knows()), p, ctx.Cursor(p))
        invariant PreviewEnd(ctx.Queue(p), ctx.Cursor(p)) == PreviewEnd(ctx.Queue(p), old(ctx.Cursor(p)))
        decreases |ctx.Queue(p)| - ctx.Cursor(p)
      {
        ctx.Advance(p);
      }
    }
  }

  method ReplayStep(engine: Engine, spec: BranchSpec, target: PlayerId, ctx: ReplayCtx, turn: Turn)
    returns (phase: Phase)
    requires ctx.Valid()
    modifies ctx
    ensures ctx.Valid() && Meets(ctx, phase, Step(ctx.For(engine), spec, target, old(ctx.Knows()), turn))
  {
    var p := DecisionPlayer(turn.decision, turn.state);
    if p.None? {
      if turn.decision.GameOver? {
        return Stopped(EXHAUSTED, "GameOver reached before the target decision");
      }
      var applied := ctx.ApplySilentWindow(engine, turn);
      return ReplayPhase(applied);
    }
    ctx.SkipStaleForcedDiscards(turn.state, p.value);
    if p.value == target && ctx.Cursor(target) == spec.targetIndex {
      phase := ArriveAtTarget(engine, spec, ctx, target, turn);
    } else {
      var applied := ctx.ApplyFromTrace(engine, p.value, turn);
      phase := ReplayPhase(applied);
    }
  }

  // Phase one for at most `fuel` decisions; the engine decides how many a
  // recording takes.
  method ReplayToBranch(engine: Engine, spec: BranchSpec, target: PlayerId, ctx: ReplayCtx, start: GameState, fuel: nat)
    returns (phase: Phase)
    requires ctx.Valid()
    modifies ctx
    ensures ctx.Valid() && Meets(ctx, phase, Run(ctx.For(engine), spec, target, old(ctx.Knows()), start, fuel))
  {
    phase := Running(start);
    ghost var g, k := ctx.For(engine), ctx.Knows();
    RunNext(g, spec, target, k, start, 0);
    for n := 0 to fuel
      invariant ctx.Valid() && phase.Running? && Meets(ctx, phase, Run(g, spec, target, k, start, n))
    {
      RunNext(g, spec, target, k, start, n);
      phase := ReplayStep(engine, spec, target, ctx, engine.next(phase.state));
      if !phase.Running? {
        RunIsFinal(g, spec, target, k, start, n + 1, fuel);
        return;
      }
    }
  }

  // ------------------------------------------------------------ the whole run

  // One forced choice, with what it was based on.
  datatype Force = Force(
    seat: PlayerId, arrival: nat, rec: Record, turn: Turn, idMap: Ids, seats: Seats, action: Action)

  // Phase two puts the alternate to the engine exactly when there is one.
  ghost function ForcedAt(g: Setting, spec: BranchSpec, target: PlayerId, s: Stand): seq<Force>
    requires s.Arrived?
  {
    var a := AlternateAction(s.turn.state, s.turn.decision, s.rec, s.known.idMap, g.seats, spec.altIndex);
    if a.None? then [] else [Force(target, s.arrival, s.rec, s.turn, s.known.idMap, g.seats, a.value)]
  }

  // The report of a run that arrived, given the choices it forced: an error
  // without boundaries, or the engine's own walk from the forced choice.
  ghost predicate ReportsBranch(
    engine: Engine, spec: BranchSpec, players: Players, s: Stand, forces: seq<Force>, r: Report)
    requires s.Arrived? && |forces| <= 1
  {
    if forces == [] || engine.apply(s.turn.state, forces[0].action).Err? then
      r.status == "force_error" && r.boundaries == []
    else
      && CaptureEnds(engine, players, engine.apply(s.turn.state, forces[0].action).value, spec.continueSteps, r)
      && r.boundaries[0] == Boundary("BRANCHED", s.rec.actionType, s.rec.candidateCount, [],
                                     "alt_index=" + Decimal(spec.altIndex), engine.render(s.turn.state))
  }

  // Phases two and three. The alternate is put to the engine exactly when it
  // is forceable; the status is "force_error" exactly when it is not or the
  // engine rejects it.
  method Branch(engine: Engine, spec: BranchSpec, target: PlayerId, players: Players, ctx: ReplayCtx, phase: Phase,
                ghost s: Stand)
    returns (r: Report, forces: seq<Force>)
    requires s.Arrived? && Meets(ctx, phase, s)
    ensures forces == ForcedAt(ctx.For(engine), spec, target, s) && ReportsBranch(engine, spec, players, s, forces, r)
    ensures |forces| == 1 <==>
            Forceable(phase.turn.state, phase.turn.decision, phase.rec, ctx.idMap, ctx.seats, spec.altIndex)
    ensures r.status == "force_error" <==>
            forces == [] || engine.apply(phase.turn.state, forces[0].action).Err?
  {
    forces := [];
    var turn, rec := phase.turn, phase.rec;
    var action := ResolveAlternate(turn.state, rec, turn.decision, spec.altIndex, ctx.idMap, ctx.seats);
    if action.Err? {
      return Report("force_error", action.error, []), forces;
    }
    forces := [Force(target, phase.arrival, rec, turn, ctx.idMap, ctx.seats, action.value)];
    var forced := engine.apply(turn.state, action.value);
    if forced.Err? {
      return Report("force_error", forced.error, []), forces;
    }
    var branched := Boundary("BRANCHED", rec.actionType, rec.candidateCount, [],
                             "alt_index=" + Decimal(spec.altIndex), engine.render(turn.state));
    r := Capture(engine, players, forced.value, branched, spec.continueSteps);
    StatusIsCaptured(engine, players, forced.value, spec.continueSteps, r);
  }

  lemma {:induction false} StatusIsCaptured(
    engine: Engine, players: Players, start: GameState, continueSteps: nat, r: Report)
    requires CaptureEnds(engine, players, start, continueSteps, r)
    ensures !IsReplayFailure(r.status) && r.status != "setup_error" && r.status != "force_error"
  {
  }

  predicate HasUnknownCard(engine: Engine, deck: seq<string>) {
    exists card | card in deck :: !engine.knownCard(card)
  }

  // The players of the recording include the requested one, and both have an
  // opening hand and a deck of known cards.
  predicate SetUp(engine: Engine, recording: Recording, spec: BranchSpec, players: Players) {
    && AreThePlayers(recording.decisions, players)
    && (spec.targetPlayer == players.p0 || spec.targetPlayer == players.p1)
    && players.p0 in recording.openings && players.p1 in recording.openings
    && !HasUnknownCard(engine, Deck(recording.openings[players.p0]))
    && !HasUnknownCard(engine, Deck(recording.openings[players.p1]))
  }

  lemma {:induction false} PlayersAreDetermined(decisions: seq<Record>, a: Players, b: Players)
    requires AreThePlayers(decisions, a) && AreThePlayers(decisions, b)
    ensures a == b
  {
    var i :| 0 <= i < |decisions| && decisions[i].player == a.p1;
  }

  // The checks before a run, in the order in which they can fail it.
  method CheckSetUp(engine: Engine, recording: Recording, spec: BranchSpec) returns (r: Result<Players>)
    ensures r.Ok? ==> SetUp(engine, recording, spec, r.value)
    ensures r.Err? ==> forall players :: !SetUp(engine, recording, spec, players)
  {
    var named := SeatNames(recording.decisions);
    if named.Err? {
      return Err(named.error);
    }
    var players := named.value;
    forall other | AreThePlayers(recording.decisions, other) ensures other == players {
      PlayersAreDetermined(recording.decisions, other, players);
    }
    if spec.targetPlayer != players.p0 && spec.targetPlayer != players.p1 {
      return Err("target_player not found in trace");
    } else if players.p0 !in recording.openings || players.p1 !in recording.openings {
      return Err("no-opening-hand-record");
    } else if HasUnknownCard(engine, Deck(recording.openings[players.p0]))
              || HasUnknownCard(engine, Deck(recording.openings[players.p1])) {
      return Err("setup:unknown-card-name");
    }
    return Ok(players);
  }

  function TargetSeat(spec: BranchSpec, players: Players): PlayerId {
    if spec.targetPlayer == players.p0 then P0 else P1
  }

  // Where phase one of a recording ends.
  ghost function PhaseOne(engine: Engine, recording: Recording, spec: BranchSpec, fuel: nat, players: Players): Stand
    requires SetUp(engine, recording, spec, players)
  {
    var o0, o1 := recording.openings[players.p0], recording.openings[players.p1];
    Run(SettingOf(engine, recording.decisions, players, o0, o1), spec, TargetSeat(spec, players),
        KnownAtStart(o0, o1), engine.deal(Deck(o0), Deck(o1)), fuel)
  }

  // What a whole run yields where phase one ends: no report while still
  // replaying, the failure of phase one, or the branch.
  ghost predicate YieldsAt(engine: Engine, spec: BranchSpec, players: Players, g: Setting, s: Stand,
                           r: Option<Report>, forces: seq<Force>)
  {
    match s
    case Replaying(_, _) => r.None? && forces == []
    case GivenUp(status) => r.Some? && r.value.status == status && r.value.boundaries == [] && forces == []
    case Arrived(_, _, _, _) =>
      && r.Some? && forces == ForcedAt(g, spec, TargetSeat(spec, players), s)
      && ReportsBranch(engine, spec, players, s, forces, r.value)
  }

  // What a run yields is computed from the recording and the engine.
  ghost predicate Yields(engine: Engine, recording: Recording, spec: BranchSpec, fuel: nat, players: Players,
                         r: Option<Report>, forces: seq<Force>)
    requires SetUp(engine, recording, spec, players)
  {
    var o0, o1 := recording.openings[players.p0], recording.openings[players.p1];
    var g := SettingOf(engine, recording.decisions, players, o0, o1);
    YieldsAt(engine, spec, players, g, PhaseOne(engine, recording, spec, fuel, players), r, forces)
  }

  // The choice was due: the requested seat, index and record, a decision the
  // engine surfaced, and the listed action that the alternate is.
  ghost predicate Due(engine: Engine, spec: BranchSpec, players: Players, f: Force) {
    var d, state := f.turn.decision, f.turn.state;
    && NameOf(players, f.seat) == spec.targetPlayer
    && f.arrival == spec.targetIndex
    && DecisionPlayer(d, state) == Some(f.seat)
    && Surfaced(engine, d, state)
    && Aligned(spec, d, f.rec, state, f.seat)
    && Listed(d, f.action)
    && IsAlternate(state, d, f.rec, f.idMap, f.seats, spec.altIndex, f.action)
  }

  lemma {:induction false} ForcedIsDue(
    engine: Engine, spec: BranchSpec, players: Players, g: Setting, target: PlayerId, s: Stand, f: Force)
    requires s.Arrived? && AtBranch(g, spec, target, s) && Surfaced(engine, s.turn.decision, s.turn.state)
    requires NameOf(players, target) == spec.targetPlayer && f in ForcedAt(g, spec, target, s)
    ensures Due(engine, spec, players, f)
  {
    AlternateExists(s.turn.state, s.turn.decision, s.rec, s.known.idMap, g.seats, spec.altIndex);
  }

  // A report other than a failure follows one choice the engine accepted.
  ghost predicate FollowsForce(engine: Engine, spec: BranchSpec, players: Players, forces: seq<Force>, r: Report) {
    && |forces| == 1
    && var after := engine.apply(forces[0].turn.state, forces[0].action);
    && after.Ok? && CaptureEnds(engine, players, after.value, spec.continueSteps, r)
  }

  lemma {:induction false} BranchIsSafe(
    engine: Engine, spec: BranchSpec, players: Players, s: Stand, forces: seq<Force>, r: Report)
    requires s.Arrived? && |forces| <= 1 && ReportsBranch(engine, spec, players, s, forces, r)
    requires forces != [] ==> forces[0].turn == s.turn
    ensures r.status == "force_error" || FollowsForce(engine, spec, players, forces, r)
    ensures !IsReplayFailure(r.status) && r.status != "setup_error"
    ensures r.status == "force_error" ==> r.boundaries == []
  {
    if forces != [] && engine.apply(s.turn.state, forces[0].action).Ok? {
      StatusIsCaptured(engine, players, engine.apply(s.turn.state, forces[0].action).value, spec.continueSteps, r);
    }
  }

  // Safety of whole runs. At most one choice is forced, and only when due;
  // failures report no boundaries; and all other reports follow one choice
  // that the engine accepted.
  lemma {:induction false} YieldsSafely(
    engine: Engine, recording: Recording, spec: BranchSpec, fuel: nat, players: Players,
    r: Option<Report>, forces: seq<Force>)
    requires SetUp(engine, recording, spec, players) && Yields(engine, recording, spec, fuel, players, r, forces)
    ensures |forces| <= 1 && forall f | f in forces :: Due(engine, spec, players, f)
    ensures r.Some? ==> r.value.status != "setup_error"
    ensures r.Some? && IsReplayFailure(r.value.status) ==> r.value.boundaries == [] && forces == []
    ensures r.Some? && r.value.status == "force_error" ==> r.value.boundaries == []
    ensures r.Some? && !IsReplayFailure(r.value.status) && r.value.status != "force_error" ==>
              FollowsForce(engine, spec, players, forces, r.value)
  {
    var o0, o1 := recording.openings[players.p0], recording.openings[players.p1];
    var g, target := SettingOf(engine, recording.decisions, players, o0, o1), TargetSeat(spec, players);
    var s := PhaseOne(engine, recording, spec, fuel, players);
    RunStandsWell(g, spec, target, KnownAtStart(o0, o1), engine.deal(Deck(o0), Deck(o1)), fuel);
    if s.Arrived? {
      forall f | f in forces ensures Due(engine, spec, players, f) {
        ForcedIsDue(engine, spec, players, g, target, s, f);
      }
      BranchIsSafe(engine, spec, players, s, forces, r.value);
    }
  }

  // The map behind a run: with one UUID per card it is injective and
  // gap-free wherever phase one stands.
  lemma {:induction false} MapStaysGapFree(
    engine: Engine, recording: Recording, spec: BranchSpec, fuel: nat, players: Players)
    requires SetUp(engine, recording, spec, players)
    requires WellRecorded(recording.openings[players.p0], recording.openings[players.p1])
    ensures var s := PhaseOne(engine, recording, spec, fuel, players);
            var o0, o1 := recording.openings[players.p0], recording.openings[players.p1];
            !s.GivenUp? ==> GapFree(s.known.idMap, |Deck(o0)| + |Deck(o1)|)
  {
    var o0, o1 := recording.openings[players.p0], recording.openings[players.p1];
    var g, target := SettingOf(engine, recording.decisions, players, o0, o1), TargetSeat(spec, players);
    StartsGapFree(o0, o1);
    RunStandsWell(g, spec, target, KnownAtStart(o0, o1), engine.deal(Deck(o0), Deck(o1)), fuel);
  }

  lemma {:induction false} PhaseOneIgnoresMulligans(
    engine: Engine, recording: Recording, rest: Recording, spec: BranchSpec, fuel: nat, players: Players)
    requires SetUp(engine, recording, spec, players) && SetUp(engine, rest, spec, players)
    requires rest.openings == recording.openings && WithoutMulligans(recording.decisions, rest.decisions)
    ensures PhaseOne(engine, rest, spec, fuel, players) == PhaseOne(engine, recording, spec, fuel, players)
  {
    var o0, o1 := recording.openings[players.p0], recording.openings[players.p1];
    SettingIgnoresMulligans(engine, recording.decisions, rest.decisions, players, o0, o1);
  }

  // Mulligan records make no difference: without them a recording of the same
  // players and decks takes phase one to the same place and yields the same.
  lemma {:induction false} MulligansMakeNoDifference(
    engine: Engine, recording: Recording, rest: Recording, spec: BranchSpec, fuel: nat, players: Players,
    r: Option<Report>, forces: seq<Force>)
    requires SetUp(engine, recording, spec, players) && SetUp(engine, rest, spec, players)
    requires rest.openings == recording.openings && WithoutMulligans(recording.decisions, rest.decisions)
    ensures PhaseOne(engine, rest, spec, fuel, players) == PhaseOne(engine, recording, spec, fuel, players)
    ensures Yields(engine, rest, spec, fuel, players, r, forces) <==>
            Yields(engine, recording, spec, fuel, players, r, forces)
  {
    var o0, o1 := recording.openings[players.p0], recording.openings[players.p1];
    SettingIgnoresMulligans(engine, recording.decisions, rest.decisions, players, o0, o1);
    PhaseOneIgnoresMulligans(engine, recording, rest, spec, fuel, players);
  }

  // A whole run. Without a report, `fuel` decisions did not reach the target.
  method BranchAndDiff(engine: Engine, recording: Recording, spec: BranchSpec, fuel: nat)
    returns (r: Option<Report>, forces: seq<Force>)
    ensures forall players | SetUp(engine, recording, spec, players) ::
              Yields(engine, recording, spec, fuel, players, r, forces)
    ensures (forall players :: !SetUp(engine, recording, spec, players)) ==>
              r.Some? && r.value.status == "setup_error" && r.value.boundaries == [] && forces == []
    ensures r.Some? && r.value.status == "setup_error" ==> forall players :: !SetUp(engine, recording, spec, players)
  {
    forces := [];
    var checked := CheckSetUp(engine, recording, spec);
    if checked.Err? {
      return Some(Report("setup_error", checked.error, [])), forces;
    }
    var players := checked.value;
    r, forces := RunRecording(engine, recording, spec, fuel, players);
    forall other | SetUp(engine, recording, spec, other) ensures other == players {
      PlayersAreDetermined(recording.decisions, other, players);
    }
  }

  method RunRecording(engine: Engine, recording: Recording, spec: BranchSpec, fuel: nat, players: Players)
    returns (r: Option<Report>, forces: seq<Force>)
    requires SetUp(engine, recording, spec, players)
    ensures Yields(engine, recording, spec, fuel, players, r, forces)
    ensures r.Some? ==> r.value.status != "setup_error"
  {
    forces := [];
    var o0, o1 := recording.openings[players.p0], recording.openings[players.p1];
    var target := TargetSeat(spec, players);
    var ctx := NewContext(engine, recording.decisions, players, o0, o1);
    var phase := ReplayToBranch(engine, spec, target, ctx, engine.deal(Deck(o0), Deck(o1)), fuel);
    match phase {
      case Running(_) => r := None;
      case Stopped(status, detail) => r := Some(Report(status, detail, []));
      case AtTarget(_, _, _) =>
        var report;
        ghost var s := PhaseOne(engine, recording, spec, fuel, players);
        report, forces := Branch(engine, spec, target, players, ctx, phase, s);
        r := Some(report);
    }
    YieldsSafely(engine, recording, spec, fuel, players, r, forces);
  }
}
