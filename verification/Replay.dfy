// Replaying a recorded game: per-seat cursors over the records, the growing
// UUID map, and the application of recorded choices to the engine.

module Replay {
  import opened Wrappers
  import opened Basics
  import opened Trace
  import opened IdMap
  import opened Window
  import opened CastWindow
  import opened Targets
  import opened Combat
  import opened Sorting
  import Shuffle

  // ------------------------------------------------------------ history

  datatype Event = Consumed(seat: PlayerId, index: nat) | Played(decision: Decision, action: Action)

  // The record indices of one seat in the order they were consumed.
  function Consumptions(log: seq<Event>, p: PlayerId): seq<nat> {
    if log == [] then []
    else
      var last := log[|log| - 1];
      Consumptions(log[..|log| - 1], p) + if last.Consumed? && last.seat == p then [last.index] else []
  }

  // Each record below a cursor was consumed once, in order, and every action
  // put to the engine was one its decision listed.
  ghost predicate LogOk(log: seq<Event>, cursor0: nat, cursor1: nat) {
    && Consumptions(log, P0) == Shuffle.Iota(cursor0)
    && Consumptions(log, P1) == Shuffle.Iota(cursor1)
    && forall i | 0 <= i < |log| && log[i].Played? :: Listed(log[i].decision, log[i].action)
  }

  lemma {:induction false} ConsumptionsAppend(log: seq<Event>, e: Event, p: PlayerId)
    ensures Consumptions(log + [e], p) ==
            Consumptions(log, p) + if e.Consumed? && e.seat == p then [e.index] else []
  {
    assert (log + [e])[..|log|] == log;
  }

  lemma {:induction false} ConsumeKeepsLog(log: seq<Event>, cursor0: nat, cursor1: nat, p: PlayerId)
    requires LogOk(log, cursor0, cursor1)
    ensures p == P0 ==> LogOk(log + [Consumed(p, cursor0)], cursor0 + 1, cursor1)
    ensures p == P1 ==> LogOk(log + [Consumed(p, cursor1)], cursor0, cursor1 + 1)
  {
    var e := Consumed(p, if p == P0 then cursor0 else cursor1);
    ConsumptionsAppend(log, e, P0);
    ConsumptionsAppend(log, e, P1);
    assert Shuffle.Iota(cursor0 + 1) == Shuffle.Iota(cursor0) + [cursor0];
    assert Shuffle.Iota(cursor1 + 1) == Shuffle.Iota(cursor1) + [cursor1];
  }

  lemma {:induction false} PlayKeepsLog(log: seq<Event>, cursor0: nat, cursor1: nat, d: Decision, a: Action)
    requires LogOk(log, cursor0, cursor1) && Listed(d, a)
    ensures LogOk(log + [Played(d, a)], cursor0, cursor1)
  {
    ConsumptionsAppend(log, Played(d, a), P0);
    ConsumptionsAppend(log, Played(d, a), P1);
  }

  // ------------------------------------------------------------ recorded choices

  function First(s: seq<nat>): Option<nat> {
    if s == [] then None else Some(s[0])
  }

  // The action is the one the record's candidate at this index stands for.
  ghost predicate StandsFor(
    state: GameState, d: Decision, rec: Record, idMap: Ids, seats: Seats, index: nat, a: Action)
  {
    match d
    case CastSpellOrPass(_, _, _, _, _, _) =>
      index < Min(|rec.texts|, |rec.ids|) && Chooses(state, d, idMap, rec.texts[index], rec.ids[index], a)
    case ChooseTargets(_, _, _) =>
      index < |rec.ids| && a.ChooseTarget? && Denotes(rec.ids[index], idMap, seats, a.target)
    case ChooseCostTargets(_, _) =>
      index < |rec.ids| && a.ChooseCostTarget? && rec.ids[index] in idMap && a.id == idMap[rec.ids[index]]
    case Discard(_, _, _) =>
      index < |rec.ids| && rec.ids[index] in idMap && a == DiscardCards([idMap[rec.ids[index]]])
    case _ => false
  }

  // There is one such action.
  lemma {:induction false} StandsForOne(
    state: GameState, d: Decision, rec: Record, idMap: Ids, seats: Seats, index: nat, a: Action, b: Action)
    requires StandsFor(state, d, rec, idMap, seats, index, a) && StandsFor(state, d, rec, idMap, seats, index, b)
    ensures a == b
  {
    if d.CastSpellOrPass? {
      ChoiceIsUnique(state, d, idMap, rec.texts[index], rec.ids[index], a, b);
    } else if d.ChooseTargets? {
      TranslateDenotes(rec.ids[index], idMap, seats, a.target);
      TranslateDenotes(rec.ids[index], idMap, seats, b.target);
    }
  }

  // The recorded index that a decision other than a discard follows.
  function FollowedIndex(d: Decision, rec: Record): Option<nat> {
    if d.CastSpellOrPass? && |rec.chosen| != 1 then None else First(rec.chosen)
  }

  // The record's candidates match those of the decision, and the index is
  // that of one of them.
  ghost predicate CandidatesMatch(
    state: GameState, d: Decision, rec: Record, idMap: Ids, seats: Seats, index: Option<nat>)
  {
    index.Some? &&
    match d
    case CastSpellOrPass(_, _, _, _, _, _) =>
      WindowMatches(state, d, rec, idMap) && index.value < Min(|rec.texts|, |rec.ids|)
    case ChooseTargets(_, legal, _) =>
      TargetsMatch(rec.ids, idMap, seats, legal) && index.value < |rec.ids|
    case ChooseCostTargets(_, candidates) =>
      CostMatches(rec, idMap, candidates) && index.value < Min(|rec.texts|, |rec.ids|)
    case _ => false
  }

  // The one action that a matching candidate resolves to.
  ghost function Resolution(
    state: GameState, d: Decision, rec: Record, idMap: Ids, seats: Seats, index: Option<nat>): Option<Action>
  {
    if !CandidatesMatch(state, d, rec, idMap, seats, index) then None
    else
      match d
      case CastSpellOrPass(_, _, _, _, _, _) =>
        Find(ByKey(state, d), CandidateKeys(state, d, idMap, rec)[index.value].value)
      case ChooseTargets(_, _, _) =>
        var target := Translate(rec.ids[index.value], idMap, seats);
        if target.None? then None else Some(ChooseTarget(target.value))
      case ChooseCostTargets(_, _) =>
        if rec.ids[index.value] !in idMap then None else Some(ChooseCostTarget(idMap[rec.ids[index.value]]))
      case _ => None
  }

  // Resolves one recorded candidate of a cast, target or cost decision: the
  // recorded choice during replay, or the alternate at the branch.
  method ResolveCandidate(
    state: GameState, d: Decision, rec: Record, idMap: Ids, seats: Seats, index: Option<nat>)
    returns (r: Result<Action>)
    ensures ToOption(r) == Resolution(state, d, rec, idMap, seats, index)
    ensures r.Ok? <==> CandidatesMatch(state, d, rec, idMap, seats, index)
    ensures r.Ok? ==> Listed(d, r.value) && StandsFor(state, d, rec, idMap, seats, index.value, r.value)
  {
    ResolutionIsListed(state, d, rec, idMap, seats, index);
    match d {
      case CastSpellOrPass(_, _, _, _, _, _) =>
        KeysMatchExactly(state, d, rec, idMap);
        r := ResolveCast(state, d, rec, idMap, index);
      case ChooseTargets(_, legal, _) =>
        var target := ResolveTraceTarget(rec.ids, legal, idMap, seats, index);
        if target.Ok? {
          TranslateDenotes(rec.ids[index.value], idMap, seats, target.value);
        }
        r := if target.Err? then Err(target.error) else Ok(ChooseTarget(target.value));
      case ChooseCostTargets(_, candidates) =>
        var id := ResolveCostTarget(rec, candidates, idMap, index);
        r := if id.Err? then Err(id.error) else Ok(ChooseCostTarget(id.value));
      case _ =>
        r := Err("unsupported-decision-kind");
    }
  }

  // A matching candidate always resolves, to a listed action it stands for.
  lemma {:induction false} ResolutionIsListed(
    state: GameState, d: Decision, rec: Record, idMap: Ids, seats: Seats, index: Option<nat>)
    ensures CandidatesMatch(state, d, rec, idMap, seats, index) ==>
              var r := Resolution(state, d, rec, idMap, seats, index);
              r.Some? && Listed(d, r.value) && StandsFor(state, d, rec, idMap, seats, index.value, r.value)
  {
    if CandidatesMatch(state, d, rec, idMap, seats, index) {
      match d {
        case CastSpellOrPass(_, _, _, _, _, _) => CastResolves(state, d, rec, idMap, index.value);
        case ChooseTargets(_, legal, _) => TargetResolves(rec, idMap, seats, legal, index.value);
        case ChooseCostTargets(_, candidates) => CostResolves(rec, idMap, candidates, index.value);
      }
    }
  }

  lemma {:induction false} CastResolves(state: GameState, d: Decision, rec: Record, idMap: Ids, index: nat)
    requires d.CastSpellOrPass? && WindowMatches(state, d, rec, idMap) && index < Min(|rec.texts|, |rec.ids|)
    ensures CandidateKeys(state, d, idMap, rec)[index].Some?
    ensures var r := Find(ByKey(state, d), CandidateKeys(state, d, idMap, rec)[index].value);
            r.Some? && Listed(d, r.value) && Chooses(state, d, idMap, rec.texts[index], rec.ids[index], r.value)
  {
    KeysMatchExactly(state, d, rec, idMap);
    var keys := CandidateKeys(state, d, idMap, rec);
    var texts := seq(|keys|, i requires 0 <= i < |keys| => keys[i].value);
    MatchedWindow(state, d, texts);
    assert texts[index] == keys[index].value;
    FoundIsChosen(state, d, rec, idMap, index, Find(ByKey(state, d), texts[index]).value);
  }

  lemma {:induction false} TargetResolves(rec: Record, idMap: Ids, seats: Seats, legal: seq<Target>, index: nat)
    requires TargetsMatch(rec.ids, idMap, seats, legal) && index < |rec.ids|
    ensures var t := Translate(rec.ids[index], idMap, seats);
            t.Some? && t.value in legal && Denotes(rec.ids[index], idMap, seats, t.value)
  {
    var targets :| Translated(rec.ids, idMap, seats, targets) && multiset(targets) == multiset(legal);
    assert Denotes(rec.ids[index], idMap, seats, targets[index]);
    TranslateDenotes(rec.ids[index], idMap, seats, targets[index]);
    assert targets[index] in multiset(targets);
  }

  lemma {:induction false} CostResolves(rec: Record, idMap: Ids, candidates: seq<ObjectId>, index: nat)
    requires CostMatches(rec, idMap, candidates) && index < Min(|rec.texts|, |rec.ids|)
    ensures rec.ids[index] in idMap && idMap[rec.ids[index]] in candidates
  {
    var ids :| CostTranslated(rec, idMap, ids) && multiset(Objects(ids)) == multiset(Objects(candidates));
    assert ids[index] == idMap[rec.ids[index]];
    CostIsDecided(rec, idMap, candidates, ids);
  }

  function CombatAction(ids: Result<seq<ObjectId>>, block: bool): Option<Action> {
    if ids.Err? then None else Some(if block then Block(ids.value) else Attack(ids.value))
  }

  // The one action the record says to take at a decision other than a
  // discard; None when the record cannot be followed.
  ghost function RecordedAction(state: GameState, d: Decision, rec: Record, idMap: Ids, seats: Seats): Option<Action> {
    match d
    case DeclareAttackers(_, _) =>
      if rec.actionType != "DECLARE_ATTACKS" then None
      else CombatAction(CombatChoice(Candidates(rec.ids, idMap, false), rec.chosen), false)
    case DeclareBlockersForAttacker(_) =>
      if rec.actionType != "DECLARE_BLOCKS" then None
      else CombatAction(CombatChoice(Candidates(rec.ids, idMap, true), rec.chosen), true)
    case CastSpellOrPass(_, _, _, _, _, _) =>
      if rec.actionType != "ACTIVATE_ABILITY_OR_SPELL" then None
      else Resolution(state, d, rec, idMap, seats, FollowedIndex(d, rec))
    case _ =>
      if rec.actionType != "SELECT_TARGETS" then None
      else Resolution(state, d, rec, idMap, seats, FollowedIndex(d, rec))
  }

  // The action is what the record did: in combat, declaring the chosen
  // creatures; otherwise, choosing its one candidate or its first.
  ghost predicate Follows(state: GameState, d: Decision, rec: Record, idMap: Ids, seats: Seats, a: Action) {
    match d
    case DeclareAttackers(_, _) =>
      rec.actionType == "DECLARE_ATTACKS" && a.Attack? && Declares(rec.ids, idMap, false, rec.chosen, a.ids)
    case DeclareBlockersForAttacker(_) =>
      rec.actionType == "DECLARE_BLOCKS" && a.Block? && Declares(rec.ids, idMap, true, rec.chosen, a.ids)
    case CastSpellOrPass(_, _, _, _, _, _) =>
      && rec.actionType == "ACTIVATE_ABILITY_OR_SPELL" && |rec.chosen| == 1
      && StandsFor(state, d, rec, idMap, seats, rec.chosen[0], a)
    case Discard(_, _, _) => false
    case _ =>
      rec.actionType == "SELECT_TARGETS" && rec.chosen != [] && StandsFor(state, d, rec, idMap, seats, rec.chosen[0], a)
  }

  // The record is of the decision's kind, its candidates are those of the
  // decision, and what it chose is among them.
  ghost predicate Followable(state: GameState, d: Decision, rec: Record, idMap: Ids, seats: Seats) {
    match d
    case DeclareAttackers(_, _) =>
      && rec.actionType == "DECLARE_ATTACKS" && AllKnown(rec.ids, idMap, false)
      && forall j :: !OutOfRange(rec.ids, rec.chosen, j)
    case DeclareBlockersForAttacker(_) =>
      && rec.actionType == "DECLARE_BLOCKS" && AllKnown(rec.ids, idMap, true)
      && forall j :: !OutOfRange(rec.ids, rec.chosen, j)
    case CastSpellOrPass(_, _, _, _, _, _) =>
      && rec.actionType == "ACTIVATE_ABILITY_OR_SPELL" && WindowMatches(state, d, rec, idMap)
      && |rec.chosen| == 1 && rec.chosen[0] < Min(|rec.texts|, |rec.ids|)
    case ChooseTargets(_, legal, _) =>
      && rec.actionType == "SELECT_TARGETS" && TargetsMatch(rec.ids, idMap, seats, legal)
      && rec.chosen != [] && rec.chosen[0] < |rec.ids|
    case ChooseCostTargets(_, candidates) =>
      && rec.actionType == "SELECT_TARGETS" && CostMatches(rec, idMap, candidates)
      && rec.chosen != [] && rec.chosen[0] < Min(|rec.texts|, |rec.ids|)
    case _ => false
  }

  // The action found is a listed one, the one that the record did, and there is
  // one exactly when the record fits.
  ghost predicate Found(
    state: GameState, d: Decision, rec: Record, idMap: Ids, seats: Seats, r: Option<Action>)
  {
    && (r.Some? <==> Followable(state, d, rec, idMap, seats))
    && (r.Some? ==> Listed(d, r.value) && Follows(state, d, rec, idMap, seats, r.value))
  }

  lemma {:induction false} CombatFollows(state: GameState, d: Decision, rec: Record, idMap: Ids, seats: Seats)
    requires d.DeclareAttackers? || d.DeclareBlockersForAttacker?
    ensures Found(state, d, rec, idMap, seats, RecordedAction(state, d, rec, idMap, seats))
  {
    ChoiceDeclares(rec.ids, idMap, d.DeclareBlockersForAttacker?, rec.chosen);
  }

  lemma {:induction false} ChoiceFollows(state: GameState, d: Decision, rec: Record, idMap: Ids, seats: Seats)
    requires !d.DeclareAttackers? && !d.DeclareBlockersForAttacker? && !d.Discard?
    ensures Found(state, d, rec, idMap, seats, RecordedAction(state, d, rec, idMap, seats))
  {
    var index := FollowedIndex(d, rec);
    ResolutionIsListed(state, d, rec, idMap, seats, index);
    assert Resolution(state, d, rec, idMap, seats, index).Some? <==>
        CandidatesMatch(state, d, rec, idMap, seats, index);
  }

  // A record can be followed exactly when it fits, to the action it did.
  lemma {:induction false} RecordedFollows(state: GameState, d: Decision, rec: Record, idMap: Ids, seats: Seats)
    requires !d.Discard?
    ensures Found(state, d, rec, idMap, seats, RecordedAction(state, d, rec, idMap, seats))
  {
    if d.DeclareAttackers? || d.DeclareBlockersForAttacker? {
      CombatFollows(state, d, rec, idMap, seats);
    } else {
      ChoiceFollows(state, d, rec, idMap, seats);
    }
  }

  lemma {:induction false} FollowsOne(
    state: GameState, d: Decision, rec: Record, idMap: Ids, seats: Seats, a: Action, b: Action)
    requires Follows(state, d, rec, idMap, seats, a) && Follows(state, d, rec, idMap, seats, b)
    ensures a == b
  {
    if d.DeclareAttackers? || d.DeclareBlockersForAttacker? {
      DeclarationIsUnique(rec.ids, idMap, d.DeclareBlockersForAttacker?, rec.chosen, a.ids, b.ids);
    } else {
      StandsForOne(state, d, rec, idMap, seats, rec.chosen[0], a, b);
    }
  }

  method ResolveRecorded(state: GameState, d: Decision, rec: Record, idMap: Ids, seats: Seats)
    returns (r: Result<Action>)
    requires !d.Discard?
    ensures ToOption(r) == RecordedAction(state, d, rec, idMap, seats)
    ensures Found(state, d, rec, idMap, seats, ToOption(r))
  {
    RecordedFollows(state, d, rec, idMap, seats);
    match d {
      case DeclareAttackers(_, _) =>
        if rec.actionType != "DECLARE_ATTACKS" {
          return Err("decision-kind-mismatch:DeclareAttackers");
        }
        var ids := CombatChoice(Candidates(rec.ids, idMap, false), rec.chosen);
        r := if ids.Err? then Err(ids.error) else Ok(Attack(ids.value));
      case DeclareBlockersForAttacker(_) =>
        if rec.actionType != "DECLARE_BLOCKS" {
          return Err("decision-kind-mismatch:DeclareBlockers");
        }
        var ids := CombatChoice(Candidates(rec.ids, idMap, true), rec.chosen);
        r := if ids.Err? then Err(ids.error) else Ok(Block(ids.value));
      case CastSpellOrPass(_, _, _, _, _, _) =>
        if rec.actionType != "ACTIVATE_ABILITY_OR_SPELL" {
          return Err("decision-kind-mismatch:CastSpellOrPass");
        }
        r := ResolveCandidate(state, d, rec, idMap, seats, FollowedIndex(d, rec));
      case _ =>
        if rec.actionType != "SELECT_TARGETS" {
          return Err("decision-kind-mismatch-or-unsupported-for-prefix-replay");
        }
        r := ResolveCandidate(state, d, rec, idMap, seats, FollowedIndex(d, rec));
    }
  }

  // ------------------------------------------------------------ discards

  // The state after discarding the picks one by one.
  ghost predicate DiscardsTo(engine: Engine, from: GameState, picks: seq<ObjectId>, to: GameState)
    decreases |picks|
  {
    if picks == [] then to == from
    else
      var n := |picks| - 1;
      exists middle ::
        DiscardsTo(engine, from, picks[..n], middle) && engine.apply(middle, DiscardCards([picks[n]])) == Ok(to)
  }

  function Without(choices: seq<ObjectId>, id: ObjectId): (r: seq<ObjectId>)
    ensures forall x :: x in r <==> x in choices && x != id
  {
    if choices == [] then []
    else
      var last := choices[|choices| - 1];
      assert choices == choices[..|choices| - 1] + [last];
      Without(choices[..|choices| - 1], id) + if last == id then [] else [last]
  }

  // All other choices stay, in their order.
  lemma {:induction false} WithoutSelects(choices: seq<ObjectId>, id: ObjectId, keep: ObjectId -> bool)
    returns (at: seq<nat>)
    requires forall x :: keep(x) <==> x != id
    ensures Selects(choices, keep, at, Without(choices, id))
  {
    WithoutIsFilter(choices, id, keep);
    at := FilterSelects(choices, keep);
  }

  lemma {:induction false} WithoutIsFilter(choices: seq<ObjectId>, id: ObjectId, keep: ObjectId -> bool)
    requires forall x :: keep(x) <==> x != id
    ensures Without(choices, id) == Filter(choices, keep)
  {
    if choices != [] {
      WithoutIsFilter(choices[..|choices| - 1], id, keep);
    }
  }

  // The picks so far: distinct, among the original choices, no longer among
  // the remaining ones, and discarded one by one.
  ghost predicate Picked(engine: Engine, start: GameState, original: seq<ObjectId>,
                         picks: seq<ObjectId>, choices: seq<ObjectId>, state: GameState)
  {
    && DiscardsTo(engine, start, picks, state)
    && (forall id | id in choices :: id in original && id !in picks)
    && (forall i | 0 <= i < |picks| :: picks[i] in original)
    && forall i, j | 0 <= i < j < |picks| :: picks[i] != picks[j]
  }

  lemma {:induction false} PickOne(engine: Engine, start: GameState, original: seq<ObjectId>, picks: seq<ObjectId>,
                choices: seq<ObjectId>, state: GameState, pick: ObjectId, after: GameState)
    requires Picked(engine, start, original, picks, choices, state) && pick in choices
    requires engine.apply(state, DiscardCards([pick])) == Ok(after)
    ensures Picked(engine, start, original, picks + [pick], Without(choices, pick), after)
  {
    assert (picks + [pick])[..|picks|] == picks;
  }

  // The card a record picks from the remaining choices, if it fits them.
  function PickOf(state: GameState, choices: seq<ObjectId>, rec: Record, idMap: Ids): Option<ObjectId> {
    if multiset(Names(state, choices)) == multiset(rec.texts)
       && rec.chosen != [] && rec.chosen[0] < |rec.texts|
       && rec.chosenIds != [] && rec.chosenIds[0] in idMap && idMap[rec.chosenIds[0]] in choices
    then Some(idMap[rec.chosenIds[0]])
    else None
  }

  method ResolvePick(state: GameState, choices: seq<ObjectId>, rec: Record, idMap: Ids)
    returns (r: Result<ObjectId>)
    ensures ToOption(r) == PickOf(state, choices, rec, idMap)
  {
    SortedCopiesAgree(Names(state, choices), rec.texts);
    if SortStrings(Names(state, choices)) != SortStrings(rec.texts) {
      return Err("candidate-multiset-mismatch:Discard");
    } else if rec.chosen == [] {
      return Err("unexpected-chosen-count:Discard");
    } else if rec.chosen[0] >= |rec.texts| {
      return Err("chosen-index-out-of-range:Discard");
    } else if rec.chosenIds == [] {
      return Err("missing-chosen-object-id:Discard");
    } else if rec.chosenIds[0] !in idMap {
      return Err("untranslatable-object-id:Discard");
    }
    var id := idMap[rec.chosenIds[0]];
    if id !in choices {
      return Err("chosen-not-in-kernel-candidates:Discard");
    }
    return Ok(id);
  }

  // The names a terminal summary lists, unless an index is out of range.
  function SummaryNames(rec: Record, chosen: seq<nat>): Option<seq<string>> {
    if chosen == [] then Some([])
    else if chosen[0] >= |rec.texts| then None
    else
      var tail := SummaryNames(rec, chosen[1..]);
      if tail.None? then None else Some([rec.texts[chosen[0]]] + tail.value)
  }

  // A discard the engine has already applied by itself.
  predicate Stale(state: GameState, idMap: Ids, rec: Record) {
    && rec.actionType == "SELECT_CARD" && rec.chosenIds != []
    && forall u | u in rec.chosenIds :: u in idMap && At(state, idMap[u]).zone in {Graveyard, Exile}
  }

  // The record chooses cards, and each is bound and lies in a graveyard or in
  // exile.
  ghost predicate AlreadyDiscarded(state: GameState, idMap: Ids, rec: Record) {
    && rec.actionType == "SELECT_CARD" && |rec.chosenIds| > 0
    && forall i | 0 <= i < |rec.chosenIds| ::
         && rec.chosenIds[i] in idMap
         && var zone := At(state, idMap[rec.chosenIds[i]]).zone; zone == Graveyard || zone == Exile
  }

  lemma {:induction false} StaleIsDiscarded(state: GameState, idMap: Ids, rec: Record)
    ensures Stale(state, idMap, rec) <==> AlreadyDiscarded(state, idMap, rec)
  {
    if AlreadyDiscarded(state, idMap, rec) {
      forall u | u in rec.chosenIds ensures u in idMap && At(state, idMap[u]).zone in {Graveyard, Exile} {
        var i: nat :| i < |rec.chosenIds| && rec.chosenIds[i] == u;
      }
    }
  }

  // The first position from which a queue does not start with such records.
  function SkipTo(state: GameState, idMap: Ids, queue: seq<Record>, from: nat): (to: nat)
    ensures from <= to && (from <= |queue| ==> to <= |queue|)
    ensures forall i | from <= i < to && i < |queue| :: Stale(state, idMap, queue[i])
    ensures to < |queue| ==> !Stale(state, idMap, queue[to])
    decreases |queue| - from
  {
    if from < |queue| && Stale(state, idMap, queue[from]) then SkipTo(state, idMap, queue, from + 1) else from
  }

  // ------------------------------------------------- what replay computes

  // What a replay never changes.
  datatype Setting = Setting(engine: Engine, pregame: nat, seats: Seats, queue0: seq<Record>, queue1: seq<Record>)

  // What replay knows between two decisions.
  datatype Known = Known(idMap: Ids, cursor0: nat, cursor1: nat)

  datatype Moved = Moved(known: Known, state: GameState)

  function QueueOf(g: Setting, p: PlayerId): seq<Record> {
    if p == P0 then g.queue0 else g.queue1
  }

  function CursorOf(k: Known, p: PlayerId): nat {
    if p == P0 then k.cursor0 else k.cursor1
  }

  function WithCursor(k: Known, p: PlayerId, cursor: nat): Known {
    if p == P0 then k.(cursor0 := cursor) else k.(cursor1 := cursor)
  }

  function RecordOf(g: Setting, k: Known, p: PlayerId): Option<Record> {
    if CursorOf(k, p) < |QueueOf(g, p)| then Some(QueueOf(g, p)[CursorOf(k, p)]) else None
  }

  function LearnFrom(g: Setting, idMap: Ids, state: GameState, rec: Record): Ids {
    Learned(idMap, g.pregame, |state.objects|, g.seats, Mentioned(rec))
  }

  // A discard under way: what is left to choose from, what was picked, and
  // the map, which learns from every record.
  datatype Discarding = Discarding(
    state: GameState, choices: seq<ObjectId>, picks: seq<ObjectId>, names: seq<string>, idMap: Ids)

  // One more pick, as the record says.
  function DiscardOne(g: Setting, x: Discarding, rec: Record): Option<Discarding> {
    var idMap := LearnFrom(g, x.idMap, x.state, rec);
    var pick := PickOf(x.state, x.choices, rec, idMap);
    if rec.actionType != "SELECT_TARGETS" || pick.None? then None
    else
      var after := g.engine.apply(x.state, DiscardCards([pick.value]));
      if after.Err? then None
      else
        Some(Discarding(after.value, Without(x.choices, pick.value), x.picks + [pick.value],
                        x.names + [rec.texts[rec.chosen[0]]], idMap))
  }

  function NotYetPicked(turn: Turn, idMap: Ids): Discarding
    requires turn.decision.Discard?
  {
    Discarding(turn.state, turn.decision.choices, [], [], idMap)
  }

  // A discard from its start through n picks, one for each of the records
  // from a position on.
  ghost predicate IsDiscard(g: Setting, start: Discarding, queue: seq<Record>, from: nat, n: nat, xs: seq<Discarding>) {
    && |xs| == n + 1 && xs[0] == start
    && from + n <= |queue|
    && forall i | 0 <= i < n :: PicksAt(g, queue, from, xs, i)
  }

  // Pick i is the one its record makes.
  ghost predicate PicksAt(g: Setting, queue: seq<Record>, from: nat, xs: seq<Discarding>, i: nat)
    requires i + 1 < |xs| && from + i < |queue|
  {
    DiscardOne(g, xs[i], queue[from + i]) == Some(xs[i + 1])
  }

  // The discard after n picks, if it gets that far.
  ghost function Discards(g: Setting, start: Discarding, queue: seq<Record>, from: nat, n: nat): Option<Discarding> {
    if exists xs :: IsDiscard(g, start, queue, from, n, xs) then
      var xs :| IsDiscard(g, start, queue, from, n, xs);
      Some(xs[n])
    else None
  }

  lemma {:induction false} SamePick(
    g: Setting, queue: seq<Record>, from: nat, xs: seq<Discarding>, ys: seq<Discarding>, i: nat)
    requires i + 1 < |xs| && i + 1 < |ys| && from + i < |queue| && xs[i] == ys[i]
    requires PicksAt(g, queue, from, xs, i) && PicksAt(g, queue, from, ys, i)
    ensures xs[i + 1] == ys[i + 1]
  {
  }

  lemma {:induction false} SameNext(
    g: Setting, start: Discarding, queue: seq<Record>, from: nat, m: nat, n: nat,
    xs: seq<Discarding>, ys: seq<Discarding>, i: nat)
    requires IsDiscard(g, start, queue, from, m, xs) && IsDiscard(g, start, queue, from, n, ys)
    requires i < m && i < n && xs[i] == ys[i]
    ensures xs[i + 1] == ys[i + 1]
  {
    assert PicksAt(g, queue, from, xs, i) && PicksAt(g, queue, from, ys, i);
    SamePick(g, queue, from, xs, ys, i);
  }

  lemma {:induction false} DiscardIsDetermined(
    g: Setting, start: Discarding, queue: seq<Record>, from: nat, m: nat, n: nat,
    xs: seq<Discarding>, ys: seq<Discarding>, i: nat)
    requires IsDiscard(g, start, queue, from, m, xs) && IsDiscard(g, start, queue, from, n, ys) && i <= m && i <= n
    ensures xs[i] == ys[i]
  {
    if i > 0 {
      DiscardIsDetermined(g, start, queue, from, m, n, xs, ys, i - 1);
      SameNext(g, start, queue, from, m, n, xs, ys, i - 1);
    }
  }

  lemma {:induction false} DiscardsAre(
    g: Setting, start: Discarding, queue: seq<Record>, from: nat, n: nat, xs: seq<Discarding>)
    requires IsDiscard(g, start, queue, from, n, xs)
    ensures Discards(g, start, queue, from, n) == Some(xs[n])
  {
    var ys :| IsDiscard(g, start, queue, from, n, ys) && Discards(g, start, queue, from, n) == Some(ys[n]);
    DiscardIsDetermined(g, start, queue, from, n, n, xs, ys, n);
  }

  lemma {:induction false} PicksAtStays(
    g: Setting, queue: seq<Record>, from: nat, xs: seq<Discarding>, more: seq<Discarding>, i: nat)
    requires i + 1 < |xs| && xs <= more && from + i < |queue| && PicksAt(g, queue, from, xs, i)
    ensures PicksAt(g, queue, from, more, i)
  {
    assert more[i] == xs[i] && more[i + 1] == xs[i + 1];
  }

  lemma {:induction false} LastPickIs(
    g: Setting, queue: seq<Record>, from: nat, n: nat, xs: seq<Discarding>, y: Discarding)
    requires |xs| == n + 1 && from + n < |queue| && DiscardOne(g, xs[n], queue[from + n]) == Some(y)
    ensures PicksAt(g, queue, from, xs + [y], n)
  {
    var more := xs + [y];
    assert more[n] == xs[n] && more[n + 1] == y;
  }

  lemma {:induction false} DiscardGoesOn(
    g: Setting, start: Discarding, queue: seq<Record>, from: nat, n: nat, xs: seq<Discarding>, y: Discarding)
    requires IsDiscard(g, start, queue, from, n, xs)
    requires from + n < |queue| && PicksAt(g, queue, from, xs + [y], n)
    ensures IsDiscard(g, start, queue, from, n + 1, xs + [y])
  {
    var more := xs + [y];
    assert |more| == n + 2 && more[0] == start;
    forall i | 0 <= i < n ensures PicksAt(g, queue, from, more, i) {
      assert PicksAt(g, queue, from, xs, i);
      PicksAtStays(g, queue, from, xs, more, i);
    }
  }

  lemma {:induction false} DiscardIsNotStuck(
    g: Setting, start: Discarding, queue: seq<Record>, from: nat, n: nat, xs: seq<Discarding>,
    count: nat, ys: seq<Discarding>)
    requires IsDiscard(g, start, queue, from, n, xs) && IsDiscard(g, start, queue, from, count, ys) && n < count
    ensures from + n < |queue| && DiscardOne(g, xs[n], queue[from + n]).Some?
  {
    DiscardIsDetermined(g, start, queue, from, n, count, xs, ys, n);
    assert PicksAt(g, queue, from, ys, n);
  }

  // A discard whose next record cannot be followed gets no further.
  lemma {:induction false} DiscardIsStuck(
    g: Setting, start: Discarding, queue: seq<Record>, from: nat, n: nat, xs: seq<Discarding>, count: nat)
    requires IsDiscard(g, start, queue, from, n, xs) && n < count
    requires from + n >= |queue| || DiscardOne(g, xs[n], queue[from + n]).None?
    ensures Discards(g, start, queue, from, count).None?
  {
    forall ys ensures !IsDiscard(g, start, queue, from, count, ys) {
      if IsDiscard(g, start, queue, from, count, ys) {
        DiscardIsNotStuck(g, start, queue, from, n, xs, count, ys);
      }
    }
  }

  // The discard gets no further than n picks.
  ghost predicate StuckAt(g: Setting, start: Discarding, queue: seq<Record>, from: nat, n: nat) {
    forall count | count > n :: Discards(g, start, queue, from, count).None?
  }

  // One more round either goes on with the discard or leaves it stuck.
  lemma {:induction false} DiscardRound(
    g: Setting, start: Discarding, queue: seq<Record>, from: nat, n: nat, xs: seq<Discarding>, y: Option<Discarding>)
    requires IsDiscard(g, start, queue, from, n, xs)
    requires y == if from + n < |queue| then DiscardOne(g, xs[n], queue[from + n]) else None
    ensures y.Some? ==> IsDiscard(g, start, queue, from, n + 1, xs + [y.value])
    ensures y.None? ==> StuckAt(g, start, queue, from, n)
  {
    if y.Some? {
      LastPickIs(g, queue, from, n, xs, y.value);
      DiscardGoesOn(g, start, queue, from, n, xs, y.value);
    } else {
      forall count | count > n ensures Discards(g, start, queue, from, count).None? {
        DiscardIsStuck(g, start, queue, from, n, xs, count);
      }
    }
  }

  // The cursor after a closing summary, which must list the names picked.
  function Closed(g: Setting, k: Known, p: PlayerId, names: seq<string>): Option<Known> {
    var rec := RecordOf(g, k, p);
    if rec.None? || rec.value.actionType != "SELECT_CARD" then Some(k)
    else if SummaryNames(rec.value, rec.value.chosen) != Some(names) then None
    else Some(WithCursor(k, p, CursorOf(k, p) + 1))
  }

  // Replaying a whole discard.
  ghost function DiscardAll(g: Setting, k: Known, p: PlayerId, turn: Turn): Option<Moved>
    requires turn.decision.Discard?
  {
    if turn.state.pendingDiscard.None? then None
    else
      var count := turn.state.pendingDiscard.value;
      var x := Discards(g, NotYetPicked(turn, k.idMap), QueueOf(g, p), CursorOf(k, p), count);
      if x.None? then None
      else
        var closed := Closed(g, WithCursor(k.(idMap := x.value.idMap), p, CursorOf(k, p) + count), p, x.value.names);
        if closed.None? then None else Some(Moved(closed.value, x.value.state))
  }

  // The known state after the picks of a discard.
  function AfterPicks(k: Known, p: PlayerId, count: nat, x: Discarding): Known {
    WithCursor(k.(idMap := x.idMap), p, CursorOf(k, p) + count)
  }

  lemma {:induction false} DiscardAllGoesBy(g: Setting, k: Known, p: PlayerId, turn: Turn, x: Option<Discarding>)
    requires turn.decision.Discard? && turn.state.pendingDiscard.Some?
    requires x == Discards(g, NotYetPicked(turn, k.idMap), QueueOf(g, p), CursorOf(k, p),
                           turn.state.pendingDiscard.value)
    ensures x.None? ==> DiscardAll(g, k, p, turn) == None
    ensures x.Some? ==>
              var closed := Closed(g, AfterPicks(k, p, turn.state.pendingDiscard.value, x.value), p, x.value.names);
              DiscardAll(g, k, p, turn) == if closed.None? then None else Some(Moved(closed.value, x.value.state))
  {
  }

  // Following a record at any other decision.
  ghost function FollowOne(g: Setting, k: Known, p: PlayerId, turn: Turn, rec: Record): Option<Moved> {
    var action := RecordedAction(turn.state, turn.decision, rec, k.idMap, g.seats);
    if action.None? then None
    else
      var after := g.engine.apply(turn.state, action.value);
      if after.Err? then None else Some(Moved(WithCursor(k, p, CursorOf(k, p) + 1), after.value))
  }

  // Following the recording at a decision with a player.
  ghost function Follow(g: Setting, k: Known, p: PlayerId, turn: Turn): Option<Moved> {
    var rec := RecordOf(g, k, p);
    if rec.None? || CheckState(turn.state, p, rec.value) != "" then None
    else
      var learned := k.(idMap := LearnFrom(g, k.idMap, turn.state, rec.value));
      if turn.decision.Discard? then DiscardAll(g, learned, p, turn) else FollowOne(g, learned, p, turn, rec.value)
  }

  // Going through an unlogged window: a madness cast follows the player's
  // next record, any other window only looks at it.
  function PassWindow(g: Setting, k: Known, turn: Turn): Option<Moved> {
    var d := turn.decision;
    if d.ChooseMadnessCast? then
      var rec := RecordOf(g, k, d.player);
      if rec.None? || rec.value.actionType != "CHOOSE_USE" then None
      else
        var after := g.engine.apply(turn.state, CastForMadness(First(rec.value.chosen) == Some(0)));
        if after.Err? then None else Some(Moved(WithCursor(k, d.player, CursorOf(k, d.player) + 1), after.value))
    else if d.Silent? then
      var answer := g.engine.silentAnswer(turn.state, d, RecordOf(g, k, d.player));
      if answer.Err? then None
      else
        var after := g.engine.apply(turn.state, answer.value);
        if after.Err? then None else Some(Moved(k, after.value))
    else None
  }

  // ------------------------------------------------- what replay keeps

  // Cursors only advance and stay inside their queues; the map only learns.
  ghost predicate Advances(g: Setting, a: Known, b: Known) {
    && a.cursor0 <= b.cursor0 && a.cursor1 <= b.cursor1
    && (a.cursor0 <= |g.queue0| ==> b.cursor0 <= |g.queue0|)
    && (a.cursor1 <= |g.queue1| ==> b.cursor1 <= |g.queue1|)
    && Learns(a.idMap, b.idMap, g.pregame, g.seats)
  }

  // Pick i is the card that the i-th record from the cursor chose, and name i
  // the text which that record chose.
  ghost predicate PickedBy(queue: seq<Record>, from: nat, idMap: Ids, picks: seq<ObjectId>, names: seq<string>) {
    && |names| == |picks| && from + |picks| <= |queue|
    && forall i | 0 <= i < |picks| :: IsPick(queue[from + i], idMap, picks[i], names[i])
  }

  predicate IsPick(rec: Record, idMap: Ids, pick: ObjectId, name: string) {
    Chose(rec, idMap, pick) && ChoseText(rec, name)
  }

  predicate Chose(rec: Record, idMap: Ids, pick: ObjectId) {
    && rec.actionType == "SELECT_TARGETS"
    && rec.chosenIds != [] && rec.chosenIds[0] in idMap && pick == idMap[rec.chosenIds[0]]
  }

  predicate ChoseText(rec: Record, name: string) {
    rec.chosen != [] && rec.chosen[0] < |rec.texts| && rec.texts[rec.chosen[0]] == name
  }

  // What n picks from a start have done.
  ghost predicate PicksFollow(g: Setting, start: Discarding, queue: seq<Record>, from: nat, n: nat, x: Discarding) {
    && |x.picks| == n
    && Picked(g.engine, start.state, start.choices, x.picks, x.choices, x.state)
    && PickedBy(queue, from, x.idMap, x.picks, x.names)
    && Learns(start.idMap, x.idMap, g.pregame, g.seats)
  }

  // One more pick, by the given record.
  predicate Extended(x: Discarding, rec: Record, y: Discarding, pick: ObjectId, name: string) {
    && y.picks == x.picks + [pick] && y.names == x.names + [name]
    && IsPick(rec, y.idMap, pick, name)
  }

  // What one record does to a discard under way.
  lemma {:induction false} DiscardOneIs(g: Setting, x: Discarding, rec: Record, y: Discarding)
    returns (pick: ObjectId, name: string)
    requires DiscardOne(g, x, rec) == Some(y)
    ensures Extended(x, rec, y, pick, name)
    ensures pick in x.choices && y.choices == Without(x.choices, pick)
    ensures g.engine.apply(x.state, DiscardCards([pick])) == Ok(y.state)
    ensures Learns(x.idMap, y.idMap, g.pregame, g.seats)
  {
    LearnedLearns(x.idMap, g.pregame, |x.state.objects|, g.seats, Mentioned(rec));
    pick, name := y.idMap[rec.chosenIds[0]], rec.texts[rec.chosen[0]];
  }

  lemma {:induction false} PickedByGrows(
    queue: seq<Record>, from: nat, x: Discarding, y: Discarding, pick: ObjectId, name: string)
    requires PickedBy(queue, from, x.idMap, x.picks, x.names) && Extends(x.idMap, y.idMap)
    requires from + |x.picks| < |queue| && Extended(x, queue[from + |x.picks|], y, pick, name)
    ensures PickedBy(queue, from, y.idMap, y.picks, y.names)
  {
    forall i | 0 <= i < |y.picks| ensures IsPick(queue[from + i], y.idMap, y.picks[i], y.names[i]) {
      if i < |x.picks| {
        assert IsPick(queue[from + i], x.idMap, x.picks[i], x.names[i]);
      }
    }
  }

  lemma {:induction false} PickFollows(
    g: Setting, start: Discarding, queue: seq<Record>, from: nat, n: nat, x: Discarding, y: Discarding,
    pick: ObjectId, name: string)
    requires PicksFollow(g, start, queue, from, n, x) && from + n < |queue|
    requires Extended(x, queue[from + n], y, pick, name)
    requires pick in x.choices && y.choices == Without(x.choices, pick)
    requires g.engine.apply(x.state, DiscardCards([pick])) == Ok(y.state)
    requires Learns(x.idMap, y.idMap, g.pregame, g.seats)
    ensures PicksFollow(g, start, queue, from, n + 1, y)
  {
    PickOne(g.engine, start.state, start.choices, x.picks, x.choices, x.state, pick, y.state);
    PickedByGrows(queue, from, x, y, pick, name);
    LearnsTransitive(start.idMap, x.idMap, y.idMap, g.pregame, g.seats);
  }

  lemma {:induction false} DiscardStepFollows(
    g: Setting, start: Discarding, queue: seq<Record>, from: nat, n: nat, xs: seq<Discarding>, i: nat)
    requires IsDiscard(g, start, queue, from, n, xs) && i < n && PicksFollow(g, start, queue, from, i, xs[i])
    ensures PicksFollow(g, start, queue, from, i + 1, xs[i + 1])
  {
    assert PicksAt(g, queue, from, xs, i);
    var pick, name := DiscardOneIs(g, xs[i], queue[from + i], xs[i + 1]);
    PickFollows(g, start, queue, from, i, xs[i], xs[i + 1], pick, name);
  }

  // The picks are pairwise distinct original choices, put to the engine one
  // by one, each the card its own record chose.
  lemma {:induction false} DiscardsFollowRecords(
    g: Setting, start: Discarding, queue: seq<Record>, from: nat, n: nat, xs: seq<Discarding>, i: nat)
    requires start.picks == [] && start.names == [] && IsDiscard(g, start, queue, from, n, xs) && i <= n
    ensures PicksFollow(g, start, queue, from, i, xs[i])
  {
    if i > 0 {
      DiscardsFollowRecords(g, start, queue, from, n, xs, i - 1);
      DiscardStepFollows(g, start, queue, from, n, xs, i - 1);
    }
  }

  // The next record closes a discard, and the texts it chose are these names.
  predicate ClosesWith(queue: seq<Record>, at: nat, names: seq<string>) {
    && at < |queue| && queue[at].actionType == "SELECT_CARD"
    && |queue[at].chosen| == |names|
    && forall i | 0 <= i < |names| ::
         queue[at].chosen[i] < |queue[at].texts| && queue[at].texts[queue[at].chosen[i]] == names[i]
  }

  lemma {:induction false} SummaryLists(rec: Record, chosen: seq<nat>, names: seq<string>)
    ensures SummaryNames(rec, chosen) == Some(names) <==>
            |names| == |chosen| && forall i | 0 <= i < |chosen| ::
              chosen[i] < |rec.texts| && rec.texts[chosen[i]] == names[i]
  {
    if chosen != [] && names != [] {
      SummaryLists(rec, chosen[1..], names[1..]);
      assert names == [names[0]] + names[1..];
      assert forall i | 0 < i < |chosen| :: chosen[i] == chosen[1..][i - 1];
      assert forall i | 0 < i < |names| :: names[i] == names[1..][i - 1];
    }
  }

  predicate NothingCloses(queue: seq<Record>, at: nat) {
    at < |queue| ==> queue[at].actionType != "SELECT_CARD"
  }

  lemma {:induction false} ClosedAdvances(g: Setting, k: Known, p: PlayerId, names: seq<string>)
    requires Closed(g, k, p, names).Some?
    ensures var next, at := Closed(g, k, p, names).value, CursorOf(k, p);
            && next.idMap == k.idMap && CursorOf(next, Opponent(p)) == CursorOf(k, Opponent(p))
            && (|| (CursorOf(next, p) == at + 1 && ClosesWith(QueueOf(g, p), at, names))
                || (CursorOf(next, p) == at && NothingCloses(QueueOf(g, p), at)))
  {
    if CursorOf(k, p) < |QueueOf(g, p)| {
      SummaryLists(QueueOf(g, p)[CursorOf(k, p)], QueueOf(g, p)[CursorOf(k, p)].chosen, names);
    }
  }

  // A replayed discard: the pending number of picks with one record each, and
  // the closing summary if there is one, which lists the texts these records
  // chose.
  lemma {:induction false} DiscardAllFollowsRecords(g: Setting, k: Known, p: PlayerId, turn: Turn)
    returns (x: Discarding)
    requires turn.decision.Discard? && DiscardAll(g, k, p, turn).Some?
    ensures var next, from, n := DiscardAll(g, k, p, turn).value, CursorOf(k, p), |x.picks|;
            && turn.state.pendingDiscard == Some(n)
            && PicksFollow(g, NotYetPicked(turn, k.idMap), QueueOf(g, p), from, n, x)
            && next.state == x.state && next.known.idMap == x.idMap
            && CursorOf(next.known, Opponent(p)) == CursorOf(k, Opponent(p))
            && (|| (CursorOf(next.known, p) == from + n + 1 && ClosesWith(QueueOf(g, p), from + n, x.names))
                || (CursorOf(next.known, p) == from + n && NothingCloses(QueueOf(g, p), from + n)))
  {
    var start, queue, from := NotYetPicked(turn, k.idMap), QueueOf(g, p), CursorOf(k, p);
    var count := turn.state.pendingDiscard.value;
    x := Discards(g, start, queue, from, count).value;
    DiscardsPick(g, start, queue, from, count, x);
    ClosedAdvances(g, WithCursor(k.(idMap := x.idMap), p, from + count), p, x.names);
  }

  lemma {:induction false} DiscardsPick(
    g: Setting, start: Discarding, queue: seq<Record>, from: nat, count: nat, x: Discarding)
    requires start.picks == [] && start.names == [] && Discards(g, start, queue, from, count) == Some(x)
    ensures |x.picks| == count && PicksFollow(g, start, queue, from, count, x)
  {
    var xs :| IsDiscard(g, start, queue, from, count, xs) && x == xs[count];
    DiscardsFollowRecords(g, start, queue, from, count, xs, count);
  }

  // The text a record chose is the name of some card that remains,
  lemma {:induction false} TextNamesAChoice(state: GameState, choices: seq<ObjectId>, rec: Record, idMap: Ids)
    requires PickOf(state, choices, rec, idMap).Some?
    ensures exists card :: card in choices && Name(state, card) == rec.texts[rec.chosen[0]]
  {
    var text := rec.texts[rec.chosen[0]];
    assert text in multiset(Names(state, choices));
    var i :| 0 <= i < |choices| && Names(state, choices)[i] == text;
    assert choices[i] in choices;
  }

  // but nothing ties it to the card that the record picks.
  lemma {:induction false} PickCanBeMisnamed(state: GameState, rec: Record, uuid: string)
    requires Names(state, [0, 1]) == rec.texts == ["A", "B"] && rec.chosen == [0] && rec.chosenIds == [uuid]
    ensures PickOf(state, [0, 1], rec, map[uuid := 1]) == Some(1) && rec.texts[rec.chosen[0]] != Name(state, 1)
  {
    assert Names(state, [0, 1])[1] == Name(state, 1);
  }

  // The state is what the engine makes of the listed action that the record did.
  ghost predicate Replays(g: Setting, turn: Turn, rec: Record, idMap: Ids, state: GameState) {
    exists a ::
      && Listed(turn.decision, a)
      && Follows(turn.state, turn.decision, rec, idMap, g.seats, a)
      && g.engine.apply(turn.state, a) == Ok(state)
  }

  // A followed record fits the state; the map has learned from it before its
  // action is looked up, and it alone is consumed.
  ghost predicate PlaysRecord(g: Setting, k: Known, p: PlayerId, turn: Turn, next: Moved) {
    var rec := RecordOf(g, k, p);
    && rec.Some? && StateFits(turn.state, p, rec.value)
    && next.known == WithCursor(k.(idMap := LearnFrom(g, k.idMap, turn.state, rec.value)), p, CursorOf(k, p) + 1)
    && Replays(g, turn, rec.value, next.known.idMap, next.state)
  }

  lemma {:induction false} FollowOnePlays(g: Setting, k: Known, p: PlayerId, turn: Turn, rec: Record)
    requires !turn.decision.Discard? && FollowOne(g, k, p, turn, rec).Some?
    ensures var next := FollowOne(g, k, p, turn, rec).value;
            next.known == WithCursor(k, p, CursorOf(k, p) + 1) && Replays(g, turn, rec, k.idMap, next.state)
  {
    var a := RecordedAction(turn.state, turn.decision, rec, k.idMap, g.seats).value;
    RecordedFollows(turn.state, turn.decision, rec, k.idMap, g.seats);
    assert Follows(turn.state, turn.decision, rec, k.idMap, g.seats, a);
  }

  lemma {:induction false} FollowPlays(g: Setting, k: Known, p: PlayerId, turn: Turn)
    requires !turn.decision.Discard? && Follow(g, k, p, turn).Some?
    ensures PlaysRecord(g, k, p, turn, Follow(g, k, p, turn).value)
  {
    var rec := RecordOf(g, k, p).value;
    CheckStatePasses(turn.state, p, rec);
    FollowOnePlays(g, k.(idMap := LearnFrom(g, k.idMap, turn.state, rec)), p, turn, rec);
  }

  lemma {:induction false} FollowAdvances(g: Setting, k: Known, p: PlayerId, turn: Turn)
    requires Follow(g, k, p, turn).Some?
    ensures Advances(g, k, Follow(g, k, p, turn).value.known)
  {
    var rec := RecordOf(g, k, p).value;
    var learned := k.(idMap := LearnFrom(g, k.idMap, turn.state, rec));
    LearnedLearns(k.idMap, g.pregame, |turn.state.objects|, g.seats, Mentioned(rec));
    if turn.decision.Discard? {
      var x := DiscardAllFollowsRecords(g, learned, p, turn);
      LearnsTransitive(k.idMap, learned.idMap, Follow(g, k, p, turn).value.known.idMap, g.pregame, g.seats);
    }
  }

  lemma {:induction false} PassWindowAdvances(g: Setting, k: Known, turn: Turn)
    requires PassWindow(g, k, turn).Some?
    ensures Advances(g, k, PassWindow(g, k, turn).value.known)
  {
  }

  // ------------------------------------------------------------ the context

  class ReplayCtx {
    var idMap: Ids
    var cursor0: nat
    var cursor1: nat
    ghost var log: seq<Event>
    const pregame: nat
    const seats: Seats
    const queue0: seq<Record>
    const queue1: seq<Record>

    ghost predicate Valid()
      reads this
    {
      cursor0 <= |queue0| && cursor1 <= |queue1| && LogOk(log, cursor0, cursor1)
    }

    constructor (ids: Ids, pregame: nat, seats: Seats, queue0: seq<Record>, queue1: seq<Record>)
      ensures Valid() && Knows() == Known(ids, 0, 0)
      ensures this.pregame == pregame && this.seats == seats && this.queue0 == queue0 && this.queue1 == queue1
    {
      idMap, cursor0, cursor1, log := ids, 0, 0, [];
      this.pregame, this.seats, this.queue0, this.queue1 := pregame, seats, queue0, queue1;
    }

    function Queue(p: PlayerId): seq<Record> {
      if p == P0 then queue0 else queue1
    }

    function Cursor(p: PlayerId): nat
      reads this
    {
      if p == P0 then cursor0 else cursor1
    }

    function Next(p: PlayerId): Option<Record>
      reads this
    {
      if Cursor(p) < |Queue(p)| then Some(Queue(p)[Cursor(p)]) else None
    }

    // What the context knows, and what it never changes.
    function Knows(): Known
      reads this
    {
      Known(idMap, cursor0, cursor1)
    }

    function For(engine: Engine): Setting {
      Setting(engine, pregame, seats, queue0, queue1)
    }

    method Advance(p: PlayerId)
      requires Valid() && Next(p).Some?
      modifies this
      ensures Valid() && Knows() == WithCursor(old(Knows()), p, old(Cursor(p)) + 1)
    {
      ConsumeKeepsLog(log, cursor0, cursor1, p);
      log := log + [Consumed(p, Cursor(p))];
      if p == P0 {
        cursor0 := cursor0 + 1;
      } else {
        cursor1 := cursor1 + 1;
      }
    }

    // Puts a listed action to the engine.
    method Play(engine: Engine, state: GameState, d: Decision, a: Action) returns (r: Result<GameState>)
      requires Valid() && Listed(d, a)
      modifies this
      ensures Valid()
      ensures Knows() == old(Knows()) && r == engine.apply(state, a)
    {
      PlayKeepsLog(log, cursor0, cursor1, d, a);
      log := log + [Played(d, a)];
      r := engine.apply(state, a);
    }

    // Binds the record's unknown UUIDs to the lowest unbound token objects.
    method LearnTokenIds(state: GameState, rec: Record)
      requires Valid()
      modifies this
      ensures Valid()
      ensures Knows() == old(Knows()).(idMap := Learned(old(idMap), pregame, |state.objects|, seats, Mentioned(rec)))
    {
      var uuids := Mentioned(rec);
      for i := 0 to |uuids|
        invariant Valid() && cursor0 == old(cursor0) && cursor1 == old(cursor1)
        invariant idMap == Learned(old(idMap), pregame, |state.objects|, seats, uuids[..i])
      {
        FirstLearned(old(idMap), pregame, |state.objects|, seats, uuids, i);
        var uuid := uuids[i];
        if uuid in idMap || Reserved(seats, uuid) {
          continue;
        }
        var free := LowestFree(idMap, pregame, |state.objects|);
        if free >= |state.objects| {
          continue;
        }
        idMap := idMap[uuid := free];
      }
      assert uuids[..|uuids|] == uuids;
    }

    // Skips exactly the leading records of discards already applied.
    method SkipStaleForcedDiscards(state: GameState, p: PlayerId)
      requires Valid()
      modifies this
      ensures Valid()
      ensures Knows() == WithCursor(old(Knows()), p, SkipTo(state, idMap, Queue(p), old(Cursor(p))))
      ensures forall i | old(Cursor(p)) <= i < Cursor(p) :: AlreadyDiscarded(state, idMap, Queue(p)[i])
      ensures Next(p).None? || !AlreadyDiscarded(state, idMap, Next(p).value)
    {
      ghost var from := Cursor(p);
      while Next(p).Some? && Stale(state, idMap, Next(p).value)
        invariant Valid()
        invariant Knows() == WithCursor(old(Knows()), p, Cursor(p))
        invariant SkipTo(state, idMap, Queue(p), Cursor(p)) == SkipTo(state, idMap, Queue(p), old(Cursor(p)))
        invariant forall i | from <= i < Cursor(p) :: AlreadyDiscarded(state, idMap, Queue(p)[i])
        decreases |Queue(p)| - Cursor(p)
      {
        StaleIsDiscarded(state, idMap, Next(p).value);
        Advance(p);
      }
      if Next(p).Some? {
        StaleIsDiscarded(state, idMap, Next(p).value);
      }
    }

    // Replays one pick of a discard.
    method ReplayPick(engine: Engine, p: PlayerId, d: Decision, x: Discarding) returns (r: Result<Discarding>)
      requires Valid() && d.Discard? && x.idMap == idMap && forall id | id in x.choices :: id in d.choices
      modifies this
      ensures Valid()
      ensures var rec := old(Next(p));
              ToOption(r) == if rec.None? then None else DiscardOne(For(engine), x, rec.value)
      ensures r.Ok? ==> Knows() == WithCursor(old(Knows()).(idMap := r.value.idMap), p, old(Cursor(p)) + 1)
      ensures r.Ok? ==> forall id | id in r.value.choices :: id in d.choices
    {
      var rec := Next(p);
      if rec.None? {
        return Err("trace-exhausted:Discard");
      } else if rec.value.actionType != "SELECT_TARGETS" {
        return Err("decision-kind-mismatch:Discard");
      }
      LearnTokenIds(x.state, rec.value);
      var pick := ResolvePick(x.state, x.choices, rec.value, idMap);
      if pick.Err? {
        return Err(pick.error);
      }
      Advance(p);
      var applied := Play(engine, x.state, d, DiscardCards([pick.value]));
      if applied.Err? {
        return Err(applied.error);
      }
      var name := rec.value.texts[rec.value.chosen[0]];
      var left := Without(x.choices, pick.value);
      return Ok(Discarding(applied.value, left, x.picks + [pick.value], x.names + [name], idMap));
    }

    // Goes on with a discard by one pick, or finds it stuck for good.
    method ContinuePicks(engine: Engine, p: PlayerId, d: Decision, x: Discarding,
                         ghost start: Discarding, ghost from: nat, ghost n: nat, ghost xs: seq<Discarding>)
      returns (r: Result<Discarding>)
      requires Valid() && d.Discard? && x.idMap == idMap && forall id | id in x.choices :: id in d.choices
      requires IsDiscard(For(engine), start, Queue(p), from, n, xs) && xs[n] == x && Cursor(p) == from + n
      modifies this
      ensures Valid()
      ensures r.Ok? ==> IsDiscard(For(engine), start, Queue(p), from, n + 1, xs + [r.value])
      ensures r.Ok? ==> forall id | id in r.value.choices :: id in d.choices
      ensures r.Ok? ==> Knows() == WithCursor(old(Knows()).(idMap := r.value.idMap), p, from + n + 1)
      ensures r.Err? ==> StuckAt(For(engine), start, Queue(p), from, n)
    {
      r := ReplayPick(engine, p, d, x);
      DiscardRound(For(engine), start, Queue(p), from, n, xs, ToOption(r));
    }

    method ReplayPicks(engine: Engine, p: PlayerId, turn: Turn, count: nat) returns (r: Result<Discarding>)
      requires Valid() && turn.decision.Discard?
      modifies this
      ensures Valid()
      ensures ToOption(r) == Discards(For(engine), NotYetPicked(turn, old(idMap)), Queue(p), old(Cursor(p)), count)
      ensures r.Ok? ==> Knows() == WithCursor(old(Knows()).(idMap := r.value.idMap), p, old(Cursor(p)) + count)
    {
      ghost var g, start, from := For(engine), NotYetPicked(turn, idMap), Cursor(p);
      var x := NotYetPicked(turn, idMap);
      ghost var xs := [x];
      for n := 0 to count
        invariant Valid()
        invariant IsDiscard(g, start, Queue(p), from, n, xs) && xs[n] == x
        invariant forall id | id in x.choices :: id in turn.decision.choices
        invariant Knows() == WithCursor(old(Knows()).(idMap := x.idMap), p, from + n)
      {
        var picked := ContinuePicks(engine, p, turn.decision, x, start, from, n, xs);
        if picked.Err? {
          return picked;
        }
        x, xs := picked.value, xs + [picked.value];
      }
      DiscardsAre(g, start, Queue(p), from, count, xs);
      r := Ok(x);
    }

    // Consumes a closing summary, which must list the names just picked.
    method CloseDiscard(engine: Engine, p: PlayerId, names: seq<string>) returns (ok: bool)
      requires Valid()
      modifies this
      ensures Valid()
      ensures ok <==> Closed(For(engine), old(Knows()), p, names).Some?
      ensures ok ==> Some(Knows()) == Closed(For(engine), old(Knows()), p, names)
    {
      var rec := Next(p);
      if rec.None? || rec.value.actionType != "SELECT_CARD" {
        return true;
      } else if SummaryNames(rec.value, rec.value.chosen) != Some(names) {
        return false;
      }
      Advance(p);
      ok := true;
    }

    // Replays a whole discard: each pick from its own record, then a summary.
    method ReplayDiscard(engine: Engine, p: PlayerId, turn: Turn) returns (r: Result<GameState>)
      requires Valid() && turn.decision.Discard?
      modifies this
      ensures Valid()
      ensures Leads(r, DiscardAll(For(engine), old(Knows()), p, turn))
    {
      ghost var g, k := For(engine), Knows();
      if turn.state.pendingDiscard.None? {
        return Err("no Discard decision is pending");
      }
      var picked := ReplayPicks(engine, p, turn, turn.state.pendingDiscard.value);
      DiscardAllGoesBy(g, k, p, turn, ToOption(picked));
      if picked.Err? {
        return Err(picked.error);
      }
      r := FinishDiscard(engine, p, picked.value, DiscardAll(g, k, p, turn));
    }

    method FinishDiscard(engine: Engine, p: PlayerId, x: Discarding, ghost next: Option<Moved>)
      returns (r: Result<GameState>)
      requires Valid()
      requires var closed := Closed(For(engine), Knows(), p, x.names);
               next == if closed.None? then None else Some(Moved(closed.value, x.state))
      modifies this
      ensures Valid()
      ensures Leads(r, next)
    {
      var ok := CloseDiscard(engine, p, x.names);
      r := if ok then Ok(x.state) else Err("discard-terminal-summary-mismatch");
    }

    // The operation ended as computed: in that state, knowing just that.
    ghost predicate Leads(r: Result<GameState>, next: Option<Moved>)
      reads this
    {
      if next.Some? then r == Ok(next.value.state) && Knows() == next.value.known else r.Err?
    }

    // Follows the next record of the player, which must match the state.
    method ApplyFromTrace(engine: Engine, p: PlayerId, turn: Turn) returns (r: Result<GameState>)
      requires Valid()
      modifies this
      ensures Valid()
      ensures Leads(r, Follow(For(engine), old(Knows()), p, turn))
      ensures r.Ok? && !turn.decision.Discard? ==>
                PlaysRecord(For(engine), old(Knows()), p, turn, Moved(Knows(), r.value))
    {
      ghost var g, k := For(engine), Knows();
      if !turn.decision.Discard? && Follow(g, k, p, turn).Some? {
        FollowPlays(g, k, p, turn);
      }
      var rec := Next(p);
      if rec.None? {
        return Err("trace-exhausted");
      }
      var difference := CheckState(turn.state, p, rec.value);
      if difference != "" {
        return Err(difference);
      }
      LearnTokenIds(turn.state, rec.value);
      if turn.decision.Discard? {
        r := ReplayDiscard(engine, p, turn);
      } else {
        r := FollowRecord(engine, p, turn, rec.value);
      }
    }

    method FollowRecord(engine: Engine, p: PlayerId, turn: Turn, rec: Record) returns (r: Result<GameState>)
      requires Valid() && Next(p) == Some(rec) && !turn.decision.Discard?
      modifies this
      ensures Valid()
      ensures Leads(r, FollowOne(For(engine), old(Knows()), p, turn, rec))
    {
      var action := ResolveRecorded(turn.state, turn.decision, rec, idMap, seats);
      if action.Err? {
        return Err(action.error);
      }
      Advance(p);
      r := Play(engine, turn.state, turn.decision, action.value);
    }

    // Windows the recording never logs; only a madness cast has a record.
    method ApplySilentWindow(engine: Engine, turn: Turn) returns (r: Result<GameState>)
      requires Valid()
      modifies this
      ensures Valid()
      ensures Leads(r, PassWindow(For(engine), old(Knows()), turn))
    {
      var d := turn.decision;
      if d.ChooseMadnessCast? {
        var rec := Next(d.player);
        if rec.None? {
          return Err("trace-exhausted:ChooseMadnessCast");
        } else if rec.value.actionType != "CHOOSE_USE" {
          return Err("decision-kind-mismatch:ChooseMadnessCast");
        }
        var attempt := First(rec.value.chosen) == Some(0);
        Advance(d.player);
        r := Play(engine, turn.state, d, CastForMadness(attempt));
      } else if d.Silent? {
        var answer := engine.silentAnswer(turn.state, d, Next(d.player));
        if answer.Err? {
          return Err(answer.error);
        }
        r := Play(engine, turn.state, d, answer.value);
      } else {
        r := Err("apply_silent_window-called-on-non-silent-decision");
      }
    }
  }
}
