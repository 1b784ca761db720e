// What a recorded game and the game engine's surface look like to the branch
// driver. The engine itself is a parameter: any functions will do.

module Trace {
  import opened Wrappers

  type ObjectId = nat

  const DONE := "sentinel:DONE"

  datatype PlayerId = P0 | P1

  function Opponent(p: PlayerId): PlayerId {
    if p == P0 then P1 else P0
  }

  datatype Target = Player(seat: PlayerId) | Object(id: ObjectId) | StackItem(item: nat)

  datatype Zone = Hand | Library | Battlefield | Graveyard | Exile | Stack | OtherZone

  datatype Step =
    | Untap | Upkeep | Draw | Main1 | BeginCombat | AttackStep | BlockStep
    | CombatDamage | EndCombat | Main2 | End | Cleanup

  datatype GameObject = GameObject(name: string, zone: Zone)
  datatype Seat = Seat(hand: nat, library: nat, graveyard: nat, life: int)

  // The arena numbers objects densely from zero. `rest` is everything else
  // the engine keeps, serialised.
  datatype GameState = GameState(
    turn: nat, step: Step, activePlayer: PlayerId, p0: Seat, p1: Seat,
    objects: seq<GameObject>, pendingDiscard: Option<nat>, rest: string)

  datatype Record = Record(
    player: string, actionType: string, turn: nat, phase: string,
    own: Seat, opponentLife: int, candidateCount: nat,
    texts: seq<string>, ids: seq<string>, chosen: seq<nat>, chosenIds: seq<string>)

  datatype Ability = Ability(id: ObjectId, index: nat)

  // The last constructor stands for the kinds no record is ever logged for.
  datatype Decision =
    | CastSpellOrPass(player: PlayerId, castable: seq<ObjectId>, mana: seq<ObjectId>,
                      lands: seq<ObjectId>, abilities: seq<Ability>, plots: seq<ObjectId>)
    | ChooseTargets(player: PlayerId, legal: seq<Target>, canFinish: bool)
    | ChooseCostTargets(player: PlayerId, candidates: seq<ObjectId>)
    | Discard(player: PlayerId, choices: seq<ObjectId>, count: nat)
    | DeclareAttackers(player: PlayerId, eligible: seq<ObjectId>)
    | DeclareBlockers(player: PlayerId)
    | DeclareBlockersForAttacker(legalBlockers: seq<ObjectId>)
    | ChooseEntryColor(player: PlayerId)
    | ChooseMadnessCast(player: PlayerId)
    | GameOver(winner: Option<PlayerId>)
    | Silent(player: PlayerId, kind: string)

  datatype Action =
    | Pass
    | PlayLand(id: ObjectId)
    | CastSpell(id: ObjectId)
    | ActivateMana(id: ObjectId)
    | ActivateAbility(id: ObjectId, index: nat)
    | PlotSpell(id: ObjectId)
    | ChooseTarget(target: Target)
    | FinishSelection
    | ChooseCostTarget(id: ObjectId)
    | DiscardCards(ids: seq<ObjectId>)
    | Attack(ids: seq<ObjectId>)
    | Block(ids: seq<ObjectId>)
    | CastForMadness(attempt: bool)
    | Other(answer: string)

  datatype Turn = Turn(decision: Decision, state: GameState)

  // `silentAnswer` answers an unlogged window during replay, looking at the
  // player's next record; `defaultAnswer` answers it after the branch.
  datatype Engine = Engine(
    knownCard: string -> bool,
    deal: (seq<string>, seq<string>) -> GameState,
    next: GameState -> Turn,
    apply: (GameState, Action) -> Result<GameState>,
    silentAnswer: (GameState, Decision, Option<Record>) -> Result<Action>,
    defaultAnswer: Decision -> Result<Action>,
    render: GameState -> string)

  // The name and zone of an object; ids outside the arena do not occur.
  function At(state: GameState, id: ObjectId): GameObject {
    if id < |state.objects| then state.objects[id] else GameObject("", OtherZone)
  }

  function Name(state: GameState, id: ObjectId): string {
    At(state, id).name
  }

  function Names(state: GameState, ids: seq<ObjectId>): (names: seq<string>)
    ensures |names| == |ids| && forall i | 0 <= i < |ids| :: names[i] == Name(state, ids[i])
  {
    seq(|ids|, i requires 0 <= i < |ids| => Name(state, ids[i]))
  }

  // Whether an action is one the decision listed. Attack and block
  // declarations are not checked against the lists, so nothing is asked.
  predicate Listed(d: Decision, a: Action) {
    match d
    case CastSpellOrPass(_, castable, mana, lands, abilities, plots) =>
      (match a
       case Pass => true
       case PlayLand(id) => id in lands
       case CastSpell(id) => id in castable
       case ActivateMana(id) => id in mana
       case ActivateAbility(id, index) => Ability(id, index) in abilities
       case PlotSpell(id) => id in plots
       case _ => false)
    case ChooseTargets(_, legal, canFinish) =>
      (a.ChooseTarget? && a.target in legal) || (a.FinishSelection? && canFinish)
    case ChooseCostTargets(_, candidates) => a.ChooseCostTarget? && a.id in candidates
    case Discard(_, choices, _) => a.DiscardCards? && forall id | id in a.ids :: id in choices
    case _ => true
  }

  function SeatOf(state: GameState, p: PlayerId): Seat {
    if p == P0 then state.p0 else state.p1
  }

  function PhaseNames(step: Step): seq<string> {
    match step
    case Main1 => ["Precombat Main"]
    case Main2 => ["Postcombat Main"]
    case BeginCombat | AttackStep | BlockStep | CombatDamage | EndCombat => ["Combat"]
    case End | Cleanup => ["End"]
    case Untap | Upkeep | Draw => []
  }

  // The phase a record names for a step; steps before the first main phase
  // have none of their own.
  predicate PhaseFits(step: Step, phase: string) {
    || phase == ""
    || step in {Untap, Upkeep, Draw}
    || (phase == "Precombat Main" && step == Main1)
    || (phase == "Postcombat Main" && step == Main2)
    || (phase == "Combat" && step in {BeginCombat, AttackStep, BlockStep, CombatDamage, EndCombat})
    || (phase == "End" && step in {End, Cleanup})
  }

  // The state is what the player's record says: two recorded turns to a round,
  // the sizes of the player's zones, both life totals, and the phase.
  predicate StateFits(state: GameState, p: PlayerId, rec: Record) {
    var own, other := if p == P0 then state.p0 else state.p1, if p == P0 then state.p1 else state.p0;
    && 2 * state.turn - 1 <= rec.turn <= 2 * state.turn
    && own == rec.own && other.life == rec.opponentLife
    && PhaseFits(state.step, rec.phase)
  }

  // Nothing is reported exactly when the state fits the record.
  lemma {:induction false} CheckStatePasses(state: GameState, p: PlayerId, rec: Record)
    ensures CheckState(state, p, rec) == "" <==> StateFits(state, p, rec)
  {
    assert (rec.turn + 1) / 2 == state.turn <==> 2 * state.turn - 1 <= rec.turn <= 2 * state.turn;
    assert PhaseFits(state.step, rec.phase) <==>
        PhaseNames(state.step) == [] || rec.phase == "" || rec.phase in PhaseNames(state.step);
  }

  // Empty when the state matches the record, else what differs first.
  function CheckState(state: GameState, p: PlayerId, rec: Record): string {
    var own, phases := SeatOf(state, p), PhaseNames(state.step);
    if state.turn != (rec.turn + 1) / 2 then "turn-mismatch"
    else if own.hand != rec.own.hand then "zone-size-mismatch:hand"
    else if own.library != rec.own.library then "zone-size-mismatch:library"
    else if own.graveyard != rec.own.graveyard then "zone-size-mismatch:graveyard"
    else if own.life != rec.own.life then "life-mismatch:own"
    else if SeatOf(state, Opponent(p)).life != rec.opponentLife then "life-mismatch:opponent"
    else if phases != [] && rec.phase != "" && rec.phase !in phases then "phase-mismatch"
    else ""
  }
}
