// Seeds for the games of a trial, partitioned by phase and actor, and the
// accounting of outcomes over all actors.

module Seeds {
  import opened Basics

  const STRIDE: nat := 0x80_0000_0000_0000
  const MAX_ACTORS: nat := 256

  // Measurement takes the lower 256 partitions, warm-up the upper ones.
  function Partition(warmup: bool, actor: nat): nat {
    actor + if warmup then MAX_ACTORS else 0
  }

  function Seed(base: nat, warmup: bool, actor: nat, index: nat): nat {
    ((base + Partition(warmup, actor) * STRIDE % U64_LIMIT) % U64_LIMIT + index) % U64_LIMIT
  }

  predicate InPartition(actor: nat, index: nat) {
    actor < MAX_ACTORS && index < STRIDE
  }

  // Where a seed lies above the base, going round the 64-bit circle.
  lemma {:induction false} SeedOffset(base: nat, warmup: bool, actor: nat, index: nat)
    requires base < U64_LIMIT && InPartition(actor, index)
    ensures var offset := Partition(warmup, actor) * STRIDE + index;
            && offset < U64_LIMIT
            && Seed(base, warmup, actor, index) ==
                 if base + offset < U64_LIMIT then base + offset else base + offset - U64_LIMIT
  {
  }

  // Going up from the base, measured games take the lower half of the circle
  // and warm-up the upper half, one stretch of 2^55 seeds for each actor.
  lemma {:induction false} SeedPosition(base: nat, warmup: bool, actor: nat, index: nat)
    requires base < U64_LIMIT && InPartition(actor, index)
    ensures var seed := Seed(base, warmup, actor, index);
            && seed < 0x1_0000_0000_0000_0000
            && (seed + 0x1_0000_0000_0000_0000 - base) % 0x1_0000_0000_0000_0000 ==
                 (if warmup then 0x8000_0000_0000_0000 else 0) + actor * 0x80_0000_0000_0000 + index
  {
    SeedOffset(base, warmup, actor, index);
  }

  // Despite the wrap-around no two games of a trial share a seed.
  lemma {:induction false} SeedsAreInjective(base: nat, w: bool, a: nat, i: nat, w': bool, a': nat, i': nat)
    requires base < U64_LIMIT && InPartition(a, i) && InPartition(a', i')
    requires Seed(base, w, a, i) == Seed(base, w', a', i')
    ensures w == w' && a == a' && i == i'
  {
    SeedOffset(base, w, a, i);
    SeedOffset(base, w', a', i');
    assert Partition(w, a) * STRIDE + i == Partition(w', a') * STRIDE + i';
    assert Partition(w, a) == Partition(w', a');
  }

  // Every 64-bit value is the seed of some game.
  lemma {:induction false} SeedsAreSurjective(base: nat, seed: nat) returns (warmup: bool, actor: nat, index: nat)
    requires base < U64_LIMIT && seed < U64_LIMIT
    ensures InPartition(actor, index) && Seed(base, warmup, actor, index) == seed
  {
    var offset := if seed >= base then seed - base else seed + U64_LIMIT - base;
    var partition := offset / STRIDE;
    index := offset % STRIDE;
    warmup := partition >= MAX_ACTORS;
    actor := if warmup then partition - MAX_ACTORS else partition;
    SeedOffset(base, warmup, actor, index);
  }

  // ------------------------------------------------------------ accounting

  datatype Outcome = NaturalTerminal | SafetyCap | Halted | ApplyError

  // One game: how it ended and after how many decisions.
  datatype Game = Game(outcome: Outcome, decisions: nat)

  datatype Tally = Tally(attempted: nat, natural: nat, capped: nat, halted: nat, errors: nat, decisions: nat)

  const NO_GAMES := Tally(0, 0, 0, 0, 0, 0)

  // The largest 64-bit value at which a saturating counter stays.
  function Clamp(x: nat): nat {
    if x < U64_LIMIT then x else U64_LIMIT - 1
  }

  function Saturating(x: nat, y: nat): nat {
    Clamp(x + y)
  }

  function Count(games: seq<Game>, o: Outcome): nat {
    if games == [] then 0
    else Count(games[..|games| - 1], o) + if games[|games| - 1].outcome == o then 1 else 0
  }

  function Decisions(games: seq<Game>): nat {
    if games == [] then 0 else Decisions(games[..|games| - 1]) + games[|games| - 1].decisions
  }

  // The exact tally of a list of games, whose decisions alone may saturate.
  function Exact(games: seq<Game>): Tally {
    Tally(|games|, Count(games, NaturalTerminal), Count(games, SafetyCap),
          Count(games, Halted), Count(games, ApplyError), Clamp(Decisions(games)))
  }

  predicate Conserved(t: Tally) {
    t.attempted == t.natural + t.capped + t.halted + t.errors
  }

  lemma {:induction false} ExactIsConserved(games: seq<Game>)
    ensures Conserved(Exact(games))
  {
    if games != [] {
      ExactIsConserved(games[..|games| - 1]);
    }
  }

  function Record(t: Tally, game: Game): Tally {
    var s := t.(attempted := Saturating(t.attempted, 1), decisions := Saturating(t.decisions, game.decisions));
    match game.outcome
    case NaturalTerminal => s.(natural := Saturating(t.natural, 1))
    case SafetyCap => s.(capped := Saturating(t.capped, 1))
    case Halted => s.(halted := Saturating(t.halted, 1))
    case ApplyError => s.(errors := Saturating(t.errors, 1))
  }

  // Below the bound no counter of games saturates.
  lemma {:induction false} RecordIsExact(games: seq<Game>, game: Game)
    requires |games| < U64_LIMIT - 1
    ensures Record(Exact(games), game) == Exact(games + [game])
  {
    ExactIsConserved(games);
    assert (games + [game])[..|games|] == games;
  }

  // One phase of one actor. `games` are those for which the clock allows
  // time; the partition may run out first.
  method RunLane(base: nat, warmup: bool, actor: nat, games: seq<Game>)
    returns (t: Tally, seeds: seq<nat>, exhausted: bool)
    requires base < U64_LIMIT && actor < MAX_ACTORS
    ensures exhausted <==> |games| > STRIDE
    ensures |seeds| == if |games| > STRIDE then STRIDE else |games|
    ensures t == Exact(games[..|seeds|]) && Conserved(t)
    ensures forall i | 0 <= i < |seeds| :: seeds[i] == Seed(base, warmup, actor, i)
    ensures forall i, j | 0 <= i < j < |seeds| :: seeds[i] != seeds[j]
  {
    t, seeds, exhausted := NO_GAMES, [], false;
    for n := 0 to |games|
      invariant n <= STRIDE && |seeds| == n && t == Exact(games[..n]) && !exhausted
      invariant forall i | 0 <= i < n :: seeds[i] == Seed(base, warmup, actor, i)
    {
      if t.attempted >= STRIDE {
        exhausted := true;
        break;
      }
      assert games[..n + 1] == games[..n] + [games[n]];
      RecordIsExact(games[..n], games[n]);
      seeds := seeds + [Seed(base, warmup, actor, t.attempted)];
      t := Record(t, games[n]);
    }
    ExactIsConserved(games[..|seeds|]);
    forall i, j | 0 <= i < j < |seeds| ensures seeds[i] != seeds[j] {
      if seeds[i] == seeds[j] {
        SeedsAreInjective(base, warmup, actor, i, warmup, actor, j);
      }
    }
  }

  // ------------------------------------------------------------ all actors

  function Plus(t: Tally, u: Tally): Tally {
    Tally(t.attempted + u.attempted, t.natural + u.natural, t.capped + u.capped, t.halted + u.halted,
          t.errors + u.errors, t.decisions + u.decisions)
  }

  function Sum(lanes: seq<Tally>): Tally {
    if lanes == [] then NO_GAMES else Plus(Sum(lanes[..|lanes| - 1]), lanes[|lanes| - 1])
  }

  function SaturatingPlus(t: Tally, u: Tally): Tally {
    Tally(Saturating(t.attempted, u.attempted), Saturating(t.natural, u.natural), Saturating(t.capped, u.capped),
          Saturating(t.halted, u.halted), Saturating(t.errors, u.errors), Saturating(t.decisions, u.decisions))
  }

  // The sum, with only the decisions clamped.
  function ClampedSum(lanes: seq<Tally>): Tally {
    Sum(lanes).(decisions := Clamp(Sum(lanes).decisions))
  }

  predicate LaneOk(t: Tally) {
    Conserved(t) && t.attempted <= STRIDE
  }

  lemma {:induction false} SumIsConserved(lanes: seq<Tally>)
    requires forall i | 0 <= i < |lanes| :: LaneOk(lanes[i])
    ensures Conserved(Sum(lanes)) && Sum(lanes).attempted <= |lanes| * STRIDE
  {
    if lanes != [] {
      var n := |lanes| - 1;
      SumIsConserved(lanes[..n]);
      assert LaneOk(lanes[n]);
    }
  }

  // Adding up the lanes saturates no count of games, and the closing assertion that each
  // game has exactly one outcome holds even in its saturating form.
  method AddLanes(lanes: seq<Tally>) returns (total: Tally)
    requires |lanes| <= MAX_ACTORS && forall i | 0 <= i < |lanes| :: LaneOk(lanes[i])
    ensures total == ClampedSum(lanes) && Conserved(total)
    ensures total.attempted ==
            Saturating(Saturating(Saturating(total.natural, total.capped), total.halted), total.errors)
  {
    total := NO_GAMES;
    for n := 0 to |lanes|
      invariant total == ClampedSum(lanes[..n])
    {
      assert lanes[..n + 1][..n] == lanes[..n];
      SumIsConserved(lanes[..n]);
      SumIsConserved(lanes[..n + 1]);
      total := SaturatingPlus(total, lanes[n]);
    }
    assert lanes[..|lanes|] == lanes;
    SumIsConserved(lanes);
  }
}
