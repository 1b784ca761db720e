// What a run takes from the recording before it starts: the players and their
// decks, the map of UUIDs, and each seat's queue of records.

module Setup {
  import opened Wrappers
  import opened Basics
  import opened Trace
  import opened IdMap
  import opened Replay
  import Shuffle

  // The two players' names, first seat first.
  datatype Players = Players(p0: string, p1: string)

  function NameOf(players: Players, p: PlayerId): string {
    if p == P0 then players.p0 else players.p1
  }

  datatype Opening = Opening(handIds: seq<string>, libraryIds: seq<string>, hand: seq<string>, library: seq<string>)
  datatype Recording = Recording(decisions: seq<Record>, openings: map<string, Opening>)

  // The first player to decide takes the first seat; the other one, who must
  // decide too, takes the second.
  predicate AreThePlayers(decisions: seq<Record>, players: Players) {
    && decisions != [] && players.p0 == decisions[0].player && players.p1 != players.p0
    && (exists i | 0 <= i < |decisions| :: decisions[i].player == players.p1)
    && forall i | 0 <= i < |decisions| :: decisions[i].player == players.p0 || decisions[i].player == players.p1
  }

  method SeatNames(decisions: seq<Record>) returns (r: Result<Players>)
    ensures r.Ok? ==> AreThePlayers(decisions, r.value)
    ensures r.Err? ==> forall players :: !AreThePlayers(decisions, players)
  {
    var names: seq<string> := [];
    ghost var all := seq(|decisions|, i requires 0 <= i < |decisions| => decisions[i].player);
    for i := 0 to |decisions|
      invariant if i == 0 then names == [] else names != [] && names[0] == decisions[0].player
      invariant forall n :: n in names <==> n in all[..i]
      invariant forall k, l | 0 <= k < l < |names| :: names[k] != names[l]
    {
      assert all[..i + 1] == all[..i] + [decisions[i].player];
      if decisions[i].player !in names {
        names := names + [decisions[i].player];
      }
    }
    assert all[..|decisions|] == all;
    forall i | 0 <= i < |decisions| ensures decisions[i].player in names {
      assert all[i] in names;
    }
    if |names| != 2 {
      forall players ensures !AreThePlayers(decisions, players) {
        TwoNames(decisions, players, names);
      }
      return Err("setup:player-name-count");
    }
    assert names[1] in names && names[0] in names;
    return Ok(Players(names[0], names[1]));
  }

  lemma {:induction false} ThirdName(names: seq<string>, a: string, b: string) returns (n: string)
    requires Shuffle.Distinct(names) && |names| > 2
    ensures n in names && n != a && n != b
  {
    n := if names[0] != a && names[0] != b then names[0]
         else if names[1] != a && names[1] != b then names[1]
         else names[2];
  }

  lemma {:induction false} TwoNames(decisions: seq<Record>, players: Players, names: seq<string>)
    requires forall i | 0 <= i < |decisions| :: decisions[i].player in names
    requires forall n | n in names :: exists i :: 0 <= i < |decisions| && decisions[i].player == n
    requires Shuffle.Distinct(names)
    ensures AreThePlayers(decisions, players) ==> |names| == 2
  {
    if |names| > 2 {
      var n := ThirdName(names, players.p0, players.p1);
    }
    assert AreThePlayers(decisions, players) ==> players.p0 in names && players.p1 in names;
  }

  // ------------------------------------------------------------ queues

  predicate IsMulligan(d: Record) {
    d.actionType == "MULLIGAN" || d.actionType == "LONDON_MULLIGAN"
  }

  function InQueue(name: string): Record -> bool {
    (d: Record) => d.player == name && !IsMulligan(d)
  }

  // A seat's queue holds its records other than mulligans, in order.
  function QueueFor(decisions: seq<Record>, name: string): seq<Record> {
    Filter(decisions, InQueue(name))
  }

  // The queue lists the records at certain positions, in order: exactly those
  // of the player whose type is neither of the two kinds of mulligan.
  ghost predicate QueuedAt(queue: seq<Record>, decisions: seq<Record>, name: string, at: seq<nat>) {
    && |at| == |queue|
    && (forall k | 0 <= k < |at| :: at[k] < |decisions| && queue[k] == decisions[at[k]])
    && (forall k, l | 0 <= k < l < |at| :: at[k] < at[l])
    && forall i: nat | i < |decisions| :: i in at <==>
         decisions[i].player == name && decisions[i].actionType !in {"MULLIGAN", "LONDON_MULLIGAN"}
  }

  ghost predicate IsQueueOf(queue: seq<Record>, decisions: seq<Record>, name: string) {
    exists at :: QueuedAt(queue, decisions, name, at)
  }

  lemma {:induction false} QueueForIsQueue(decisions: seq<Record>, name: string)
    ensures IsQueueOf(QueueFor(decisions, name), decisions, name)
  {
    var at := FilterSelects(decisions, InQueue(name));
    assert QueuedAt(QueueFor(decisions, name), decisions, name, at);
  }

  // There is one such queue.
  lemma {:induction false} QueueIsUnique(queue: seq<Record>, decisions: seq<Record>, name: string)
    requires IsQueueOf(queue, decisions, name)
    ensures queue == QueueFor(decisions, name)
  {
    var at :| QueuedAt(queue, decisions, name, at);
    SelectionIsUnique(decisions, InQueue(name), at, queue);
  }

  // ------------------------------------------------------------ the seats' UUIDs

  function UuidOfText(texts: seq<string>, ids: seq<string>, name: string): Option<string> {
    if texts == [] || ids == [] then None
    else if texts[0] == name then Some(ids[0])
    else UuidOfText(texts[1..], ids[1..], name)
  }

  // The UUID of the first target candidate that shows a player's name.
  function FindPlayerUuid(decisions: seq<Record>, name: string): Option<string> {
    if decisions == [] then None
    else
      var last := decisions[|decisions| - 1];
      var before := FindPlayerUuid(decisions[..|decisions| - 1], name);
      if before.Some? || last.actionType != "SELECT_TARGETS" then before
      else UuidOfText(last.texts, last.ids, name)
  }

  // Candidate j of decision i, a choice of targets, shows the name.
  predicate ShowsAt(decisions: seq<Record>, name: string, i: int, j: int) {
    && 0 <= i < |decisions| && decisions[i].actionType == "SELECT_TARGETS"
    && 0 <= j < |decisions[i].texts| && j < |decisions[i].ids| && decisions[i].texts[j] == name
  }

  // The UUID is that of the first candidate to show the name, if any does.
  ghost predicate IsPlayerUuid(decisions: seq<Record>, name: string, r: Option<string>) {
    if r.None? then forall i, j :: !ShowsAt(decisions, name, i, j)
    else exists i, j :: ShowsFirst(decisions, name, i, j) && decisions[i].ids[j] == r.value
  }

  ghost predicate ShowsFirst(decisions: seq<Record>, name: string, i: int, j: int) {
    && ShowsAt(decisions, name, i, j)
    && forall k, l | ShowsAt(decisions, name, k, l) :: i < k || (i == k && j <= l)
  }

  lemma {:induction false} UuidOfTextIsFirst(texts: seq<string>, ids: seq<string>, name: string) returns (j: int)
    ensures var r := UuidOfText(texts, ids, name);
            if r.None? then forall k | 0 <= k < |texts| && k < |ids| :: texts[k] != name
            else && 0 <= j < |texts| && j < |ids| && texts[j] == name && ids[j] == r.value
                 && forall k | 0 <= k < j :: texts[k] != name
  {
    j := 0;
    if texts != [] && ids != [] && texts[0] != name {
      var k := UuidOfTextIsFirst(texts[1..], ids[1..], name);
      assert texts == [texts[0]] + texts[1..] && ids == [ids[0]] + ids[1..];
      j := k + 1;
    }
  }

  lemma {:induction false} ShownBefore(front: seq<Record>, last: Record, name: string, r: Option<string>)
    requires IsPlayerUuid(front, name, r) && r.Some?
    ensures IsPlayerUuid(front + [last], name, r)
  {
    var all := front + [last];
    var i, j :| ShowsFirst(front, name, i, j) && front[i].ids[j] == r.value;
    forall k, l | ShowsAt(all, name, k, l) ensures i < k || (i == k && j <= l) {
      assert k < |front| ==> ShowsAt(front, name, k, l);
    }
    assert ShowsFirst(all, name, i, j);
  }

  lemma {:induction false} ShownLast(front: seq<Record>, last: Record, name: string)
    requires IsPlayerUuid(front, name, None)
    ensures IsPlayerUuid(front + [last], name,
                         if last.actionType != "SELECT_TARGETS" then None else UuidOfText(last.texts, last.ids, name))
  {
    var all, n := front + [last], |front|;
    var j := UuidOfTextIsFirst(last.texts, last.ids, name);
    forall k, l | ShowsAt(all, name, k, l) ensures k == n {
      assert k < n ==> (ShowsAt(all, name, k, l) <==> ShowsAt(front, name, k, l));
    }
    if last.actionType == "SELECT_TARGETS" && UuidOfText(last.texts, last.ids, name).Some? {
      assert ShowsFirst(all, name, n, j);
    }
  }

  lemma {:induction false} FindPlayerUuidIsFirst(decisions: seq<Record>, name: string)
    ensures IsPlayerUuid(decisions, name, FindPlayerUuid(decisions, name))
  {
    if decisions != [] {
      var front, last := decisions[..|decisions| - 1], decisions[|decisions| - 1];
      FindPlayerUuidIsFirst(front, name);
      assert decisions == front + [last];
      if FindPlayerUuid(front, name).Some? {
        ShownBefore(front, last, name, FindPlayerUuid(front, name));
      } else {
        ShownLast(front, last, name);
      }
    }
  }

  // ------------------------------------------------------------ decks

  function Deck(o: Opening): seq<string> {
    o.hand + o.library
  }

  function DeckIds(o: Opening): seq<string> {
    o.handIds + o.libraryIds
  }

  // Each card of both decks has a UUID of its own.
  ghost predicate WellRecorded(o0: Opening, o1: Opening) {
    && Shuffle.Distinct(DeckIds(o0) + DeckIds(o1))
    && |DeckIds(o0)| == |Deck(o0)| && |DeckIds(o1)| == |Deck(o1)|
  }

  // What a run never changes, and what it knows at the start.
  function SettingOf(engine: Engine, decisions: seq<Record>, players: Players, o0: Opening, o1: Opening): Setting {
    Setting(engine, |Deck(o0)| + |Deck(o1)|,
            Seats(FindPlayerUuid(decisions, players.p0), FindPlayerUuid(decisions, players.p1)),
            QueueFor(decisions, players.p0), QueueFor(decisions, players.p1))
  }

  function KnownAtStart(o0: Opening, o1: Opening): Known {
    Known(StartMap(DeckIds(o0), DeckIds(o1), |Deck(o0)|), 0, 0)
  }

  lemma {:induction false} StartsGapFree(o0: Opening, o1: Opening)
    requires WellRecorded(o0, o1)
    ensures GapFree(KnownAtStart(o0, o1).idMap, |Deck(o0)| + |Deck(o1)|)
  {
    StartIsGapFree(DeckIds(o0), DeckIds(o1));
  }

  // The setting holds what the recording says: the number of cards, the UUID of
  // each seat and each seat's queue.
  ghost predicate IsSettingOf(g: Setting, decisions: seq<Record>, players: Players, o0: Opening, o1: Opening) {
    && g.pregame == |o0.hand| + |o0.library| + |o1.hand| + |o1.library|
    && IsPlayerUuid(decisions, players.p0, g.seats.p0) && IsPlayerUuid(decisions, players.p1, g.seats.p1)
    && IsQueueOf(g.queue0, decisions, players.p0) && IsQueueOf(g.queue1, decisions, players.p1)
  }

  lemma {:induction false} SettingIsRead(
    engine: Engine, decisions: seq<Record>, players: Players, o0: Opening, o1: Opening)
    ensures IsSettingOf(SettingOf(engine, decisions, players, o0, o1), decisions, players, o0, o1)
  {
    FindPlayerUuidIsFirst(decisions, players.p0);
    FindPlayerUuidIsFirst(decisions, players.p1);
    QueueForIsQueue(decisions, players.p0);
    QueueForIsQueue(decisions, players.p1);
  }

  // The cards of one deck, hand first, are dealt in this order, and their UUIDs
  // are bound to consecutive objects.
  ghost predicate DealtFrom(m: Ids, o: Opening, offset: nat) {
    && |Deck(o)| == |o.hand| + |o.library|
    && (forall i | 0 <= i < |o.hand| :: Deck(o)[i] == o.hand[i])
    && (forall i | 0 <= i < |o.library| :: Deck(o)[|o.hand| + i] == o.library[i])
    && (forall i | 0 <= i < |o.handIds| :: o.handIds[i] in m && m[o.handIds[i]] == offset + i)
    && forall i | 0 <= i < |o.libraryIds| ::
         o.libraryIds[i] in m && m[o.libraryIds[i]] == offset + |o.handIds| + i
  }

  // With a UUID for each card, the first seat's cards are the first objects and
  // the second seat's the next.
  lemma {:induction false} CardsAreBound(o0: Opening, o1: Opening)
    requires WellRecorded(o0, o1)
    ensures DealtFrom(KnownAtStart(o0, o1).idMap, o0, 0)
    ensures DealtFrom(KnownAtStart(o0, o1).idMap, o1, |o0.hand| + |o0.library|)
  {
    var m, ids0, ids1 := KnownAtStart(o0, o1).idMap, DeckIds(o0), DeckIds(o1);
    StartIsGapFree(ids0, ids1);
    DeckIsBound(m, o0, ids0 + ids1, 0);
    DeckIsBound(m, o1, ids0 + ids1, |ids0|);
  }

  lemma {:induction false} DeckIsBound(m: Ids, o: Opening, all: seq<string>, offset: nat)
    requires BoundTo(m, all, |all|) && offset + |DeckIds(o)| <= |all|
    requires all[offset..offset + |DeckIds(o)|] == DeckIds(o)
    ensures DealtFrom(m, o, offset)
  {
    forall i: nat | i < |DeckIds(o)| ensures DeckIds(o)[i] in m && m[DeckIds(o)[i]] == offset + i {
      assert all[offset + i] == all[offset..offset + |DeckIds(o)|][i];
    }
    forall i | 0 <= i < |o.handIds| ensures o.handIds[i] in m && m[o.handIds[i]] == offset + i {
      assert DeckIds(o)[i] == o.handIds[i];
    }
    forall i | 0 <= i < |o.libraryIds|
      ensures o.libraryIds[i] in m && m[o.libraryIds[i]] == offset + |o.handIds| + i
    {
      assert DeckIds(o)[|o.handIds| + i] == o.libraryIds[i];
    }
  }

  method NewContext(engine: Engine, decisions: seq<Record>, players: Players, o0: Opening, o1: Opening)
    returns (ctx: ReplayCtx)
    ensures fresh(ctx) && ctx.Valid() && ctx.Knows() == KnownAtStart(o0, o1)
    ensures ctx.For(engine) == SettingOf(engine, decisions, players, o0, o1)
    ensures IsSettingOf(ctx.For(engine), decisions, players, o0, o1)
  {
    SettingIsRead(engine, decisions, players, o0, o1);
    var idMap := BuildIdMap(DeckIds(o0), DeckIds(o1), |Deck(o0)|);
    var seats := Seats(FindPlayerUuid(decisions, players.p0), FindPlayerUuid(decisions, players.p1));
    ctx := new ReplayCtx(idMap, |Deck(o0)| + |Deck(o1)|, seats,
                         QueueFor(decisions, players.p0), QueueFor(decisions, players.p1));
  }

  // ------------------------------------------------------------ mulligans

  // The shorter recording lists exactly the decisions that are no mulligans.
  ghost predicate RestAt(decisions: seq<Record>, rest: seq<Record>, at: seq<nat>) {
    && |at| == |rest|
    && (forall k | 0 <= k < |at| :: at[k] < |decisions| && rest[k] == decisions[at[k]])
    && (forall k, l | 0 <= k < l < |at| :: at[k] < at[l])
    && forall i: nat | i < |decisions| :: i in at <==> decisions[i].actionType !in {"MULLIGAN", "LONDON_MULLIGAN"}
  }

  ghost predicate WithoutMulligans(decisions: seq<Record>, rest: seq<Record>) {
    exists at :: RestAt(decisions, rest, at)
  }

  lemma {:induction false} RestIsFiltered(decisions: seq<Record>, rest: seq<Record>, keep: Record -> bool)
    requires WithoutMulligans(decisions, rest) && forall d :: keep(d) <==> !IsMulligan(d)
    ensures rest == Filter(decisions, keep)
  {
    var at :| RestAt(decisions, rest, at);
    SelectionIsUnique(decisions, keep, at, rest);
  }

  lemma {:induction false} FilterKeepsUuid(decisions: seq<Record>, keep: Record -> bool, name: string)
    requires forall d: Record | d.actionType == "SELECT_TARGETS" :: keep(d)
    ensures FindPlayerUuid(Filter(decisions, keep), name) == FindPlayerUuid(decisions, name)
  {
    if decisions != [] {
      var front, last := decisions[..|decisions| - 1], decisions[|decisions| - 1];
      FilterKeepsUuid(front, keep, name);
      if keep(last) {
        assert Filter(decisions, keep)[..|Filter(front, keep)|] == Filter(front, keep);
      } else {
        assert Filter(decisions, keep) == Filter(front, keep);
      }
    }
  }

  // Mulligan records make no difference to the setting.
  lemma {:induction false} SettingIgnoresMulligans(
    engine: Engine, decisions: seq<Record>, rest: seq<Record>, players: Players, o0: Opening, o1: Opening)
    requires WithoutMulligans(decisions, rest)
    ensures SettingOf(engine, rest, players, o0, o1) == SettingOf(engine, decisions, players, o0, o1)
  {
    var keep := (d: Record) => !IsMulligan(d);
    RestIsFiltered(decisions, rest, keep);
    forall name ensures QueueFor(rest, name) == QueueFor(decisions, name) {
      FilterTwice(decisions, keep, InQueue(name));
    }
    forall name ensures FindPlayerUuid(rest, name) == FindPlayerUuid(decisions, name) {
      FilterKeepsUuid(decisions, keep, name);
    }
  }
}
