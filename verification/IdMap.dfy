// The map from the recorded game's UUIDs to engine objects: how it starts,
// and how records teach it the tokens created during the game.

module IdMap {
  import opened Wrappers
  import opened Basics
  import opened Trace
  import opened Shuffle

  type Ids = map<string, ObjectId>

  datatype Seats = Seats(p0: Option<string>, p1: Option<string>)

  ghost predicate Injective(m: Ids) {
    forall u, v | u in m && v in m && m[u] == m[v] :: u == v
  }

  // The bound objects are exactly the first |m| of the arena, each bound
  // once, so the tokens among them leave no gap above the starting decks.
  ghost predicate GapFree(m: Ids, pregame: nat) {
    && Injective(m)
    && pregame <= |m|
    && forall id :: id in m.Values <==> 0 <= id < |m|
  }

  ghost predicate Extends(before: Ids, after: Ids) {
    forall u | u in before :: u in after && after[u] == before[u]
  }

  // UUIDs that never name an object.
  predicate Reserved(seats: Seats, uuid: string) {
    uuid == "" || uuid == DONE || seats.p0 == Some(uuid) || seats.p1 == Some(uuid)
  }

  // What any amount of learning does to the map.
  ghost predicate Learns(before: Ids, after: Ids, pregame: nat, seats: Seats) {
    && Extends(before, after)
    && (GapFree(before, pregame) ==> GapFree(after, pregame))
    && forall u | u in after && u !in before :: !Reserved(seats, u)
  }

  lemma {:induction false} LearnsTransitive(a: Ids, b: Ids, c: Ids, pregame: nat, seats: Seats)
    requires Learns(a, b, pregame, seats) && Learns(b, c, pregame, seats)
    ensures Learns(a, c, pregame, seats)
  {
  }

  // ------------------------------------------------------------ the start

  // Each of the first n UUIDs is bound to its own position.
  ghost predicate BoundTo(m: Ids, uuids: seq<string>, n: nat)
    requires n <= |uuids|
  {
    && (forall i | 0 <= i < n :: uuids[i] in m && m[uuids[i]] == i)
    && forall u | u in m :: exists i | 0 <= i < n :: uuids[i] == u
  }

  lemma {:induction false} PrefixIsGapFree(m: Ids, uuids: seq<string>)
    requires Distinct(uuids) && BoundTo(m, uuids, |uuids|) && |m| == |uuids|
    ensures GapFree(m, |uuids|)
  {
    forall id | 0 <= id < |m| ensures id in m.Values {
      assert m[uuids[id]] == id;
    }
  }

  // The map after binding a deck's UUIDs, in order, to consecutive objects.
  function Bind(m: Ids, uuids: seq<string>, offset: nat): Ids {
    if uuids == [] then m
    else
      var n := |uuids| - 1;
      Bind(m, uuids[..n], offset)[uuids[n] := offset + n]
  }

  // The map at the start of a game: both decks, one after the other.
  function StartMap(uuids0: seq<string>, uuids1: seq<string>, p0Objects: nat): Ids {
    Bind(Bind(map[], uuids0, 0), uuids1, p0Objects)
  }

  lemma {:induction false} BindKeys(m: Ids, uuids: seq<string>, offset: nat, u: string)
    ensures u in Bind(m, uuids, offset) <==> u in m || u in uuids
    ensures u in m && u !in uuids ==> Bind(m, uuids, offset)[u] == m[u]
  {
    if uuids != [] {
      var n := |uuids| - 1;
      BindKeys(m, uuids[..n], offset, u);
      assert uuids == uuids[..n] + [uuids[n]];
    }
  }

  lemma {:induction false} BindPositions(m: Ids, uuids: seq<string>, offset: nat, i: nat)
    requires Distinct(uuids) && i < |uuids|
    ensures uuids[i] in Bind(m, uuids, offset) && Bind(m, uuids, offset)[uuids[i]] == offset + i
  {
    var n := |uuids| - 1;
    if i < n {
      BindPositions(m, uuids[..n], offset, i);
      assert uuids[..n][i] == uuids[i] && uuids[i] != uuids[n];
    }
  }

  lemma {:induction false} BindSize(m: Ids, uuids: seq<string>, offset: nat)
    requires Distinct(uuids) && forall u | u in uuids :: u !in m
    ensures |Bind(m, uuids, offset)| == |m| + |uuids|
  {
    if uuids != [] {
      var n := |uuids| - 1;
      BindSize(m, uuids[..n], offset);
      BindKeys(m, uuids[..n], offset, uuids[n]);
      assert forall i | 0 <= i < n :: uuids[..n][i] == uuids[i];
    }
  }

  method BindDeck(m: Ids, uuids: seq<string>, offset: nat) returns (r: Ids)
    ensures r == Bind(m, uuids, offset)
  {
    r := m;
    for i := 0 to |uuids|
      invariant r == Bind(m, uuids[..i], offset)
    {
      assert uuids[..i + 1][..i] == uuids[..i];
      r := r[uuids[i] := offset + i];
    }
    assert uuids[..|uuids|] == uuids;
  }

  lemma {:induction false} DecksAreGapFree(m: Ids, uuids0: seq<string>, uuids1: seq<string>)
    requires Distinct(uuids0 + uuids1) && |m| == |uuids0| + |uuids1|
    requires forall u :: u in m <==> u in uuids0 || u in uuids1
    requires forall i | 0 <= i < |uuids0| :: m[uuids0[i]] == i
    requires forall i | 0 <= i < |uuids1| :: m[uuids1[i]] == |uuids0| + i
    ensures GapFree(m, |uuids0| + |uuids1|) && BoundTo(m, uuids0 + uuids1, |uuids0 + uuids1|)
  {
    var all := uuids0 + uuids1;
    forall i | 0 <= i < |all| ensures all[i] in m && m[all[i]] == i {
      if i >= |uuids0| {
        assert all[i] == uuids1[i - |uuids0|];
      }
    }
    forall u | u in m ensures exists i | 0 <= i < |all| :: all[i] == u {
      assert u in all;
    }
    PrefixIsGapFree(m, all);
  }

  lemma {:induction false} PartsAreDistinct(uuids0: seq<string>, uuids1: seq<string>)
    requires Distinct(uuids0 + uuids1)
    ensures Distinct(uuids0) && Distinct(uuids1)
    ensures forall u | u in uuids1 :: u !in uuids0
  {
    var all := uuids0 + uuids1;
    assert forall i | 0 <= i < |uuids0| :: all[i] == uuids0[i];
    assert forall i | 0 <= i < |uuids1| :: all[|uuids0| + i] == uuids1[i];
  }

  // With distinct UUIDs, as many as the first library has cards, every
  // UUID is bound to its own place in the arena.
  lemma {:induction false} StartIsGapFree(uuids0: seq<string>, uuids1: seq<string>)
    requires Distinct(uuids0 + uuids1)
    ensures var m := StartMap(uuids0, uuids1, |uuids0|);
            GapFree(m, |uuids0| + |uuids1|) && BoundTo(m, uuids0 + uuids1, |uuids0 + uuids1|)
  {
    PartsAreDistinct(uuids0, uuids1);
    var first, m := Bind(map[], uuids0, 0), StartMap(uuids0, uuids1, |uuids0|);
    forall u ensures u in m <==> u in uuids0 || u in uuids1 ensures u in first <==> u in uuids0 {
      BindKeys(map[], uuids0, 0, u);
      BindKeys(first, uuids1, |uuids0|, u);
    }
    forall i | 0 <= i < |uuids0| ensures m[uuids0[i]] == i {
      BindPositions(map[], uuids0, 0, i);
      BindKeys(first, uuids1, |uuids0|, uuids0[i]);
      assert uuids0[i] in uuids0;
    }
    forall i | 0 <= i < |uuids1| ensures m[uuids1[i]] == |uuids0| + i {
      BindPositions(first, uuids1, |uuids0|, i);
    }
    BindSize(map[], uuids0, 0);
    BindSize(first, uuids1, |uuids0|);
    DecksAreGapFree(m, uuids0, uuids1);
  }

  method BuildIdMap(uuids0: seq<string>, uuids1: seq<string>, p0Objects: nat) returns (m: Ids)
    ensures m == StartMap(uuids0, uuids1, p0Objects)
    ensures Distinct(uuids0 + uuids1) && |uuids0| == p0Objects ==> GapFree(m, |uuids0| + |uuids1|)
    ensures Distinct(uuids0 + uuids1) && |uuids0| == p0Objects ==> BoundTo(m, uuids0 + uuids1, |uuids0 + uuids1|)
  {
    var first := BindDeck(map[], uuids0, 0);
    m := BindDeck(first, uuids1, p0Objects);
    if Distinct(uuids0 + uuids1) && |uuids0| == p0Objects {
      StartIsGapFree(uuids0, uuids1);
    }
  }

  // ------------------------------------------------------------ learning

  // Splits at every "->", like a block declaration's pair of UUIDs.
  function SplitArrow(s: string): (parts: seq<string>)
    ensures |parts| > 0
  {
    if |s| < 2 then [s]
    else if s[0] == '-' && s[1] == '>' then [""] + SplitArrow(s[2..])
    else
      var rest := SplitArrow(s[1..]);
      [[s[0]] + rest[0]] + rest[1..]
  }

  predicate ArrowAt(s: string, k: int) {
    0 <= k && k + 1 < |s| && s[k] == '-' && s[k + 1] == '>'
  }

  ghost predicate HasArrow(s: string) {
    exists k :: ArrowAt(s, k)
  }

  function JoinArrow(parts: seq<string>): string
    requires |parts| > 0
  {
    if |parts| == 1 then parts[0] else parts[0] + "->" + JoinArrow(parts[1..])
  }

  // The parts are what lies between the arrows.
  ghost predicate IsSplit(s: string, parts: seq<string>) {
    |parts| > 0 && JoinArrow(parts) == s && forall i | 0 <= i < |parts| :: !HasArrow(parts[i])
  }

  lemma {:induction false} SplitAfterArrow(s: string)
    requires |s| >= 2 && s[0] == '-' && s[1] == '>' && IsSplit(s[2..], SplitArrow(s[2..]))
    ensures IsSplit(s, SplitArrow(s))
  {
    var rest := SplitArrow(s[2..]);
    var parts := [""] + rest;
    assert parts[1..] == rest;
    assert "" + "->" + s[2..] == s;
    forall i | 0 <= i < |parts| ensures !HasArrow(parts[i]) {
      assert i > 0 ==> parts[i] == rest[i - 1];
    }
  }

  lemma {:induction false} JoinLonger(c: char, rest: seq<string>)
    requires |rest| > 0
    ensures JoinArrow([[c] + rest[0]] + rest[1..]) == [c] + JoinArrow(rest)
  {
    var parts := [[c] + rest[0]] + rest[1..];
    if |rest| > 1 {
      assert parts[1..] == rest[1..];
      assert ([c] + rest[0]) + "->" + JoinArrow(rest[1..]) == [c] + (rest[0] + "->" + JoinArrow(rest[1..]));
    }
  }

  // The joined text begins with the first part, and an arrow if there is more.
  lemma {:induction false} JoinStarts(parts: seq<string>)
    requires |parts| > 0
    ensures parts[0] <= JoinArrow(parts)
    ensures |parts| > 1 ==> parts[0] + "->" <= JoinArrow(parts)
  {
    assert |parts| > 1 ==> JoinArrow(parts) == (parts[0] + "->") + JoinArrow(parts[1..]);
  }

  lemma {:induction false} FirstStaysWhole(s: string, rest: seq<string>)
    requires |s| >= 2 && !(s[0] == '-' && s[1] == '>') && IsSplit(s[1..], rest)
    ensures !HasArrow([s[0]] + rest[0])
  {
    var first := [s[0]] + rest[0];
    JoinStarts(rest);
    assert |rest[0]| > 0 ==> rest[0][0] == s[1..][0];
    forall k ensures !ArrowAt(first, k) {
      assert k > 0 ==> (ArrowAt(first, k) <==> ArrowAt(rest[0], k - 1));
    }
  }

  lemma {:induction false} SplitAfterChar(s: string)
    requires |s| >= 2 && !(s[0] == '-' && s[1] == '>') && IsSplit(s[1..], SplitArrow(s[1..]))
    ensures IsSplit(s, SplitArrow(s))
  {
    var rest := SplitArrow(s[1..]);
    var parts := [[s[0]] + rest[0]] + rest[1..];
    FirstStaysWhole(s, rest);
    JoinLonger(s[0], rest);
    assert [s[0]] + s[1..] == s;
    forall i | 0 <= i < |parts| ensures !HasArrow(parts[i]) {
      assert i > 0 ==> parts[i] == rest[i];
    }
  }

  // Splitting loses nothing and leaves no arrow.
  lemma {:induction false} SplitArrowSplits(s: string)
    ensures IsSplit(s, SplitArrow(s))
  {
    if |s| < 2 {
      assert forall k :: !ArrowAt(s, k);
      assert JoinArrow([s]) == s;
    } else if s[0] == '-' && s[1] == '>' {
      SplitArrowSplits(s[2..]);
      SplitAfterArrow(s);
    } else {
      SplitArrowSplits(s[1..]);
      SplitAfterChar(s);
    }
  }

  function AllParts(raws: seq<string>): seq<string> {
    if raws == [] then [] else AllParts(raws[..|raws| - 1]) + SplitArrow(raws[|raws| - 1])
  }

  // The UUIDs a record mentions, in the order they are looked at.
  function Mentioned(rec: Record): seq<string> {
    AllParts(rec.ids + rec.chosenIds)
  }

  // Each text contributes its parts, in order.
  ghost predicate PartsOf(raws: seq<string>, pieces: seq<seq<string>>) {
    |pieces| == |raws| && forall i | 0 <= i < |raws| :: IsSplit(raws[i], pieces[i])
  }

  lemma {:induction false} AllPartsAre(raws: seq<string>) returns (pieces: seq<seq<string>>)
    ensures PartsOf(raws, pieces) && AllParts(raws) == Concat(pieces)
  {
    if raws == [] {
      pieces := [];
    } else {
      var n := |raws| - 1;
      var first := AllPartsAre(raws[..n]);
      SplitArrowSplits(raws[n]);
      pieces := first + [SplitArrow(raws[n])];
      assert pieces[..n] == first;
    }
  }

  // A record mentions the parts of its candidates' UUIDs, then those of the
  // chosen ones.
  lemma {:induction false} MentionedAreParts(rec: Record) returns (pieces: seq<seq<string>>)
    ensures PartsOf(rec.ids + rec.chosenIds, pieces) && Mentioned(rec) == Concat(pieces)
  {
    pieces := AllPartsAre(rec.ids + rec.chosenIds);
  }

  // The lowest unbound object in [from, count), or count.
  function LowestFree(m: Ids, from: nat, count: nat): (id: nat)
    ensures from <= count ==> from <= id <= count
    ensures from > count ==> id == count
    ensures from <= id < count ==> id !in m.Values
    ensures forall k | from <= k < id && k < count :: k in m.Values
    decreases count - from
  {
    if from >= count then count
    else if from !in m.Values then from
    else LowestFree(m, from + 1, count)
  }

  function LearnOne(m: Ids, pregame: nat, count: nat, seats: Seats, uuid: string): Ids {
    if uuid in m || Reserved(seats, uuid) || LowestFree(m, pregame, count) >= count then m
    else m[uuid := LowestFree(m, pregame, count)]
  }

  function Learned(m: Ids, pregame: nat, count: nat, seats: Seats, uuids: seq<string>): Ids {
    if uuids == [] then m
    else LearnOne(Learned(m, pregame, count, seats, uuids[..|uuids| - 1]), pregame, count, seats, uuids[|uuids| - 1])
  }

  // Without gaps the lowest free token object follows the bound ones.
  lemma {:induction false} LowestFreeIsNext(m: Ids, pregame: nat, count: nat)
    requires GapFree(m, pregame)
    ensures LowestFree(m, pregame, count) == if |m| < count then |m| else count
  {
    var id := LowestFree(m, pregame, count);
    assert id < |m| <==> id in m.Values;
    assert |m| !in m.Values;
    assert |m| < count ==> id <= |m|;
    assert |m| < count ==> |m| <= id;
    assert |m| >= count ==> id == count;
  }

  lemma {:induction false} ValuesGrow(m: Ids, uuid: string, id: ObjectId)
    requires uuid !in m
    ensures m[uuid := id].Values == m.Values + {id}
  {
    var after := m[uuid := id];
    forall v ensures v in after.Values <==> v in m.Values || v == id {
      if v in m.Values {
        var u :| u in m && m[u] == v;
        assert after[u] == v;
      }
      assert after[uuid] == id;
    }
  }

  lemma {:induction false} FreshKeepsInjective(m: Ids, uuid: string, id: ObjectId)
    requires Injective(m) && uuid !in m && id !in m.Values
    ensures Injective(m[uuid := id])
  {
    assert forall u | u in m :: m[u] in m.Values;
  }

  lemma {:induction false} BindingNextKeepsGapFree(m: Ids, pregame: nat, uuid: string)
    requires GapFree(m, pregame) && uuid !in m
    ensures GapFree(m[uuid := |m|], pregame)
  {
    ValuesGrow(m, uuid, |m|);
    FreshKeepsInjective(m, uuid, |m|);
    assert |m[uuid := |m|]| == |m| + 1;
  }

  lemma {:induction false} LearnOneLearns(m: Ids, pregame: nat, count: nat, seats: Seats, uuid: string)
    ensures Learns(m, LearnOne(m, pregame, count, seats, uuid), pregame, seats)
  {
    if GapFree(m, pregame) && uuid !in m {
      LowestFreeIsNext(m, pregame, count);
      BindingNextKeepsGapFree(m, pregame, uuid);
    }
  }

  // Learning changes no binding, keeps the map injective and gap-free, and
  // never binds a seat, the sentinel or the empty string.
  lemma {:induction false} LearnedLearns(m: Ids, pregame: nat, count: nat, seats: Seats, uuids: seq<string>)
    ensures Learns(m, Learned(m, pregame, count, seats, uuids), pregame, seats)
  {
    if uuids != [] {
      var first := uuids[..|uuids| - 1];
      LearnedLearns(m, pregame, count, seats, first);
      var middle := Learned(m, pregame, count, seats, first);
      LearnOneLearns(middle, pregame, count, seats, uuids[|uuids| - 1]);
      LearnsTransitive(m, middle, Learned(m, pregame, count, seats, uuids), pregame, seats);
    }
  }

  lemma {:induction false} FirstLearned(m: Ids, pregame: nat, count: nat, seats: Seats, uuids: seq<string>, n: nat)
    requires n < |uuids|
    ensures Learned(m, pregame, count, seats, uuids[..n + 1]) ==
            LearnOne(Learned(m, pregame, count, seats, uuids[..n]), pregame, count, seats, uuids[n])
  {
    assert uuids[..n + 1][..n] == uuids[..n];
  }

  // A new UUID is bound exactly when a token object is still free.
  lemma {:induction false} NewUuidIsBound(m: Ids, pregame: nat, count: nat, seats: Seats, uuid: string)
    requires GapFree(m, pregame) && uuid !in m && !Reserved(seats, uuid)
    ensures uuid in LearnOne(m, pregame, count, seats, uuid) <==> |m| < count
    ensures |m| < count ==> LearnOne(m, pregame, count, seats, uuid)[uuid] == |m|
  {
    LowestFreeIsNext(m, pregame, count);
  }

  // ------------------------------------------------------------ the order of learning

  // Neither bound nor the empty text, the end of a list or a seat.
  predicate IsNew(m: Ids, seats: Seats, u: string) {
    u !in m && u != "" && u != "sentinel:DONE" && seats.p0 != Some(u) && seats.p1 != Some(u)
  }

  // The first mention of a comes before any of b.
  ghost predicate MentionedFirst(uuids: seq<string>, a: string, b: string) {
    exists p: nat :: p < |uuids| && uuids[p] == a && b !in uuids[..p]
  }

  // The new UUIDs, each once, in the order of their first mention.
  ghost predicate AreNews(m: Ids, seats: Seats, uuids: seq<string>, news: seq<string>) {
    && Distinct(news)
    && (forall u :: u in news <==> u in uuids && IsNew(m, seats, u))
    && forall i, j | 0 <= i < j < |news| :: MentionedFirst(uuids, news[i], news[j])
  }

  // The new UUIDs take the free token objects in turn, as far as these go.
  ghost predicate BoundInTurn(m: Ids, after: Ids, count: nat, news: seq<string>) {
    && (forall u | u in m :: u in after && after[u] == m[u])
    && (forall i | 0 <= i < |news| && |m| + i < count :: news[i] in after && after[news[i]] == |m| + i)
    && (forall u | u in after && u !in m :: exists i | 0 <= i < |news| && |m| + i < count :: news[i] == u)
    && |after| == if |m| + |news| <= count then |m| + |news| else if |m| <= count then count else |m|
  }

  lemma {:induction false} OldMention(m: Ids, seats: Seats, uuids: seq<string>, u: string, news: seq<string>)
    requires AreNews(m, seats, uuids, news) && (u in news || !IsNew(m, seats, u))
    ensures AreNews(m, seats, uuids + [u], news)
  {
    forall i, j | 0 <= i < j < |news| ensures MentionedFirst(uuids + [u], news[i], news[j]) {
      MentionStays(uuids, u, news[i], news[j]);
    }
  }

  lemma {:induction false} MentionStays(uuids: seq<string>, u: string, a: string, b: string)
    requires MentionedFirst(uuids, a, b)
    ensures MentionedFirst(uuids + [u], a, b)
  {
    var p: nat :| p < |uuids| && uuids[p] == a && b !in uuids[..p];
    assert (uuids + [u])[..p] == uuids[..p] && (uuids + [u])[p] == a;
  }

  lemma {:induction false} NewMention(m: Ids, seats: Seats, uuids: seq<string>, u: string, news: seq<string>)
    requires AreNews(m, seats, uuids, news) && u !in news && IsNew(m, seats, u)
    ensures AreNews(m, seats, uuids + [u], news + [u])
  {
    var all, more := uuids + [u], news + [u];
    forall i, j | 0 <= i < j < |more| ensures MentionedFirst(all, more[i], more[j]) {
      if j < |news| {
        MentionStays(uuids, u, news[i], news[j]);
      } else {
        assert news[i] in uuids && u !in uuids;
        var p: nat :| p < |uuids| && uuids[p] == news[i];
        assert all[p] == news[i] && all[..p] == uuids[..p];
      }
    }
  }

  lemma {:induction false} NoRoomLeft(m: Ids, after: Ids, count: nat, news: seq<string>, u: string)
    requires BoundInTurn(m, after, count, news) && |after| >= count
    ensures BoundInTurn(m, after, count, news + [u])
  {
    var more := news + [u];
    assert |m| + |news| >= count;
    forall i | 0 <= i < |more| && |m| + i < count ensures more[i] in after && after[more[i]] == |m| + i {
      assert i < |news| && more[i] == news[i];
    }
    forall v | v in after && v !in m ensures exists i | 0 <= i < |more| && |m| + i < count :: more[i] == v {
      var i :| 0 <= i < |news| && |m| + i < count && news[i] == v;
      assert more[i] == v;
    }
  }

  lemma {:induction false} OneMoreBound(m: Ids, after: Ids, count: nat, news: seq<string>, u: string)
    requires BoundInTurn(m, after, count, news) && |after| < count && u !in m && u !in after && u !in news
    ensures BoundInTurn(m, after[u := |after|], count, news + [u])
  {
    var more, next := news + [u], after[u := |after|];
    assert |after| == |m| + |news| && |next| == |after| + 1;
    forall i | 0 <= i < |more| && |m| + i < count ensures more[i] in next && next[more[i]] == |m| + i {
      assert i < |news| ==> more[i] == news[i] && news[i] in news;
    }
    forall v | v in next && v !in m ensures exists i | 0 <= i < |more| && |m| + i < count :: more[i] == v {
      if v == u {
        assert more[|news|] == u;
      } else {
        var i :| 0 <= i < |news| && |m| + i < count && news[i] == v;
        assert more[i] == v;
      }
    }
  }

  // Once nothing is free, a UUID that stayed unbound stays so.
  lemma {:induction false} KnownChangesNothing(
    m: Ids, after: Ids, pregame: nat, count: nat, seats: Seats, news: seq<string>, u: string)
    requires BoundInTurn(m, after, count, news) && GapFree(after, pregame)
    requires u in news || !IsNew(m, seats, u)
    ensures LearnOne(after, pregame, count, seats, u) == after
  {
    LowestFreeIsNext(after, pregame, count);
    if u in news && u !in after {
      var i :| 0 <= i < |news| && news[i] == u;
      assert |m| + i >= count;
    }
  }

  lemma {:induction false} NewIsBoundNext(
    m: Ids, after: Ids, pregame: nat, count: nat, seats: Seats, news: seq<string>, u: string)
    requires BoundInTurn(m, after, count, news) && GapFree(after, pregame)
    requires u !in news && IsNew(m, seats, u)
    ensures BoundInTurn(m, LearnOne(after, pregame, count, seats, u), count, news + [u])
  {
    LowestFreeIsNext(after, pregame, count);
    assert u !in after;
    if |after| < count {
      OneMoreBound(m, after, count, news, u);
    } else {
      NoRoomLeft(m, after, count, news, u);
    }
  }

  // Learning binds the new UUIDs, in the order of their first mention, to the
  // token objects above the bound ones, one after the other, and nothing else.
  lemma {:induction false} LearnedInTurn(m: Ids, pregame: nat, count: nat, seats: Seats, uuids: seq<string>)
    returns (news: seq<string>)
    requires GapFree(m, pregame)
    ensures AreNews(m, seats, uuids, news)
    ensures BoundInTurn(m, Learned(m, pregame, count, seats, uuids), count, news)
  {
    if uuids == [] {
      news := [];
    } else {
      var first, u := uuids[..|uuids| - 1], uuids[|uuids| - 1];
      var after := Learned(m, pregame, count, seats, first);
      news := LearnedInTurn(m, pregame, count, seats, first);
      LearnedLearns(m, pregame, count, seats, first);
      assert uuids == first + [u];
      if u in news || !IsNew(m, seats, u) {
        OldMention(m, seats, first, u, news);
        KnownChangesNothing(m, after, pregame, count, seats, news, u);
      } else {
        NewMention(m, seats, first, u, news);
        NewIsBoundNext(m, after, pregame, count, seats, news, u);
        news := news + [u];
      }
    }
  }
}
