// Recorded combat declarations: the candidates a record lists, and the ones it
// chose before the end of the list.

module Combat {
  import opened Wrappers
  import opened Trace
  import opened IdMap

  // Each candidate of an attack declaration; None is the end of the list.
  function Attackers(uuids: seq<string>, idMap: Ids): Result<seq<Option<ObjectId>>> {
    if uuids == [] then Ok([])
    else
      var tail := Attackers(uuids[1..], idMap);
      if uuids[0] == DONE then if tail.Err? then tail else Ok([None] + tail.value)
      else if uuids[0] !in idMap then Err("untranslatable-object-id:DeclareAttackers")
      else if tail.Err? then tail else Ok([Some(idMap[uuids[0]])] + tail.value)
  }

  // The text before and after the first arrow.
  function SplitOnce(s: string): Option<(string, string)> {
    if |s| < 2 then None
    else if s[0] == '-' && s[1] == '>' then Some(("", s[2..]))
    else
      var r := SplitOnce(s[1..]);
      if r.None? then None else Some(([s[0]] + r.value.0, r.value.1))
  }

  // Each blocker of a block declaration, whose attacker must be known too.
  function Blockers(uuids: seq<string>, idMap: Ids): Result<seq<Option<ObjectId>>> {
    if uuids == [] then Ok([])
    else
      var tail, pair := Blockers(uuids[1..], idMap), SplitOnce(uuids[0]);
      if uuids[0] == DONE then if tail.Err? then tail else Ok([None] + tail.value)
      else if pair.None? then Err("malformed-block-pair:DeclareBlockers")
      else if pair.value.0 !in idMap || pair.value.1 !in idMap then Err("untranslatable-object-id:DeclareBlockers")
      else if tail.Err? then tail else Ok([Some(idMap[pair.value.0])] + tail.value)
  }

  function Candidates(uuids: seq<string>, idMap: Ids, block: bool): Result<seq<Option<ObjectId>>> {
    if block then Blockers(uuids, idMap) else Attackers(uuids, idMap)
  }

  function PrefixBeforeDone(chosen: seq<nat>, candidates: seq<Option<ObjectId>>): Result<seq<ObjectId>> {
    if chosen == [] then Ok([])
    else if chosen[0] >= |candidates| then Err("chosen-index-out-of-range")
    else if candidates[chosen[0]].None? then Ok([])
    else
      var tail := PrefixBeforeDone(chosen[1..], candidates);
      if tail.Err? then tail else Ok([candidates[chosen[0]].value] + tail.value)
  }

  function CombatChoice(candidates: Result<seq<Option<ObjectId>>>, chosen: seq<nat>): Result<seq<ObjectId>> {
    if candidates.Err? then Err(candidates.error) else PrefixBeforeDone(chosen, candidates.value)
  }

  // ------------------------------------------------------------ pairs

  // The text is b, the first arrow and a.
  ghost predicate IsPair(s: string, b: string, a: string) {
    s == b + "->" + a && !HasArrow(b)
  }

  lemma {:induction false} PairIsLonger(c: char, s: string, b: string, a: string)
    requires IsPair(s, b, a) && s != "" && !(c == '-' && s[0] == '>')
    ensures IsPair([c] + s, [c] + b, a)
  {
    assert [c] + s == ([c] + b) + "->" + a;
    assert b != "" ==> s[0] == b[0];
    forall k ensures !ArrowAt([c] + b, k) {
      assert k > 0 ==> (ArrowAt([c] + b, k) <==> ArrowAt(b, k - 1));
    }
  }

  lemma {:induction false} NoArrowLonger(s: string)
    requires |s| >= 2 && !(s[0] == '-' && s[1] == '>') && !HasArrow(s[1..])
    ensures !HasArrow(s)
  {
    forall k ensures !ArrowAt(s, k) {
      assert k > 0 ==> (ArrowAt(s, k) <==> ArrowAt(s[1..], k - 1));
    }
  }

  // Splitting finds the pair, and fails exactly on texts without an arrow.
  lemma {:induction false} SplitOnceIsPair(s: string)
    ensures var r := SplitOnce(s);
            if r.Some? then IsPair(s, r.value.0, r.value.1) else !HasArrow(s)
  {
    if |s| >= 2 {
      if s[0] == '-' && s[1] == '>' {
        assert s == "" + "->" + s[2..];
        assert forall k :: !ArrowAt("", k);
      } else {
        SplitOnceIsPair(s[1..]);
        assert s == [s[0]] + s[1..];
        var r := SplitOnce(s[1..]);
        if r.Some? {
          PairIsLonger(s[0], s[1..], r.value.0, r.value.1);
        } else {
          NoArrowLonger(s);
        }
      }
    }
  }

  lemma {:induction false} PairHasArrow(s: string, b: string, a: string)
    requires IsPair(s, b, a)
    ensures ArrowAt(s, |b|) && forall k | ArrowAt(s, k) :: |b| <= k
  {
    assert s[|b|] == '-';
    forall k | ArrowAt(s, k) ensures |b| <= k {
      assert k + 1 < |b| ==> (ArrowAt(s, k) <==> ArrowAt(b, k));
    }
  }

  lemma {:induction false} PairIsUnique(s: string, b: string, a: string, b': string, a': string)
    requires IsPair(s, b, a) && IsPair(s, b', a')
    ensures b == b' && a == a'
  {
    PairHasArrow(s, b, a);
    PairHasArrow(s, b', a');
    assert |b| == |b'|;
    assert s[..|b|] == b && s[..|b|] == b' && s[|b| + 2..] == a && s[|b| + 2..] == a';
  }

  // ------------------------------------------------------------ candidates

  // The creature an entry of the list stands for: the bound object of its
  // UUID, or of the first UUID of a pair of which both are bound.
  ghost predicate CreatureIs(uuid: string, idMap: Ids, block: bool, id: ObjectId) {
    && uuid != DONE
    && if !block then uuid in idMap && id == idMap[uuid]
       else exists b, a :: IsPair(uuid, b, a) && b in idMap && a in idMap && id == idMap[b]
  }

  // The entry ends the list or stands for a creature.
  ghost predicate IsKnown(uuid: string, idMap: Ids, block: bool) {
    uuid == DONE || exists id :: CreatureIs(uuid, idMap, block, id)
  }

  ghost predicate AllKnown(uuids: seq<string>, idMap: Ids, block: bool) {
    forall i | 0 <= i < |uuids| :: IsKnown(uuids[i], idMap, block)
  }

  lemma {:induction false} CreatureIsUnique(uuid: string, idMap: Ids, block: bool, x: ObjectId, y: ObjectId)
    requires CreatureIs(uuid, idMap, block, x) && CreatureIs(uuid, idMap, block, y)
    ensures x == y
  {
    if block {
      var b, a :| IsPair(uuid, b, a) && b in idMap && a in idMap && x == idMap[b];
      var b', a' :| IsPair(uuid, b', a') && b' in idMap && a' in idMap && y == idMap[b'];
      PairIsUnique(uuid, b, a, b', a');
    }
  }

  ghost predicate EntryIs(uuid: string, idMap: Ids, block: bool, entry: Option<ObjectId>) {
    if uuid == DONE then entry == None else entry.Some? && CreatureIs(uuid, idMap, block, entry.value)
  }

  ghost predicate EntriesAre(uuids: seq<string>, idMap: Ids, block: bool, entries: seq<Option<ObjectId>>) {
    |entries| == |uuids| && forall i | 0 <= i < |uuids| :: EntryIs(uuids[i], idMap, block, entries[i])
  }

  // One entry, whether attacker or blocker.
  function Entry(uuid: string, idMap: Ids, block: bool): Result<Option<ObjectId>> {
    if uuid == DONE then Ok(None)
    else if !block then
      if uuid in idMap then Ok(Some(idMap[uuid])) else Err("untranslatable-object-id:DeclareAttackers")
    else
      var pair := SplitOnce(uuid);
      if pair.None? then Err("malformed-block-pair:DeclareBlockers")
      else if pair.value.0 !in idMap || pair.value.1 !in idMap then Err("untranslatable-object-id:DeclareBlockers")
      else Ok(Some(idMap[pair.value.0]))
  }

  lemma {:induction false} EntryIsFound(uuid: string, idMap: Ids, block: bool)
    ensures var r := Entry(uuid, idMap, block);
            if r.Ok? then EntryIs(uuid, idMap, block, r.value) else !IsKnown(uuid, idMap, block)
  {
    if block && uuid != DONE {
      SplitOnceIsPair(uuid);
      forall b, a | IsPair(uuid, b, a) ensures SplitOnce(uuid) == Some((b, a)) {
        PairHasArrow(uuid, b, a);
        PairIsUnique(uuid, b, a, SplitOnce(uuid).value.0, SplitOnce(uuid).value.1);
      }
    }
  }

  lemma {:induction false} CandidatesStep(uuids: seq<string>, idMap: Ids, block: bool)
    requires uuids != []
    ensures var r, first, tail :=
              Candidates(uuids, idMap, block), Entry(uuids[0], idMap, block), Candidates(uuids[1..], idMap, block);
            && (r.Ok? <==> first.Ok? && tail.Ok?)
            && (r.Ok? ==> r.value == [first.value] + tail.value)
  {
  }

  // The candidates are found exactly when each entry ends the list or stands
  // for a creature.
  lemma {:induction false} CandidatesAreFound(uuids: seq<string>, idMap: Ids, block: bool)
    ensures Candidates(uuids, idMap, block).Ok? <==> AllKnown(uuids, idMap, block)
    ensures Candidates(uuids, idMap, block).Ok? ==>
              EntriesAre(uuids, idMap, block, Candidates(uuids, idMap, block).value)
  {
    if uuids != [] {
      CandidatesStep(uuids, idMap, block);
      EntryIsFound(uuids[0], idMap, block);
      CandidatesAreFound(uuids[1..], idMap, block);
      KnownStep(uuids, idMap, block);
      if Candidates(uuids, idMap, block).Ok? {
        var first, tail := Entry(uuids[0], idMap, block).value, Candidates(uuids[1..], idMap, block).value;
        assert uuids == [uuids[0]] + uuids[1..];
        EntriesStep(uuids[0], uuids[1..], idMap, block, first, tail);
      }
    }
  }

  lemma {:induction false} KnownStep(uuids: seq<string>, idMap: Ids, block: bool)
    requires uuids != []
    ensures AllKnown(uuids, idMap, block) <==> IsKnown(uuids[0], idMap, block) && AllKnown(uuids[1..], idMap, block)
  {
    if IsKnown(uuids[0], idMap, block) && AllKnown(uuids[1..], idMap, block) {
      forall i | 0 <= i < |uuids| ensures IsKnown(uuids[i], idMap, block) {
        assert i > 0 ==> uuids[i] == uuids[1..][i - 1];
      }
    }
  }

  lemma {:induction false} EntriesStep(
    uuid: string, uuids: seq<string>, idMap: Ids, block: bool,
    entry: Option<ObjectId>, entries: seq<Option<ObjectId>>)
    requires EntryIs(uuid, idMap, block, entry) && EntriesAre(uuids, idMap, block, entries)
    ensures EntriesAre([uuid] + uuids, idMap, block, [entry] + entries)
  {
    forall i | 0 <= i < |uuids| + 1 ensures EntryIs(([uuid] + uuids)[i], idMap, block, ([entry] + entries)[i]) {
      assert i > 0 ==> EntryIs(uuids[i - 1], idMap, block, entries[i - 1]);
    }
  }

  // ------------------------------------------------------------ declarations

  // The declaration names the creatures of the chosen entries, one for one, up
  // to the first that ends the list.
  ghost predicate Declares(uuids: seq<string>, idMap: Ids, block: bool, chosen: seq<nat>, r: seq<ObjectId>) {
    && |r| <= |chosen|
    && (forall i | 0 <= i < |r| :: chosen[i] < |uuids| && CreatureIs(uuids[chosen[i]], idMap, block, r[i]))
    && (|r| == |chosen| || (chosen[|r|] < |uuids| && uuids[chosen[|r|]] == DONE))
  }

  // An index is out of range before any that ends the list.
  ghost predicate OutOfRange(uuids: seq<string>, chosen: seq<nat>, j: nat) {
    && j < |chosen| && chosen[j] >= |uuids|
    && forall i | 0 <= i < j :: chosen[i] < |uuids| && uuids[chosen[i]] != DONE
  }

  lemma {:induction false} DeclarationIsUnique(
    uuids: seq<string>, idMap: Ids, block: bool, chosen: seq<nat>, r: seq<ObjectId>, s: seq<ObjectId>)
    requires Declares(uuids, idMap, block, chosen, r) && Declares(uuids, idMap, block, chosen, s)
    ensures r == s
  {
    assert |r| == |s|;
    forall i | 0 <= i < |r| ensures r[i] == s[i] {
      CreatureIsUnique(uuids[chosen[i]], idMap, block, r[i], s[i]);
    }
  }

  lemma {:induction false} PrefixDeclares(
    uuids: seq<string>, idMap: Ids, block: bool, entries: seq<Option<ObjectId>>, chosen: seq<nat>)
    requires EntriesAre(uuids, idMap, block, entries)
    ensures var r := PrefixBeforeDone(chosen, entries);
            if r.Ok? then Declares(uuids, idMap, block, chosen, r.value)
            else exists j :: OutOfRange(uuids, chosen, j)
  {
    if chosen != [] {
      var r := PrefixBeforeDone(chosen, entries);
      if chosen[0] >= |entries| {
        assert OutOfRange(uuids, chosen, 0);
      } else if entries[chosen[0]].Some? {
        PrefixDeclares(uuids, idMap, block, entries, chosen[1..]);
        assert EntryIs(uuids[chosen[0]], idMap, block, entries[chosen[0]]);
        var tail := PrefixBeforeDone(chosen[1..], entries);
        if tail.Ok? {
          DeclareOneMore(uuids, idMap, block, chosen, entries[chosen[0]].value, tail.value);
        } else {
          var j :| OutOfRange(uuids, chosen[1..], j);
          OutOfRangeLater(uuids, chosen, j);
        }
      } else {
        assert EntryIs(uuids[chosen[0]], idMap, block, entries[chosen[0]]);
      }
    }
  }

  lemma {:induction false} DeclareOneMore(
    uuids: seq<string>, idMap: Ids, block: bool, chosen: seq<nat>, id: ObjectId, tail: seq<ObjectId>)
    requires chosen != [] && chosen[0] < |uuids| && CreatureIs(uuids[chosen[0]], idMap, block, id)
    requires Declares(uuids, idMap, block, chosen[1..], tail)
    ensures Declares(uuids, idMap, block, chosen, [id] + tail)
  {
    var r := [id] + tail;
    forall i | 0 <= i < |r| ensures chosen[i] < |uuids| && CreatureIs(uuids[chosen[i]], idMap, block, r[i]) {
      assert i > 0 ==> chosen[i] == chosen[1..][i - 1] && r[i] == tail[i - 1];
    }
  }

  lemma {:induction false} OutOfRangeLater(uuids: seq<string>, chosen: seq<nat>, j: nat)
    requires chosen != [] && chosen[0] < |uuids| && uuids[chosen[0]] != DONE && OutOfRange(uuids, chosen[1..], j)
    ensures OutOfRange(uuids, chosen, j + 1)
  {
    forall i | 0 <= i < j + 1 ensures chosen[i] < |uuids| && uuids[chosen[i]] != DONE {
      assert i > 0 ==> chosen[i] == chosen[1..][i - 1];
    }
  }

  lemma {:induction false} DeclaredIsInRange(
    uuids: seq<string>, idMap: Ids, block: bool, chosen: seq<nat>, r: seq<ObjectId>, j: nat)
    requires Declares(uuids, idMap, block, chosen, r)
    ensures !OutOfRange(uuids, chosen, j)
  {
    if j < |chosen| {
      assert j < |r| ==> chosen[j] < |uuids|;
      assert |r| < j ==> chosen[|r|] < |uuids| && uuids[chosen[|r|]] == DONE;
    }
  }

  // The record can be followed exactly when all entries are known and no index
  // is out of range before the end of the list, and it then declares what it
  // chose.
  lemma {:induction false} ChoiceDeclares(uuids: seq<string>, idMap: Ids, block: bool, chosen: seq<nat>)
    ensures var r := CombatChoice(Candidates(uuids, idMap, block), chosen);
            && (r.Ok? <==> AllKnown(uuids, idMap, block) && forall j :: !OutOfRange(uuids, chosen, j))
            && (r.Ok? ==> Declares(uuids, idMap, block, chosen, r.value))
  {
    CandidatesAreFound(uuids, idMap, block);
    if Candidates(uuids, idMap, block).Ok? {
      var entries := Candidates(uuids, idMap, block).value;
      PrefixDeclares(uuids, idMap, block, entries, chosen);
      var r := PrefixBeforeDone(chosen, entries);
      if r.Ok? {
        forall j ensures !OutOfRange(uuids, chosen, j) {
          DeclaredIsInRange(uuids, idMap, block, chosen, r.value, j);
        }
      }
    }
  }
}
