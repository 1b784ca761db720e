// Resolving recorded targets against the legal targets of a decision.

module Targets {
  import opened Wrappers
  import opened Basics
  import opened Trace
  import opened IdMap
  import opened Sorting
  import opened Window

  function TargetKey(t: Target): string {
    match t
    case Player(seat) => "P" + Decimal(if seat == P0 then 0 else 1)
    case Object(id) => "O" + Decimal(id)
    case StackItem(item) => "S" + Decimal(item)
  }

  lemma {:induction false} TargetKeyInjective(t: Target, u: Target)
    requires TargetKey(t) == TargetKey(u)
    ensures t == u
  {
    assert TargetKey(t)[0] == TargetKey(u)[0];
    assert TargetKey(t)[1..] == TargetKey(u)[1..];
    match t {
      case Player(seat) =>
        DecimalInjective(if seat == P0 then 0 else 1, if u.seat == P0 then 0 else 1);
      case Object(id) => DecimalInjective(id, u.id);
      case StackItem(item) => DecimalInjective(item, u.item);
    }
  }

  function TargetKeys(targets: seq<Target>): (keys: seq<string>)
    ensures |keys| == |targets| && forall i | 0 <= i < |targets| :: keys[i] == TargetKey(targets[i])
  {
    seq(|targets|, i requires 0 <= i < |targets| => TargetKey(targets[i]))
  }

  lemma {:induction false} KeysAppend(targets: seq<Target>, t: Target)
    ensures TargetKeys(targets + [t]) == TargetKeys(targets) + [TargetKey(t)]
  {
  }

  lemma {:induction false} SameKeySameTarget(t: Target, u: Target)
    ensures TargetKey(t) == TargetKey(u) <==> t == u
  {
    if TargetKey(t) == TargetKey(u) {
      TargetKeyInjective(t, u);
    }
  }

  lemma {:induction false} KeysCount(targets: seq<Target>, t: Target)
    ensures multiset(TargetKeys(targets))[TargetKey(t)] == multiset(targets)[t]
  {
    if targets != [] {
      var n := |targets| - 1;
      KeysCount(targets[..n], t);
      assert targets == targets[..n] + [targets[n]];
      KeysAppend(targets[..n], targets[n]);
      SameKeySameTarget(targets[n], t);
    }
  }

  // Comparing sorted keys compares the targets as multisets.
  lemma {:induction false} SameKeysSameTargets(a: seq<Target>, b: seq<Target>)
    ensures SortStrings(TargetKeys(a)) == SortStrings(TargetKeys(b)) <==> multiset(a) == multiset(b)
  {
    SortedCopiesAgree(TargetKeys(a), TargetKeys(b));
    if multiset(TargetKeys(a)) == multiset(TargetKeys(b)) {
      forall t ensures multiset(a)[t] == multiset(b)[t] {
        KeysCount(a, t);
        KeysCount(b, t);
      }
    }
    if multiset(a) == multiset(b) {
      KeysFollowTargets(a, b);
    }
  }

  lemma {:induction false} EveryKeyHasATarget(targets: seq<Target>, key: string)
    requires multiset(TargetKeys(targets))[key] > 0
    ensures exists t :: TargetKey(t) == key
  {
    assert key in multiset(TargetKeys(targets));
    var i :| 0 <= i < |targets| && TargetKeys(targets)[i] == key;
    assert TargetKey(targets[i]) == key;
  }

  lemma {:induction false} KeysFollowTargets(a: seq<Target>, b: seq<Target>)
    requires multiset(a) == multiset(b)
    ensures multiset(TargetKeys(a)) == multiset(TargetKeys(b))
  {
    forall key: string ensures multiset(TargetKeys(a))[key] == multiset(TargetKeys(b))[key] {
      if t: Target :| TargetKey(t) == key {
        KeysCount(a, t);
        KeysCount(b, t);
      } else {
        if multiset(TargetKeys(a))[key] > 0 {
          EveryKeyHasATarget(a, key);
        }
        if multiset(TargetKeys(b))[key] > 0 {
          EveryKeyHasATarget(b, key);
        }
      }
    }
  }

  function Translate(uuid: string, idMap: Ids, seats: Seats): Option<Target> {
    if seats.p0 == Some(uuid) then Some(Player(P0))
    else if seats.p1 == Some(uuid) then Some(Player(P1))
    else if uuid in idMap then Some(Object(idMap[uuid]))
    else None
  }

  // The UUID stands for the target: a seat's own UUID for that player, the
  // first seat's before the second's, and any other for the object it is bound to.
  ghost predicate Denotes(uuid: string, idMap: Ids, seats: Seats, t: Target) {
    match t
    case Player(seat) =>
      if seat == P0 then seats.p0 == Some(uuid) else seats.p1 == Some(uuid) && seats.p0 != Some(uuid)
    case Object(id) => uuid in idMap && idMap[uuid] == id && seats.p0 != Some(uuid) && seats.p1 != Some(uuid)
    case StackItem(_) => false
  }

  lemma {:induction false} TranslateDenotes(uuid: string, idMap: Ids, seats: Seats, t: Target)
    ensures Denotes(uuid, idMap, seats, t) <==> Translate(uuid, idMap, seats) == Some(t)
  {
  }

  ghost predicate Translated(uuids: seq<string>, idMap: Ids, seats: Seats, targets: seq<Target>) {
    |targets| == |uuids| && forall i | 0 <= i < |uuids| :: Denotes(uuids[i], idMap, seats, targets[i])
  }

  // The recorded candidates are a rearrangement of the legal targets.
  ghost predicate TargetsMatch(uuids: seq<string>, idMap: Ids, seats: Seats, legal: seq<Target>) {
    exists targets :: Translated(uuids, idMap, seats, targets) && multiset(targets) == multiset(legal)
  }

  lemma {:induction false} TranslationIsUnique(
    uuids: seq<string>, idMap: Ids, seats: Seats, a: seq<Target>, b: seq<Target>)
    requires Translated(uuids, idMap, seats, a) && Translated(uuids, idMap, seats, b)
    ensures a == b
  {
    forall i | 0 <= i < |uuids| ensures a[i] == b[i] {
      assert Denotes(uuids[i], idMap, seats, a[i]) && Denotes(uuids[i], idMap, seats, b[i]);
    }
  }

  method TranslateAll(uuids: seq<string>, idMap: Ids, seats: Seats) returns (r: Result<seq<Target>>)
    ensures r.Ok? ==> Translated(uuids, idMap, seats, r.value)
    ensures r.Err? ==> forall targets :: !Translated(uuids, idMap, seats, targets)
  {
    var targets: seq<Target> := [];
    for i := 0 to |uuids|
      invariant |targets| == i && forall k | 0 <= k < i :: Denotes(uuids[k], idMap, seats, targets[k])
    {
      var t := Translate(uuids[i], idMap, seats);
      if t.None? {
        forall other ensures !Denotes(uuids[i], idMap, seats, other) {
          TranslateDenotes(uuids[i], idMap, seats, other);
        }
        return Err("untranslatable-target:ChooseTargets");
      }
      targets := targets + [t.value];
    }
    return Ok(targets);
  }

  lemma {:induction false} MatchIsDecided(
    uuids: seq<string>, idMap: Ids, seats: Seats, legal: seq<Target>, targets: seq<Target>)
    requires Translated(uuids, idMap, seats, targets)
    ensures TargetsMatch(uuids, idMap, seats, legal) <==>
            SortStrings(TargetKeys(legal)) == SortStrings(TargetKeys(targets))
    ensures TargetsMatch(uuids, idMap, seats, legal) ==> forall t | t in targets :: t in legal
  {
    SameKeysSameTargets(legal, targets);
    if TargetsMatch(uuids, idMap, seats, legal) {
      var other :| Translated(uuids, idMap, seats, other) && multiset(other) == multiset(legal);
      TranslationIsUnique(uuids, idMap, seats, other, targets);
      forall t | t in targets ensures t in legal {
        assert t in multiset(targets);
      }
    }
  }

  // Succeeds exactly when the lists match and the index is in range; the
  // target is then the translation of the indexed UUID, and a legal one.
  method ResolveTraceTarget(uuids: seq<string>, legal: seq<Target>, idMap: Ids, seats: Seats, index: Option<nat>)
    returns (r: Result<Target>)
    ensures r.Ok? <==> TargetsMatch(uuids, idMap, seats, legal) && index.Some? && index.value < |uuids|
    ensures r.Ok? ==> r.value in legal && Denotes(uuids[index.value], idMap, seats, r.value)
  {
    var targets := TranslateAll(uuids, idMap, seats);
    if targets.Err? {
      return Err(targets.error);
    }
    MatchIsDecided(uuids, idMap, seats, legal, targets.value);
    if SortStrings(TargetKeys(legal)) != SortStrings(TargetKeys(targets.value)) {
      return Err("candidate-multiset-mismatch:ChooseTargets");
    } else if index.None? {
      return Err("unexpected-chosen-count:ChooseTargets");
    } else if index.value >= |targets.value| {
      return Err("chosen-index-out-of-range:ChooseTargets");
    }
    return Ok(targets.value[index.value]);
  }

  function Objects(ids: seq<ObjectId>): (targets: seq<Target>)
    ensures |targets| == |ids| && forall i | 0 <= i < |ids| :: targets[i] == Object(ids[i])
  {
    seq(|ids|, i requires 0 <= i < |ids| => Object(ids[i]))
  }

  lemma {:induction false} ObjectAmong(ids: seq<ObjectId>, t: Target)
    requires t in multiset(Objects(ids))
    ensures t.Object? && t.id in ids
  {
    var i :| 0 <= i < |ids| && Objects(ids)[i] == t;
    assert ids[i] == t.id;
  }

  predicate IsPass(rec: Record, i: nat)
    requires i < |rec.texts| && i < |rec.ids|
  {
    rec.texts[i] == "Pass" && rec.ids[i] == ""
  }

  ghost predicate CostTranslated(rec: Record, idMap: Ids, ids: seq<ObjectId>) {
    && |ids| == Min(|rec.texts|, |rec.ids|)
    && forall i | 0 <= i < |ids| :: !IsPass(rec, i) && rec.ids[i] in idMap && ids[i] == idMap[rec.ids[i]]
  }

  ghost predicate CostMatches(rec: Record, idMap: Ids, candidates: seq<ObjectId>) {
    exists ids :: CostTranslated(rec, idMap, ids) && multiset(Objects(ids)) == multiset(Objects(candidates))
  }

  method TranslateCost(rec: Record, idMap: Ids) returns (r: Result<seq<ObjectId>>)
    ensures r.Ok? ==> CostTranslated(rec, idMap, r.value)
    ensures r.Err? ==> forall ids :: !CostTranslated(rec, idMap, ids)
  {
    var translated := TranslateCandidates(rec, idMap);
    if translated.Err? {
      return Err(translated.error);
    }
    var ids: seq<ObjectId> := [];
    for i := 0 to |translated.value|
      invariant |ids| == i
      invariant forall k | 0 <= k < i :: !IsPass(rec, k) && rec.ids[k] in idMap && ids[k] == idMap[rec.ids[k]]
    {
      if translated.value[i].None? {
        return Err("choose-cost-targets-candidate-is-pass");
      }
      ids := ids + [translated.value[i].value];
    }
    return Ok(ids);
  }

  lemma {:induction false} CostIsDecided(rec: Record, idMap: Ids, candidates: seq<ObjectId>, ids: seq<ObjectId>)
    requires CostTranslated(rec, idMap, ids)
    ensures CostMatches(rec, idMap, candidates) <==>
            SortStrings(TargetKeys(Objects(candidates))) == SortStrings(TargetKeys(Objects(ids)))
    ensures CostMatches(rec, idMap, candidates) ==> forall id | id in ids :: id in candidates
  {
    SameKeysSameTargets(Objects(candidates), Objects(ids));
    if CostMatches(rec, idMap, candidates) {
      var other :| CostTranslated(rec, idMap, other) && multiset(Objects(other)) == multiset(Objects(candidates));
      assert other == ids;
      forall id | id in ids ensures id in candidates {
        var i :| 0 <= i < |ids| && ids[i] == id;
        assert Objects(ids)[i] in multiset(Objects(ids));
        ObjectAmong(candidates, Objects(ids)[i]);
      }
    }
  }

  // A cost's targets are objects, compared under the same keys.
  method ResolveCostTarget(rec: Record, candidates: seq<ObjectId>, idMap: Ids, index: Option<nat>)
    returns (r: Result<ObjectId>)
    ensures r.Ok? <==> CostMatches(rec, idMap, candidates) && index.Some? && index.value < Min(|rec.texts|, |rec.ids|)
    ensures r.Ok? ==> r.value in candidates && rec.ids[index.value] in idMap && r.value == idMap[rec.ids[index.value]]
  {
    var ids := TranslateCost(rec, idMap);
    if ids.Err? {
      return Err(ids.error);
    }
    CostIsDecided(rec, idMap, candidates, ids.value);
    if SortStrings(TargetKeys(Objects(candidates))) != SortStrings(TargetKeys(Objects(ids.value))) {
      return Err("candidate-multiset-mismatch:ChooseCostTargets");
    } else if index.None? {
      return Err("unexpected-chosen-count:ChooseCostTargets");
    } else if index.value >= |ids.value| {
      return Err("chosen-index-out-of-range:ChooseCostTargets");
    }
    return Ok(ids.value[index.value]);
  }
}
