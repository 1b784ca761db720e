// Matching a recorded candidate list against the engine's own: the keys of a
// cast window, and the translation of recorded targets.

module Window {
  import opened Wrappers
  import opened Basics
  import opened Trace
  import opened IdMap
  import opened Sorting
  import Shuffle

  // ------------------------------------------------------------ ordered maps

  // An ordered map, kept as its entries in increasing key order.
  datatype KeyedAction = KeyedAction(key: string, action: Action)

  predicate Increasing(s: seq<string>) {
    forall i, j | 0 <= i < j < |s| :: StringLe(s[i], s[j]) && s[i] != s[j]
  }

  function Keys(m: seq<KeyedAction>): (keys: seq<string>)
    ensures |keys| == |m| && forall i | 0 <= i < |m| :: keys[i] == m[i].key
  {
    seq(|m|, i requires 0 <= i < |m| => m[i].key)
  }

  // Adds an entry unless its key is already there.
  function OrInsert(m: seq<KeyedAction>, e: KeyedAction): seq<KeyedAction> {
    if m == [] then [e]
    else if m[0].key == e.key then m
    else if StringLe(e.key, m[0].key) then [e] + m
    else [m[0]] + OrInsert(m[1..], e)
  }

  lemma {:induction false} OrInsertMembers(m: seq<KeyedAction>, e: KeyedAction, x: KeyedAction)
    ensures x in OrInsert(m, e) ==> x in m || x == e
    ensures x in m ==> x in OrInsert(m, e)
  {
    if m != [] {
      assert m == [m[0]] + m[1..];
      OrInsertMembers(m[1..], e, x);
    }
  }

  lemma {:induction false} OrInsertHasKey(m: seq<KeyedAction>, e: KeyedAction)
    ensures e.key in Keys(OrInsert(m, e))
  {
    if m == [] {
      assert Keys([e])[0] == e.key;
    } else if m[0].key == e.key {
      assert Keys(m)[0] == e.key;
    } else if StringLe(e.key, m[0].key) {
      assert Keys([e] + m)[0] == e.key;
    } else {
      OrInsertHasKey(m[1..], e);
      var tail := OrInsert(m[1..], e);
      var i :| 0 <= i < |tail| && Keys(tail)[i] == e.key;
      assert Keys([m[0]] + tail)[i + 1] == e.key;
    }
  }

  lemma {:induction false} ConsIncreasing(x: string, s: seq<string>)
    requires Increasing(s) && forall y | y in s :: StringLe(x, y) && x != y
    ensures Increasing([x] + s)
  {
  }

  lemma {:induction false} TailOfIncreasing(s: seq<string>)
    requires Increasing(s) && s != []
    ensures Increasing(s[1..]) && forall y | y in s[1..] :: StringLe(s[0], y) && s[0] != y
  {
    forall y | y in s[1..] ensures StringLe(s[0], y) && s[0] != y {
      var i :| 0 <= i < |s[1..]| && s[1..][i] == y;
      assert s[i + 1] == y;
    }
  }

  lemma {:induction false} OrInsertIncreasing(m: seq<KeyedAction>, e: KeyedAction)
    requires Increasing(Keys(m))
    ensures Increasing(Keys(OrInsert(m, e)))
  {
    if m == [] || m[0].key == e.key {
    } else if StringLe(e.key, m[0].key) {
      FrontIncreasing(m, e);
    } else {
      TailOfIncreasing(Keys(m));
      assert Keys(m)[1..] == Keys(m[1..]);
      OrInsertIncreasing(m[1..], e);
      BackIncreasing(m, e, OrInsert(m[1..], e));
    }
  }

  lemma {:induction false} BelowTheFirst(x: string, s: seq<string>, y: string)
    requires s != [] && Increasing(s) && StringLe(x, s[0]) && x != s[0] && y in s
    ensures StringLe(x, y) && x != y
  {
    var i :| 0 <= i < |s| && s[i] == y;
    if i > 0 {
      StringLeTransitive(x, s[0], y);
      StringLeTotal(s[0], x);
    }
  }

  lemma {:induction false} FrontIncreasing(m: seq<KeyedAction>, e: KeyedAction)
    requires m != [] && Increasing(Keys(m)) && StringLe(e.key, m[0].key) && e.key != m[0].key
    ensures Increasing(Keys([e] + m))
  {
    var keys := Keys(m);
    forall y | y in keys ensures StringLe(e.key, y) && e.key != y {
      BelowTheFirst(e.key, keys, y);
    }
    ConsIncreasing(e.key, keys);
    assert Keys([e] + m) == [e.key] + keys;
  }

  lemma {:induction false} BackFollows(m: seq<KeyedAction>, e: KeyedAction, x: KeyedAction)
    requires m != [] && Increasing(Keys(m)) && !StringLe(e.key, m[0].key) && (x == e || x in m[1..])
    ensures StringLe(m[0].key, x.key) && m[0].key != x.key
  {
    StringLeTotal(e.key, m[0].key);
    if x in m[1..] {
      var k :| 0 <= k < |m[1..]| && m[1..][k] == x;
      assert Keys(m)[0] == m[0].key && Keys(m)[k + 1] == x.key;
    }
  }

  lemma {:induction false} BackTail(m: seq<KeyedAction>, e: KeyedAction, y: string)
    requires m != [] && Increasing(Keys(m)) && !StringLe(e.key, m[0].key) && y in Keys(OrInsert(m[1..], e))
    ensures StringLe(m[0].key, y) && m[0].key != y
  {
    var tail := OrInsert(m[1..], e);
    var i :| 0 <= i < |tail| && Keys(tail)[i] == y;
    OrInsertMembers(m[1..], e, tail[i]);
    BackFollows(m, e, tail[i]);
  }

  lemma {:induction false} BackIncreasing(m: seq<KeyedAction>, e: KeyedAction, tail: seq<KeyedAction>)
    requires m != [] && tail == OrInsert(m[1..], e) && Increasing(Keys(tail))
    requires Increasing(Keys(m)) && !StringLe(e.key, m[0].key)
    ensures Increasing(Keys([m[0]] + tail))
  {
    forall y | y in Keys(tail) ensures StringLe(m[0].key, y) && m[0].key != y {
      BackTail(m, e, y);
    }
    ConsIncreasing(m[0].key, Keys(tail));
    assert Keys([m[0]] + tail) == [m[0].key] + Keys(tail);
  }

  function InsertAll(m: seq<KeyedAction>, entries: seq<KeyedAction>): seq<KeyedAction> {
    if entries == [] then m
    else OrInsert(InsertAll(m, entries[..|entries| - 1]), entries[|entries| - 1])
  }

  lemma {:induction false} InsertAllKeepsOrder(entries: seq<KeyedAction>)
    ensures Increasing(Keys(InsertAll([], entries)))
  {
    if entries != [] {
      var first := entries[..|entries| - 1];
      InsertAllKeepsOrder(first);
      OrInsertIncreasing(InsertAll([], first), entries[|entries| - 1]);
    }
  }

  lemma {:induction false} InsertAllMembers(entries: seq<KeyedAction>, x: KeyedAction)
    ensures x in InsertAll([], entries) ==> x in entries
  {
    if entries != [] {
      var n := |entries| - 1;
      assert entries == entries[..n] + [entries[n]];
      InsertAllMembers(entries[..n], x);
      OrInsertMembers(InsertAll([], entries[..n]), entries[n], x);
    }
  }

  lemma {:induction false} FrontKeyIsNew(x: string, s: seq<string>)
    requires s != [] && Increasing(s) && StringLe(x, s[0]) && x != s[0]
    ensures x !in s
  {
    forall y | y in s ensures y != x {
      BelowTheFirst(x, s, y);
    }
  }

  lemma {:induction false} KeyInTail(m: seq<KeyedAction>, key: string)
    requires Increasing(Keys(m)) && key in Keys(m) && m[0].key != key
    ensures key in Keys(m[1..]) && Increasing(Keys(m[1..])) && !StringLe(key, m[0].key)
  {
    var keys := Keys(m);
    if StringLe(key, keys[0]) {
      FrontKeyIsNew(key, keys);
    }
    TailOfIncreasing(keys);
    assert keys == [keys[0]] + keys[1..] && keys[1..] == Keys(m[1..]);
  }

  lemma {:induction false} KnownKeyStays(m: seq<KeyedAction>, e: KeyedAction)
    requires Increasing(Keys(m)) && e.key in Keys(m)
    ensures OrInsert(m, e) == m
  {
    if m[0].key != e.key {
      KeyInTail(m, e.key);
      KnownKeyStays(m[1..], e);
      assert m == [m[0]] + m[1..];
    }
  }

  lemma {:induction false} NewKeyIsFirst(entries: seq<KeyedAction>, key: string)
    requires key !in Keys(InsertAll([], entries))
    ensures forall j | 0 <= j < |entries| :: entries[j].key != key
  {
    forall j | 0 <= j < |entries| ensures entries[j].key != key {
      InsertAllHasKeys(entries, j);
    }
  }

  // An entry that the last insertion adds is the last, under a new key.
  lemma {:induction false} AddedLast(m: seq<KeyedAction>, last: KeyedAction, x: KeyedAction)
    requires Increasing(Keys(m)) && x in OrInsert(m, last) && x !in m
    ensures x == last && last.key !in Keys(m)
  {
    OrInsertMembers(m, last, x);
    if last.key in Keys(m) {
      KnownKeyStays(m, last);
    }
  }

  // An entry of the map is the first of those inserted with its key.
  lemma {:induction false} InsertAllFirst(entries: seq<KeyedAction>, x: KeyedAction) returns (i: nat)
    requires x in InsertAll([], entries)
    ensures i < |entries| && entries[i] == x && forall j | 0 <= j < i :: entries[j].key != x.key
  {
    assert entries != [];
    var n: nat := |entries| - 1;
    var first := entries[..n];
    assert forall j | 0 <= j < n :: first[j] == entries[j];
    if x in InsertAll([], first) {
      i := InsertAllFirst(first, x);
    } else {
      InsertAllKeepsOrder(first);
      AddedLast(InsertAll([], first), entries[n], x);
      NewKeyIsFirst(first, x.key);
      i := n;
    }
  }

  lemma {:induction false} KeyStays(m: seq<KeyedAction>, e: KeyedAction, key: string)
    requires key in Keys(m)
    ensures key in Keys(OrInsert(m, e))
  {
    var i :| 0 <= i < |m| && Keys(m)[i] == key;
    var after := OrInsert(m, e);
    OrInsertMembers(m, e, m[i]);
    var j :| 0 <= j < |after| && after[j] == m[i];
    assert Keys(after)[j] == key;
  }

  lemma {:induction false} InsertAllHasKeys(entries: seq<KeyedAction>, i: nat)
    requires i < |entries|
    ensures entries[i].key in Keys(InsertAll([], entries))
  {
    var n := |entries| - 1;
    var m := InsertAll([], entries[..n]);
    if i == n {
      OrInsertHasKey(m, entries[n]);
    } else {
      InsertAllHasKeys(entries[..n], i);
      assert entries[..n][i] == entries[i];
      KeyStays(m, entries[n], entries[i].key);
    }
  }

  // The keys of the ordered map are exactly the inserted keys.
  lemma {:induction false} InsertAllKeys(entries: seq<KeyedAction>, key: string)
    ensures key in Keys(InsertAll([], entries)) <==> key in Keys(entries)
  {
    var m := InsertAll([], entries);
    if key in Keys(m) {
      var i :| 0 <= i < |m| && Keys(m)[i] == key;
      InsertAllMembers(entries, m[i]);
      var j :| 0 <= j < |entries| && entries[j] == m[i];
      assert Keys(entries)[j] == key;
    }
    if key in Keys(entries) {
      var i :| 0 <= i < |entries| && Keys(entries)[i] == key;
      InsertAllHasKeys(entries, i);
    }
  }

  function Find(m: seq<KeyedAction>, key: string): (r: Option<Action>)
    ensures r.Some? ==> KeyedAction(key, r.value) in m
    ensures r.None? ==> key !in Keys(m)
  {
    if m == [] then None
    else if m[0].key == key then Some(m[0].action)
    else
      var r := Find(m[1..], key);
      assert forall k | k in Keys(m) && k != m[0].key :: k in Keys(m[1..]) by {
        assert Keys(m) == [m[0].key] + Keys(m[1..]);
      }
      r
  }

  // ------------------------------------------------------------ two renderings

  // Removes equal neighbours.
  function Dedup(s: seq<string>): seq<string> {
    if |s| < 2 then s
    else if s[0] == s[1] then Dedup(s[1..])
    else [s[0]] + Dedup(s[1..])
  }

  lemma {:induction false} DedupMembers(s: seq<string>, x: string)
    ensures x in Dedup(s) <==> x in s
  {
    if |s| >= 2 {
      assert s == [s[0]] + s[1..];
      DedupMembers(s[1..], x);
      assert s[1] in s[1..];
    }
  }

  lemma {:induction false} DedupIncreasing(s: seq<string>)
    requires SortedBy(s, StringLe)
    ensures Increasing(Dedup(s))
  {
    if |s| >= 2 {
      DedupIncreasing(s[1..]);
      if s[0] != s[1] {
        forall y | y in Dedup(s[1..]) ensures StringLe(s[0], y) && s[0] != y {
          DedupMembers(s[1..], y);
          var i :| 0 <= i < |s[1..]| && s[1..][i] == y;
          assert StringLe(s[0], s[i + 1]) && StringLe(s[0], s[1]);
          assert i > 0 ==> StringLe(s[1], s[i + 1]);
          StringLeTotal(s[0], s[1]);
        }
        ConsIncreasing(s[0], Dedup(s[1..]));
      }
    }
  }

  // Two increasing lists with the same members are the same list.
  lemma {:induction false} IncreasingIsUnique(s: seq<string>, t: seq<string>)
    requires Increasing(s) && Increasing(t) && forall x :: x in s <==> x in t
    ensures s == t
  {
    assert s != [] ==> s[0] in s;
    assert t != [] ==> t[0] in t;
    if s != [] {
      HeadOfIncreasing(s, t);
      TailOfIncreasing(s);
      TailOfIncreasing(t);
      assert s == [s[0]] + s[1..] && t == [t[0]] + t[1..];
      assert forall x :: x in s[1..] <==> x in s && x != s[0];
      assert forall x :: x in t[1..] <==> x in t && x != t[0];
      IncreasingIsUnique(s[1..], t[1..]);
    }
  }

  lemma {:induction false} HeadOfIncreasing(s: seq<string>, t: seq<string>)
    requires Increasing(s) && Increasing(t) && s != [] && t != []
    requires s[0] in t && t[0] in s
    ensures s[0] == t[0]
  {
    var i :| 0 <= i < |t| && t[i] == s[0];
    var j :| 0 <= j < |s| && s[j] == t[0];
    if i > 0 && j > 0 {
      StringLeTotal(s[0], t[0]);
    }
  }

  // ------------------------------------------------------------ the cast window

  function ZoneTag(state: GameState, id: ObjectId): string {
    match At(state, id).zone
    case Graveyard => "graveyard"
    case Exile => "exile"
    case _ => "hand"
  }

  function KeyOf(state: GameState, a: Action): string {
    match a
    case PlayLand(id) => "land:" + Name(state, id)
    case CastSpell(id) => "cast:" + Name(state, id) + ":" + ZoneTag(state, id)
    case ActivateMana(id) => "mana:" + Name(state, id)
    case ActivateAbility(id, index) => "activate:" + Name(state, id) + ":" + Decimal(index)
    case PlotSpell(id) => "plot:" + Name(state, id)
    case _ => "pass"
  }

  // The window's actions in the order in which their keys are registered.
  function Offered(d: Decision): (actions: seq<Action>)
    requires d.CastSpellOrPass?
    ensures forall a | a in actions :: Listed(d, a)
  {
    var lands := seq(|d.lands|, i requires 0 <= i < |d.lands| => PlayLand(d.lands[i]));
    var spells := seq(|d.castable|, i requires 0 <= i < |d.castable| => CastSpell(d.castable[i]));
    var mana := seq(|d.mana|, i requires 0 <= i < |d.mana| => ActivateMana(d.mana[i]));
    var abilities := seq(|d.abilities|, i requires 0 <= i < |d.abilities| =>
                           ActivateAbility(d.abilities[i].id, d.abilities[i].index));
    var plots := seq(|d.plots|, i requires 0 <= i < |d.plots| => PlotSpell(d.plots[i]));
    [Pass] + lands + spells + mana + abilities + plots
  }

  function Entries(state: GameState, actions: seq<Action>): (entries: seq<KeyedAction>)
    ensures |entries| == |actions|
    ensures forall i | 0 <= i < |actions| :: entries[i] == KeyedAction(KeyOf(state, actions[i]), actions[i])
  {
    seq(|actions|, i requires 0 <= i < |actions| => KeyedAction(KeyOf(state, actions[i]), actions[i]))
  }

  // The ordered map from keys to actions; the first action with a key wins.
  function ByKey(state: GameState, d: Decision): seq<KeyedAction>
    requires d.CastSpellOrPass?
  {
    InsertAll([], Entries(state, Offered(d)))
  }

  // What is reported at a boundary: every key, sorted, without repeats.
  function ReportedKeys(state: GameState, d: Decision): seq<string>
    requires d.CastSpellOrPass?
  {
    Dedup(SortStrings(Keys(Entries(state, Offered(d)))))
  }

  // The keys matched during replay are the keys reported at boundaries.
  lemma {:induction false} WindowKeysAreReported(state: GameState, d: Decision)
    requires d.CastSpellOrPass?
    ensures Keys(ByKey(state, d)) == ReportedKeys(state, d)
    ensures Increasing(ReportedKeys(state, d))
  {
    var entries := Entries(state, Offered(d));
    var sorted := SortStrings(Keys(entries));
    StringsAreOrdered(Keys(entries));
    SortSorts(Keys(entries), StringLe);
    DedupIncreasing(sorted);
    InsertAllKeepsOrder(entries);
    forall x ensures x in Keys(ByKey(state, d)) <==> x in Dedup(sorted) {
      DedupMembers(sorted, x);
      InsertAllKeys(entries, x);
      assert x in sorted <==> x in multiset(sorted);
      assert x in Keys(entries) <==> x in multiset(Keys(entries));
    }
    IncreasingIsUnique(Keys(ByKey(state, d)), Dedup(sorted));
  }

  // Every entry of the window is an action the decision listed, under its key.
  lemma {:induction false} WindowActionsAreListed(state: GameState, d: Decision, e: KeyedAction)
    requires d.CastSpellOrPass? && e in ByKey(state, d)
    ensures Listed(d, e.action) && e.key == KeyOf(state, e.action)
  {
    var entries := Entries(state, Offered(d));
    InsertAllMembers(entries, e);
    var i :| 0 <= i < |entries| && entries[i] == e;
    assert Offered(d)[i] in Offered(d);
  }

  // The number is that of the object's first listed ability.
  ghost predicate FirstAbility(abilities: seq<Ability>, id: ObjectId, index: nat) {
    exists i :: 0 <= i < |abilities| && abilities[i] == Ability(id, index)
                && forall j | 0 <= j < i :: abilities[j].id != id
  }

  lemma {:induction false} FirstAbilityIsUnique(abilities: seq<Ability>, id: ObjectId, m: nat, n: nat)
    requires FirstAbility(abilities, id, m) && FirstAbility(abilities, id, n)
    ensures m == n
  {
  }

  lemma {:induction false} FirstAbilityLater(abilities: seq<Ability>, id: ObjectId, index: nat)
    requires abilities != [] && abilities[0].id != id && FirstAbility(abilities[1..], id, index)
    ensures FirstAbility(abilities, id, index)
  {
    var rest := abilities[1..];
    var i :| 0 <= i < |rest| && rest[i] == Ability(id, index) && forall j | 0 <= j < i :: rest[j].id != id;
    assert abilities[i + 1] == Ability(id, index);
    forall j | 0 <= j < i + 1 ensures abilities[j].id != id {
      assert j > 0 ==> abilities[j] == rest[j - 1];
    }
  }

  function AbilityOf(abilities: seq<Ability>, id: ObjectId): (r: Option<nat>)
    ensures r.Some? ==> Ability(id, r.value) in abilities
    ensures r.None? ==> forall a | a in abilities :: a.id != id
  {
    if abilities == [] then None
    else if abilities[0].id == id then Some(abilities[0].index)
    else AbilityOf(abilities[1..], id)
  }

  lemma {:induction false} AbilityOfIsFirst(abilities: seq<Ability>, id: ObjectId)
    ensures var r := AbilityOf(abilities, id); r.Some? ==> FirstAbility(abilities, id, r.value)
  {
    if abilities != [] && AbilityOf(abilities, id).Some? {
      if abilities[0].id == id {
        assert abilities[0] == Ability(id, abilities[0].index);
      } else {
        AbilityOfIsFirst(abilities[1..], id);
        FirstAbilityLater(abilities, id, AbilityOf(abilities, id).value);
      }
    }
  }

  // The action a recorded candidate stands for: the first bucket it is in.
  function CandidateAction(d: Decision, id: ObjectId, text: string): (r: Option<Action>)
    requires d.CastSpellOrPass?
    ensures r.Some? ==> Listed(d, r.value)
  {
    if "Plot " <= text && id in d.plots then Some(PlotSpell(id))
    else if id in d.lands then Some(PlayLand(id))
    else if id in d.castable then Some(CastSpell(id))
    else if id in d.mana then Some(ActivateMana(id))
    else if AbilityOf(d.abilities, id).Some? then Some(ActivateAbility(id, AbilityOf(d.abilities, id).value))
    else if id in d.plots then Some(PlotSpell(id))
    else None
  }

  // The objects of the recorded candidates; None is the pass candidate.
  method TranslateCandidates(rec: Record, idMap: Ids) returns (r: Result<seq<Option<ObjectId>>>)
    ensures r.Ok? <==> forall i | 0 <= i < Min(|rec.texts|, |rec.ids|) ::
                         (rec.texts[i] == "Pass" && rec.ids[i] == "") || rec.ids[i] in idMap
    ensures r.Ok? ==> |r.value| == Min(|rec.texts|, |rec.ids|) && forall i | 0 <= i < |r.value| ::
              if rec.texts[i] == "Pass" && rec.ids[i] == "" then r.value[i] == None
              else rec.ids[i] in idMap && r.value[i] == Some(idMap[rec.ids[i]])
  {
    var out: seq<Option<ObjectId>> := [];
    for i := 0 to Min(|rec.texts|, |rec.ids|)
      invariant |out| == i
      invariant forall k | 0 <= k < i ::
                  if rec.texts[k] == "Pass" && rec.ids[k] == "" then out[k] == None
                  else rec.ids[k] in idMap && out[k] == Some(idMap[rec.ids[k]])
    {
      if rec.texts[i] == "Pass" && rec.ids[i] == "" {
        out := out + [None];
      } else if rec.ids[i] in idMap {
        out := out + [Some(idMap[rec.ids[i]])];
      } else {
        return Err("untranslatable-object-id");
      }
    }
    return Ok(out);
  }

  // The key a recorded candidate must have among the engine's.
  function CandidateKey(state: GameState, d: Decision, idMap: Ids, text: string, uuid: string): Option<string>
    requires d.CastSpellOrPass?
  {
    if text == "Pass" && uuid == "" then Some("pass")
    else if uuid !in idMap then None
    else
      var action := CandidateAction(d, idMap[uuid], text);
      if action.None? then None else Some(KeyOf(state, action.value))
  }

  function CandidateKeys(state: GameState, d: Decision, idMap: Ids, rec: Record): (keys: seq<Option<string>>)
    requires d.CastSpellOrPass?
    ensures |keys| == Min(|rec.texts|, |rec.ids|)
  {
    seq(Min(|rec.texts|, |rec.ids|), i requires 0 <= i < Min(|rec.texts|, |rec.ids|) =>
          CandidateKey(state, d, idMap, rec.texts[i], rec.ids[i]))
  }

  // The keys of the recorded candidates, in the record's order.
  method TraceKeys(state: GameState, d: Decision, rec: Record, idMap: Ids) returns (r: Result<seq<string>>)
    requires d.CastSpellOrPass?
    ensures var keys := CandidateKeys(state, d, idMap, rec);
            if forall i | 0 <= i < |keys| :: keys[i].Some?
            then r.Ok? && |r.value| == |keys| && forall i | 0 <= i < |keys| :: keys[i] == Some(r.value[i])
            else r.Err?
  {
    ghost var expected := CandidateKeys(state, d, idMap, rec);
    var ids := TranslateCandidates(rec, idMap);
    if ids.Err? {
      ghost var i :| 0 <= i < |expected| && !(rec.texts[i] == "Pass" && rec.ids[i] == "") && rec.ids[i] !in idMap;
      assert expected[i].None?;
      return Err(ids.error);
    }
    var keys: seq<string> := [];
    for i := 0 to |ids.value|
      invariant |keys| == i && forall k | 0 <= k < i :: expected[k] == Some(keys[k])
    {
      var action := if ids.value[i].None? then Some(Pass) else CandidateAction(d, ids.value[i].value, rec.texts[i]);
      if action.None? {
        assert expected[i].None?;
        return Err("trace-candidate-not-in-any-kernel-bucket:CastSpellOrPass");
      }
      keys := keys + [KeyOf(state, action.value)];
    }
    return Ok(keys);
  }

  lemma {:induction false} DistinctSortIncreasing(s: seq<string>)
    requires Shuffle.Distinct(s)
    ensures Increasing(SortStrings(s))
  {
    var r := SortStrings(s);
    StringsAreOrdered(s);
    SortSorts(s, StringLe);
    forall i, j | 0 <= i < j < |r| ensures StringLe(r[i], r[j]) && r[i] != r[j] {
      Shuffle.DistinctCounts(s, r[i]);
      if r[i] == r[j] {
        Shuffle.RepeatCounts(r, i, j);
      }
    }
  }

  // A list whose sorted copy strictly increases has no repeats.
  lemma {:induction false} SortedCopyDistinct(s: seq<string>, sorted: seq<string>)
    requires Increasing(sorted) && SortStrings(s) == sorted
    ensures Shuffle.Distinct(s)
  {
    forall i, j | 0 <= i < j < |s| ensures s[i] != s[j] {
      if s[i] == s[j] {
        Shuffle.RepeatCounts(s, i, j);
        IncreasingCountsOnce(sorted, s[i]);
      }
    }
  }

  lemma {:induction false} IncreasingCountsOnce(s: seq<string>, x: string)
    requires Increasing(s)
    ensures multiset(s)[x] <= 1
  {
    if s != [] {
      TailOfIncreasing(s);
      assert s == [s[0]] + s[1..];
      IncreasingCountsOnce(s[1..], x);
      if x == s[0] {
        assert x !in s[1..];
      }
    }
  }

  // What a passed comparison of sorted keys guarantees: the recorded keys
  // are free of repeats, cover every action the engine offers, and each
  // resolves to an offered action with that very key.
  lemma {:induction false} MatchedWindow(state: GameState, d: Decision, traceKeys: seq<string>)
    requires d.CastSpellOrPass? && SortStrings(traceKeys) == Keys(ByKey(state, d))
    ensures Shuffle.Distinct(traceKeys)
    ensures forall k :: k in traceKeys <==> k in ReportedKeys(state, d)
    ensures forall i | 0 <= i < |traceKeys| ::
              var found := Find(ByKey(state, d), traceKeys[i]);
              found.Some? && Listed(d, found.value) && KeyOf(state, found.value) == traceKeys[i]
  {
    WindowKeysAreReported(state, d);
    var keys := Keys(ByKey(state, d));
    SortedCopyDistinct(traceKeys, keys);
    assert forall k :: k in traceKeys <==> k in multiset(traceKeys);
    assert forall k :: k in keys <==> k in multiset(keys);
    forall i | 0 <= i < |traceKeys|
      ensures var found := Find(ByKey(state, d), traceKeys[i]);
              found.Some? && Listed(d, found.value) && KeyOf(state, found.value) == traceKeys[i]
    {
      assert traceKeys[i] in keys;
      var found := Find(ByKey(state, d), traceKeys[i]);
      WindowActionsAreListed(state, d, KeyedAction(traceKeys[i], found.value));
    }
  }

  // Every recorded candidate has a key, and the keys are the engine's.
  ghost predicate KeysMatch(state: GameState, d: Decision, rec: Record, idMap: Ids)
    requires d.CastSpellOrPass?
  {
    var keys := CandidateKeys(state, d, idMap, rec);
    && (forall i | 0 <= i < |keys| :: keys[i].Some?)
    && SortStrings(seq(|keys|, i requires 0 <= i < |keys| => keys[i].value)) == Keys(ByKey(state, d))
  }

  // Resolves one candidate of a cast window: the recorded choice, or the
  // alternate. It succeeds exactly when the lists match and the index is in
  // range, and then yields an offered action with the candidate's key.
  method ResolveCast(state: GameState, d: Decision, rec: Record, idMap: Ids, index: Option<nat>)
    returns (r: Result<Action>)
    requires d.CastSpellOrPass?
    ensures r.Ok? <==> KeysMatch(state, d, rec, idMap) && index.Some? && index.value < Min(|rec.texts|, |rec.ids|)
    ensures r.Ok? ==> CandidateKeys(state, d, idMap, rec)[index.value] == Some(KeyOf(state, r.value))
    ensures r.Ok? ==> Listed(d, r.value) && Find(ByKey(state, d), KeyOf(state, r.value)) == Some(r.value)
  {
    var byKey := ByKey(state, d);
    var traceKeys := TraceKeys(state, d, rec, idMap);
    if traceKeys.Err? {
      return Err(traceKeys.error);
    }
    ghost var keys := CandidateKeys(state, d, idMap, rec);
    assert traceKeys.value == seq(|keys|, i requires 0 <= i < |keys| => keys[i].value);
    if Keys(byKey) != SortStrings(traceKeys.value) {
      return Err("candidate-multiset-mismatch:CastSpellOrPass");
    }
    MatchedWindow(state, d, traceKeys.value);
    if index.None? {
      return Err("unexpected-chosen-count:CastSpellOrPass");
    } else if index.value >= |traceKeys.value| {
      return Err("chosen-index-out-of-range:CastSpellOrPass");
    }
    var found := Find(byKey, traceKeys.value[index.value]);
    return Ok(found.value);
  }
}
