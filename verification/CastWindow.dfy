// What matching a cast window means, without the texts of the keys: which
// actions the recording cannot tell apart, which action a recorded candidate
// stands for, and which of several alike the replay takes.

module CastWindow {
  import opened Wrappers
  import opened Basics
  import opened Trace
  import opened IdMap
  import opened Sorting
  import opened Window
  import Shuffle

  // ------------------------------------------------------------ alike actions

  predicate IsWindowAction(a: Action) {
    a.Pass? || a.PlayLand? || a.CastSpell? || a.ActivateMana? || a.ActivateAbility? || a.PlotSpell?
  }

  predicate SameZone(state: GameState, x: ObjectId, y: ObjectId) {
    && (At(state, x).zone == Graveyard <==> At(state, y).zone == Graveyard)
    && (At(state, x).zone == Exile <==> At(state, y).zone == Exile)
  }

  // The recording cannot tell the actions apart: they are of one kind and
  // about cards of one name, cast from like zones or with one ability number.
  predicate Alike(state: GameState, a: Action, b: Action) {
    match (a, b)
    case (Pass, Pass) => true
    case (PlayLand(x), PlayLand(y)) => Name(state, x) == Name(state, y)
    case (CastSpell(x), CastSpell(y)) => Name(state, x) == Name(state, y) && SameZone(state, x, y)
    case (ActivateMana(x), ActivateMana(y)) => Name(state, x) == Name(state, y)
    case (ActivateAbility(x, i), ActivateAbility(y, j)) => Name(state, x) == Name(state, y) && i == j
    case (PlotSpell(x), PlotSpell(y)) => Name(state, x) == Name(state, y)
    case _ => false
  }

  // The first two characters of a key tell the kind.
  function KindText(a: Action): string
    requires IsWindowAction(a)
  {
    match a
    case Pass => "pa"
    case PlayLand(_) => "la"
    case CastSpell(_) => "ca"
    case ActivateMana(_) => "ma"
    case ActivateAbility(_, _) => "ac"
    case PlotSpell(_) => "pl"
  }

  lemma {:induction false} KeyStartsWithKind(state: GameState, a: Action)
    requires IsWindowAction(a)
    ensures |KeyOf(state, a)| >= 2 && KeyOf(state, a)[..2] == KindText(a)
  {
    var key := KeyOf(state, a);
    assert key[0] == KindText(a)[0] && key[1] == KindText(a)[1];
  }

  lemma {:induction false} KindsTellApart(a: Action, b: Action)
    requires IsWindowAction(a) && IsWindowAction(b) && KindText(a) == KindText(b)
    ensures a.Pass? <==> b.Pass?
    ensures a.PlayLand? <==> b.PlayLand?
    ensures a.CastSpell? <==> b.CastSpell?
    ensures a.ActivateMana? <==> b.ActivateMana?
    ensures a.ActivateAbility? <==> b.ActivateAbility?
    ensures a.PlotSpell? <==> b.PlotSpell?
  {
    assert KindText(a)[0] == KindText(b)[0] && KindText(a)[1] == KindText(b)[1];
  }

  lemma {:induction false} CancelFront(front: string, x: string, y: string)
    requires front + x == front + y
    ensures x == y
  {
    assert (front + x)[|front|..] == x && (front + y)[|front|..] == y;
  }

  lemma {:induction false} SpellKeys(state: GameState, x: ObjectId, y: ObjectId)
    requires KeyOf(state, CastSpell(x)) == KeyOf(state, CastSpell(y))
    ensures Name(state, x) == Name(state, y) && SameZone(state, x, y)
  {
    var s, t := ZoneTag(state, x), ZoneTag(state, y);
    LastSplit(':', "cast:" + Name(state, x), s, "cast:" + Name(state, y), t);
    CancelFront("cast:", Name(state, x), Name(state, y));
    assert s[0] == t[0];
  }

  lemma {:induction false} AbilityKeys(state: GameState, x: ObjectId, i: nat, y: ObjectId, j: nat)
    requires KeyOf(state, ActivateAbility(x, i)) == KeyOf(state, ActivateAbility(y, j))
    ensures Name(state, x) == Name(state, y) && i == j
  {
    DecimalIsDigits(i);
    DecimalIsDigits(j);
    LastSplit(':', "activate:" + Name(state, x), Decimal(i), "activate:" + Name(state, y), Decimal(j));
    CancelFront("activate:", Name(state, x), Name(state, y));
    DecimalInjective(i, j);
  }

  // Keys tell apart exactly what the recording can tell apart.
  lemma {:induction false} KeysTellApart(state: GameState, a: Action, b: Action)
    requires IsWindowAction(a) && IsWindowAction(b)
    ensures KeyOf(state, a) == KeyOf(state, b) <==> Alike(state, a, b)
  {
    if KeyOf(state, a) == KeyOf(state, b) {
      KeyStartsWithKind(state, a);
      KeyStartsWithKind(state, b);
      KindsTellApart(a, b);
      match (a, b) {
        case (PlayLand(x), PlayLand(y)) => CancelFront("land:", Name(state, x), Name(state, y));
        case (CastSpell(x), CastSpell(y)) => SpellKeys(state, x, y);
        case (ActivateMana(x), ActivateMana(y)) => CancelFront("mana:", Name(state, x), Name(state, y));
        case (ActivateAbility(x, i), ActivateAbility(y, j)) => AbilityKeys(state, x, i, y, j);
        case (PlotSpell(x), PlotSpell(y)) => CancelFront("plot:", Name(state, x), Name(state, y));
        case _ =>
      }
    }
  }

  // ------------------------------------------------------------ candidates

  predicate Concerns(a: Action, id: ObjectId) {
    match a
    case PlayLand(x) => x == id
    case CastSpell(x) => x == id
    case ActivateMana(x) => x == id
    case ActivateAbility(x, _) => x == id
    case PlotSpell(x) => x == id
    case _ => false
  }

  // Lands come before spells, spells before mana, then abilities, then plots.
  function Rank(a: Action): nat {
    if a.PlayLand? then 0
    else if a.CastSpell? then 1
    else if a.ActivateMana? then 2
    else if a.ActivateAbility? then 3
    else 4
  }

  // The listed action of the object that its text asks for: its plot, where the
  // text says so and there is one, or else the first kind there is.
  ghost predicate IsBucketAction(d: Decision, id: ObjectId, text: string, a: Action)
    requires d.CastSpellOrPass?
  {
    && Listed(d, a) && Concerns(a, id)
    && (a.ActivateAbility? ==> FirstAbility(d.abilities, id, a.index))
    && if "Plot " <= text && id in d.plots then a.PlotSpell?
       else forall b | Listed(d, b) && Concerns(b, id) :: Rank(a) <= Rank(b)
  }

  lemma {:induction false} CandidateActionIsBucket(d: Decision, id: ObjectId, text: string)
    requires d.CastSpellOrPass?
    ensures var r := CandidateAction(d, id, text);
            if r.Some? then IsBucketAction(d, id, text, r.value) else forall a :: !IsBucketAction(d, id, text, a)
  {
    var number := AbilityOf(d.abilities, id);
    AbilityOfIsFirst(d.abilities, id);
    assert forall b :: Listed(d, b) && Concerns(b, id) && b.ActivateAbility? ==> number.Some?;
  }

  lemma {:induction false} BucketActionIsUnique(d: Decision, id: ObjectId, text: string, a: Action, b: Action)
    requires d.CastSpellOrPass? && IsBucketAction(d, id, text, a) && IsBucketAction(d, id, text, b)
    ensures a == b
  {
    assert Rank(a) == Rank(b);
    if a.ActivateAbility? {
      FirstAbilityIsUnique(d.abilities, id, a.index, b.index);
    }
  }

  // The action that a recorded candidate names.
  ghost predicate CandidateIs(d: Decision, idMap: Ids, text: string, uuid: string, a: Action)
    requires d.CastSpellOrPass?
  {
    if text == "Pass" && uuid == "" then a == Pass
    else uuid in idMap && IsBucketAction(d, idMap[uuid], text, a)
  }

  lemma {:induction false} CandidateIsUnique(d: Decision, idMap: Ids, text: string, uuid: string, a: Action, b: Action)
    requires d.CastSpellOrPass? && CandidateIs(d, idMap, text, uuid, a) && CandidateIs(d, idMap, text, uuid, b)
    ensures a == b
  {
    if !(text == "Pass" && uuid == "") {
      BucketActionIsUnique(d, idMap[uuid], text, a, b);
    }
  }

  // A candidate has a key exactly when it names an action, and then that
  // action's key.
  lemma {:induction false} CandidateKeyIs(state: GameState, d: Decision, idMap: Ids, text: string, uuid: string)
    returns (a: Action)
    requires d.CastSpellOrPass?
    ensures var key := CandidateKey(state, d, idMap, text, uuid);
            if key.Some? then CandidateIs(d, idMap, text, uuid, a) && IsWindowAction(a) && key.value == KeyOf(state, a)
            else forall b :: !CandidateIs(d, idMap, text, uuid, b)
  {
    a := Pass;
    if !(text == "Pass" && uuid == "") && uuid in idMap {
      CandidateActionIsBucket(d, idMap[uuid], text);
      var found := CandidateAction(d, idMap[uuid], text);
      if found.Some? {
        a := found.value;
      }
    }
  }

  // ------------------------------------------------------------ the offered ones

  // Pass, then one bucket after the other.
  ghost predicate LaidOut(d: Decision, o: seq<Action>)
    requires d.CastSpellOrPass?
  {
    var afterLands := 1 + |d.lands|;
    var afterSpells := afterLands + |d.castable|;
    var afterMana := afterSpells + |d.mana|;
    var afterAbilities := afterMana + |d.abilities|;
    && |o| == afterAbilities + |d.plots|
    && o[0] == Pass
    && (forall k | 0 <= k < |d.lands| :: o[1 + k] == PlayLand(d.lands[k]))
    && (forall k | 0 <= k < |d.castable| :: o[afterLands + k] == CastSpell(d.castable[k]))
    && (forall k | 0 <= k < |d.mana| :: o[afterSpells + k] == ActivateMana(d.mana[k]))
    && (forall k | 0 <= k < |d.abilities| ::
          o[afterMana + k] == ActivateAbility(d.abilities[k].id, d.abilities[k].index))
    && (forall k | 0 <= k < |d.plots| :: o[afterAbilities + k] == PlotSpell(d.plots[k]))
  }

  lemma {:induction false} OfferedIsLaidOut(d: Decision)
    requires d.CastSpellOrPass?
    ensures LaidOut(d, Offered(d))
  {
  }

  // The listed actions of one kind, in the order of the list.
  ghost function Bucket(d: Decision, a: Action): seq<Action>
    requires d.CastSpellOrPass? && IsWindowAction(a)
  {
    match a
    case Pass => [Pass]
    case PlayLand(_) => seq(|d.lands|, i requires 0 <= i < |d.lands| => PlayLand(d.lands[i]))
    case CastSpell(_) => seq(|d.castable|, i requires 0 <= i < |d.castable| => CastSpell(d.castable[i]))
    case ActivateMana(_) => seq(|d.mana|, i requires 0 <= i < |d.mana| => ActivateMana(d.mana[i]))
    case ActivateAbility(_, _) =>
      seq(|d.abilities|, i requires 0 <= i < |d.abilities| =>
            ActivateAbility(d.abilities[i].id, d.abilities[i].index))
    case PlotSpell(_) => seq(|d.plots|, i requires 0 <= i < |d.plots| => PlotSpell(d.plots[i]))
  }

  // The first in the list of those that the recording cannot tell from it.
  ghost predicate FirstOfItsKind(state: GameState, d: Decision, a: Action)
    requires d.CastSpellOrPass? && IsWindowAction(a)
  {
    exists i :: FirstAt(state, d, a, i)
  }

  ghost predicate FirstAt(state: GameState, d: Decision, a: Action, i: int)
    requires d.CastSpellOrPass? && IsWindowAction(a)
  {
    && 0 <= i < |Bucket(d, a)| && Bucket(d, a)[i] == a
    && forall j | 0 <= j < i :: !Alike(state, Bucket(d, a)[j], a)
  }

  lemma {:induction false} ListedIsInBucket(d: Decision, a: Action)
    requires d.CastSpellOrPass?
    ensures Listed(d, a) <==> IsWindowAction(a) && a in Bucket(d, a)
  {
    if IsWindowAction(a) {
      var bucket := Bucket(d, a);
      match a {
        case Pass => assert bucket[0] == Pass;
        case PlayLand(id) =>
          assert forall i | 0 <= i < |d.lands| :: bucket[i] == PlayLand(d.lands[i]);
        case CastSpell(id) =>
          assert forall i | 0 <= i < |d.castable| :: bucket[i] == CastSpell(d.castable[i]);
        case ActivateMana(id) =>
          assert forall i | 0 <= i < |d.mana| :: bucket[i] == ActivateMana(d.mana[i]);
        case ActivateAbility(id, index) =>
          assert forall i | 0 <= i < |d.abilities| ::
              bucket[i] == ActivateAbility(d.abilities[i].id, d.abilities[i].index);
        case PlotSpell(id) =>
          assert forall i | 0 <= i < |d.plots| :: bucket[i] == PlotSpell(d.plots[i]);
      }
    }
  }

  // How many offered actions lie before the bucket of a kind.
  function Offset(d: Decision, a: Action): nat
    requires d.CastSpellOrPass? && IsWindowAction(a)
  {
    match a
    case Pass => 0
    case PlayLand(_) => 1
    case CastSpell(_) => 1 + |d.lands|
    case ActivateMana(_) => 1 + |d.lands| + |d.castable|
    case ActivateAbility(_, _) => 1 + |d.lands| + |d.castable| + |d.mana|
    case PlotSpell(_) => 1 + |d.lands| + |d.castable| + |d.mana| + |d.abilities|
  }

  // The k-th action of a bucket.
  lemma {:induction false} BucketHolds(d: Decision, a: Action, k: nat)
    requires d.CastSpellOrPass? && IsWindowAction(a) && k < |Bucket(d, a)|
    ensures a.Pass? ==> k == 0 && Bucket(d, a)[k] == Pass
    ensures a.PlayLand? ==> k < |d.lands| && Bucket(d, a)[k] == PlayLand(d.lands[k])
    ensures a.CastSpell? ==> k < |d.castable| && Bucket(d, a)[k] == CastSpell(d.castable[k])
    ensures a.ActivateMana? ==> k < |d.mana| && Bucket(d, a)[k] == ActivateMana(d.mana[k])
    ensures a.ActivateAbility? ==>
              k < |d.abilities| && Bucket(d, a)[k] == ActivateAbility(d.abilities[k].id, d.abilities[k].index)
    ensures a.PlotSpell? ==> k < |d.plots| && Bucket(d, a)[k] == PlotSpell(d.plots[k])
  {
  }

  lemma {:induction false} BucketAt(d: Decision, o: seq<Action>, a: Action, k: nat)
    requires d.CastSpellOrPass? && IsWindowAction(a) && LaidOut(d, o) && k < |Bucket(d, a)|
    ensures Offset(d, a) + k < |o| && o[Offset(d, a) + k] == Bucket(d, a)[k]
  {
    BucketHolds(d, a, k);
    var action, at := Bucket(d, a)[k], Offset(d, a) + k;
    match a
    case Pass =>
    case PlayLand(_) => assert o[at] == action;
    case CastSpell(_) => assert o[at] == action;
    case ActivateMana(_) => assert o[at] == action;
    case ActivateAbility(_, _) => assert o[at] == action;
    case PlotSpell(_) => assert o[at] == action;
  }

  // Nothing of a kind lies outside its bucket.
  lemma {:induction false} OnlyInItsBucket(d: Decision, o: seq<Action>, i: nat)
    requires d.CastSpellOrPass? && LaidOut(d, o) && i < |o|
    ensures IsWindowAction(o[i]) && Offset(d, o[i]) <= i < Offset(d, o[i]) + |Bucket(d, o[i])|
  {
    var afterLands := 1 + |d.lands|;
    var afterSpells := afterLands + |d.castable|;
    var afterMana := afterSpells + |d.mana|;
    var afterAbilities := afterMana + |d.abilities|;
    if i == 0 {
    } else if i < afterLands {
      assert o[1 + (i - 1)] == PlayLand(d.lands[i - 1]);
    } else if i < afterSpells {
      assert o[afterLands + (i - afterLands)] == CastSpell(d.castable[i - afterLands]);
    } else if i < afterMana {
      assert o[afterSpells + (i - afterSpells)] == ActivateMana(d.mana[i - afterSpells]);
    } else if i < afterAbilities {
      var ability := d.abilities[i - afterMana];
      assert o[afterMana + (i - afterMana)] == ActivateAbility(ability.id, ability.index);
    } else {
      assert o[afterAbilities + (i - afterAbilities)] == PlotSpell(d.plots[i - afterAbilities]);
    }
  }

  // The engine offers exactly what the decision lists.
  lemma {:induction false} OfferedIsListed(d: Decision, a: Action)
    requires d.CastSpellOrPass?
    ensures a in Offered(d) <==> Listed(d, a)
  {
    ListedIsInBucket(d, a);
    if Listed(d, a) {
      OfferedIsLaidOut(d);
      var k: nat :| k < |Bucket(d, a)| && Bucket(d, a)[k] == a;
      BucketAt(d, Offered(d), a, k);
    }
  }

  lemma {:induction false} FirstAmongOffered(state: GameState, d: Decision, o: seq<Action>, i: nat)
    requires d.CastSpellOrPass? && LaidOut(d, o) && i < |o|
    requires forall j | 0 <= j < i :: !Alike(state, o[j], o[i])
    ensures IsWindowAction(o[i]) && FirstOfItsKind(state, d, o[i])
  {
    OnlyInItsBucket(d, o, i);
    var a, k := o[i], i - Offset(d, o[i]);
    BucketAt(d, o, a, k);
    forall j | 0 <= j < k ensures !Alike(state, Bucket(d, a)[j], a) {
      BucketAt(d, o, a, j);
    }
    assert FirstAt(state, d, a, k);
  }

  lemma {:induction false} EarlierKeysDiffer(state: GameState, o: seq<Action>, i: nat)
    requires (forall j | 0 <= j < |o| :: IsWindowAction(o[j])) && i < |o|
    requires forall j | 0 <= j < i :: Entries(state, o)[j].key != KeyOf(state, o[i])
    ensures forall j | 0 <= j < i :: !Alike(state, o[j], o[i])
  {
    forall j | 0 <= j < i ensures !Alike(state, o[j], o[i]) {
      assert Entries(state, o)[j].key == KeyOf(state, o[j]);
      KeysTellApart(state, o[j], o[i]);
    }
  }

  // What is found under a key is the first of its kind.
  lemma {:induction false} FoundIsFirst(state: GameState, d: Decision, key: string, a: Action)
    requires d.CastSpellOrPass? && Find(ByKey(state, d), key) == Some(a)
    ensures IsWindowAction(a) && KeyOf(state, a) == key && FirstOfItsKind(state, d, a)
  {
    var o := Offered(d);
    OfferedIsLaidOut(d);
    var i := InsertAllFirst(Entries(state, o), KeyedAction(key, a));
    forall j | 0 <= j < |o| ensures IsWindowAction(o[j]) {
      OnlyInItsBucket(d, o, j);
    }
    EarlierKeysDiffer(state, o, i);
    FirstAmongOffered(state, d, o, i);
  }

  // ------------------------------------------------------------ the whole window

  ghost predicate HasAlike(state: GameState, named: seq<Action>, a: Action) {
    exists i :: 0 <= i < |named| && Alike(state, named[i], a)
  }

  // The candidates name one action for each that the recording can tell apart
  // among those the decision lists.
  ghost predicate NamesWindow(state: GameState, d: Decision, rec: Record, idMap: Ids, named: seq<Action>)
    requires d.CastSpellOrPass?
  {
    && |named| == Min(|rec.texts|, |rec.ids|)
    && (forall i | 0 <= i < |named| :: CandidateIs(d, idMap, rec.texts[i], rec.ids[i], named[i]))
    && (forall i, j | 0 <= i < j < |named| :: !Alike(state, named[i], named[j]))
    && forall a | Listed(d, a) :: HasAlike(state, named, a)
  }

  ghost predicate WindowMatches(state: GameState, d: Decision, rec: Record, idMap: Ids)
    requires d.CastSpellOrPass?
  {
    exists named :: NamesWindow(state, d, rec, idMap, named)
  }

  // What the key of an action says: its kind, the card's name, and the zone of a
  // spell or the number of an ability.
  ghost predicate KeyReads(state: GameState, a: Action, key: string) {
    match a
    case Pass => key == "pass"
    case PlayLand(id) => key == "land:" + Name(state, id)
    case CastSpell(id) =>
      key == "cast:" + Name(state, id)
             + if At(state, id).zone == Graveyard then ":graveyard"
               else if At(state, id).zone == Exile then ":exile" else ":hand"
    case ActivateMana(id) => key == "mana:" + Name(state, id)
    case ActivateAbility(id, index) => key == "activate:" + Name(state, id) + ":" + Decimal(index)
    case PlotSpell(id) => key == "plot:" + Name(state, id)
    case _ => false
  }

  lemma {:induction false} KeyOfReads(state: GameState, a: Action, key: string)
    requires IsWindowAction(a)
    ensures KeyReads(state, a, key) <==> key == KeyOf(state, a)
  {
    if a.CastSpell? {
      var name, tag := Name(state, a.id), ZoneTag(state, a.id);
      assert "cast:" + name + ":" + tag == "cast:" + name + (":" + tag);
    }
  }

  // A key is reported exactly when it is that of a listed action.
  lemma {:induction false} ReportedKeysRead(state: GameState, d: Decision, key: string)
    requires d.CastSpellOrPass?
    ensures key in ReportedKeys(state, d) <==> exists a :: Listed(d, a) && KeyReads(state, a, key)
  {
    ReportedKeysAreListed(state, d, key);
    forall a | Listed(d, a) ensures KeyReads(state, a, key) <==> key == KeyOf(state, a) {
      ListedIsWindowAction(d, a);
      KeyOfReads(state, a, key);
    }
  }

  lemma {:induction false} ReportedKeysAreListed(state: GameState, d: Decision, key: string)
    requires d.CastSpellOrPass?
    ensures key in ReportedKeys(state, d) <==> exists a :: Listed(d, a) && KeyOf(state, a) == key
  {
    var o := Offered(d);
    WindowKeysAreReported(state, d);
    InsertAllKeys(Entries(state, o), key);
    if key in Keys(Entries(state, o)) {
      var i: nat :| i < |o| && Keys(Entries(state, o))[i] == key;
      OfferedIsListed(d, o[i]);
      assert Listed(d, o[i]) && KeyOf(state, o[i]) == key;
    }
    if a :| Listed(d, a) && KeyOf(state, a) == key {
      OfferedIsListed(d, a);
      var i: nat :| i < |o| && o[i] == a;
      assert Keys(Entries(state, o))[i] == key;
    }
  }

  lemma {:induction false} ListedIsWindowAction(d: Decision, a: Action)
    requires d.CastSpellOrPass? && Listed(d, a)
    ensures IsWindowAction(a)
  {
  }

  ghost predicate KeysOf(state: GameState, named: seq<Action>, keys: seq<string>) {
    && |keys| == |named|
    && forall i | 0 <= i < |named| :: IsWindowAction(named[i]) && keys[i] == KeyOf(state, named[i])
  }

  // The actions that the first n candidates with keys name.
  lemma {:induction false} NamedByKeys(state: GameState, d: Decision, rec: Record, idMap: Ids, n: nat)
    returns (named: seq<Action>)
    requires d.CastSpellOrPass? && n <= Min(|rec.texts|, |rec.ids|)
    requires forall i | 0 <= i < n :: CandidateKey(state, d, idMap, rec.texts[i], rec.ids[i]).Some?
    ensures |named| == n
    ensures forall i | 0 <= i < n :: CandidateIs(d, idMap, rec.texts[i], rec.ids[i], named[i])
    ensures forall i | 0 <= i < n :: IsWindowAction(named[i])
              && CandidateKey(state, d, idMap, rec.texts[i], rec.ids[i]) == Some(KeyOf(state, named[i]))
  {
    if n == 0 {
      named := [];
    } else {
      var first := NamedByKeys(state, d, rec, idMap, n - 1);
      var a := CandidateKeyIs(state, d, idMap, rec.texts[n - 1], rec.ids[n - 1]);
      named := first + [a];
    }
  }

  lemma {:induction false} AlikeMeansSameKey(state: GameState, named: seq<Action>, keys: seq<string>, i: nat, j: nat)
    requires KeysOf(state, named, keys) && i < |named| && j < |named|
    ensures Alike(state, named[i], named[j]) <==> keys[i] == keys[j]
  {
    KeysTellApart(state, named[i], named[j]);
  }

  lemma {:induction false} HasAlikeMeansHasKey(state: GameState, named: seq<Action>, keys: seq<string>, a: Action)
    requires KeysOf(state, named, keys) && IsWindowAction(a)
    ensures HasAlike(state, named, a) <==> KeyOf(state, a) in keys
  {
    forall i | 0 <= i < |named| ensures Alike(state, named[i], a) <==> keys[i] == KeyOf(state, a) {
      KeysTellApart(state, named[i], a);
    }
  }

  // Matching keys means matching actions.
  lemma {:induction false} MatchingKeysName(
    state: GameState, d: Decision, rec: Record, idMap: Ids, named: seq<Action>, keys: seq<string>)
    requires d.CastSpellOrPass? && KeysOf(state, named, keys) && |named| == Min(|rec.texts|, |rec.ids|)
    requires forall i | 0 <= i < |named| :: CandidateIs(d, idMap, rec.texts[i], rec.ids[i], named[i])
    requires SortStrings(keys) == Keys(ByKey(state, d))
    ensures NamesWindow(state, d, rec, idMap, named)
  {
    MatchedWindow(state, d, keys);
    forall i, j | 0 <= i < j < |named| ensures !Alike(state, named[i], named[j]) {
      AlikeMeansSameKey(state, named, keys, i, j);
    }
    forall a | Listed(d, a) ensures HasAlike(state, named, a) {
      ListedIsWindowAction(d, a);
      ReportedKeysAreListed(state, d, KeyOf(state, a));
      HasAlikeMeansHasKey(state, named, keys, a);
    }
  }

  lemma {:induction false} NamedIsListed(d: Decision, idMap: Ids, text: string, uuid: string, a: Action)
    requires d.CastSpellOrPass? && CandidateIs(d, idMap, text, uuid, a)
    ensures Listed(d, a) && IsWindowAction(a)
  {
  }

  lemma {:induction false} SameKeysSort(keys: seq<string>, sorted: seq<string>)
    requires Shuffle.Distinct(keys) && Increasing(sorted) && forall k :: k in keys <==> k in sorted
    ensures SortStrings(keys) == sorted
  {
    DistinctSortIncreasing(keys);
    forall k ensures k in SortStrings(keys) <==> k in keys {
      assert k in SortStrings(keys) <==> k in multiset(SortStrings(keys));
      assert k in keys <==> k in multiset(keys);
    }
    IncreasingIsUnique(SortStrings(keys), sorted);
  }

  lemma {:induction false} MatchingNamesSort(
    state: GameState, d: Decision, rec: Record, idMap: Ids, named: seq<Action>, keys: seq<string>)
    requires d.CastSpellOrPass? && KeysOf(state, named, keys) && NamesWindow(state, d, rec, idMap, named)
    ensures SortStrings(keys) == Keys(ByKey(state, d))
  {
    WindowKeysAreReported(state, d);
    forall i, j | 0 <= i < j < |keys| ensures keys[i] != keys[j] {
      AlikeMeansSameKey(state, named, keys, i, j);
    }
    forall k ensures k in keys <==> k in ReportedKeys(state, d) {
      KeyIsReported(state, d, rec, idMap, named, keys, k);
    }
    SameKeysSort(keys, ReportedKeys(state, d));
  }

  lemma {:induction false} KeyIsReported(
    state: GameState, d: Decision, rec: Record, idMap: Ids, named: seq<Action>, keys: seq<string>, k: string)
    requires d.CastSpellOrPass? && KeysOf(state, named, keys) && NamesWindow(state, d, rec, idMap, named)
    ensures k in keys <==> k in ReportedKeys(state, d)
  {
    ReportedKeysAreListed(state, d, k);
    if k in keys {
      var i: nat :| i < |keys| && keys[i] == k;
      NamedIsListed(d, idMap, rec.texts[i], rec.ids[i], named[i]);
    }
    if a :| Listed(d, a) && KeyOf(state, a) == k {
      ListedIsWindowAction(d, a);
      HasAlikeMeansHasKey(state, named, keys, a);
    }
  }

  lemma {:induction false} NamesHaveKeys(
    state: GameState, d: Decision, rec: Record, idMap: Ids, named: seq<Action>, i: nat)
    requires d.CastSpellOrPass? && i < |named| == Min(|rec.texts|, |rec.ids|)
    requires CandidateIs(d, idMap, rec.texts[i], rec.ids[i], named[i])
    ensures IsWindowAction(named[i]) && CandidateKeys(state, d, idMap, rec)[i] == Some(KeyOf(state, named[i]))
  {
    var a := CandidateKeyIs(state, d, idMap, rec.texts[i], rec.ids[i]);
    CandidateIsUnique(d, idMap, rec.texts[i], rec.ids[i], named[i], a);
  }

  function Values(keys: seq<Option<string>>): (values: seq<string>)
    requires forall i | 0 <= i < |keys| :: keys[i].Some?
    ensures |values| == |keys| && forall i | 0 <= i < |keys| :: values[i] == keys[i].value
  {
    seq(|keys|, i requires 0 <= i < |keys| => keys[i].value)
  }

  lemma {:induction false} KeysMatchSorts(state: GameState, d: Decision, rec: Record, idMap: Ids)
    requires d.CastSpellOrPass? && forall i | 0 <= i < Min(|rec.texts|, |rec.ids|) ::
               CandidateKeys(state, d, idMap, rec)[i].Some?
    ensures KeysMatch(state, d, rec, idMap) <==>
            SortStrings(Values(CandidateKeys(state, d, idMap, rec))) == Keys(ByKey(state, d))
  {
    var keys := CandidateKeys(state, d, idMap, rec);
    assert Values(keys) == seq(|keys|, i requires 0 <= i < |keys| => keys[i].value);
  }

  lemma {:induction false} MatchedKeysName(state: GameState, d: Decision, rec: Record, idMap: Ids)
    returns (named: seq<Action>)
    requires d.CastSpellOrPass? && KeysMatch(state, d, rec, idMap)
    ensures NamesWindow(state, d, rec, idMap, named)
  {
    var keys := CandidateKeys(state, d, idMap, rec);
    forall i | 0 <= i < |keys| ensures CandidateKey(state, d, idMap, rec.texts[i], rec.ids[i]).Some? {
      assert keys[i].Some?;
    }
    named := NamedByKeys(state, d, rec, idMap, |keys|);
    KeysMatchSorts(state, d, rec, idMap);
    MatchingKeysName(state, d, rec, idMap, named, Values(keys));
  }

  lemma {:induction false} NamedKeysMatch(
    state: GameState, d: Decision, rec: Record, idMap: Ids, named: seq<Action>)
    requires d.CastSpellOrPass? && NamesWindow(state, d, rec, idMap, named)
    ensures KeysMatch(state, d, rec, idMap)
  {
    var keys := CandidateKeys(state, d, idMap, rec);
    forall i | 0 <= i < |keys| ensures IsWindowAction(named[i]) && keys[i] == Some(KeyOf(state, named[i])) {
      NamesHaveKeys(state, d, rec, idMap, named, i);
    }
    KeysMatchSorts(state, d, rec, idMap);
    MatchingNamesSort(state, d, rec, idMap, named, Values(keys));
  }

  // Comparing sorted keys decides whether the candidates name the window.
  lemma {:induction false} KeysMatchExactly(state: GameState, d: Decision, rec: Record, idMap: Ids)
    requires d.CastSpellOrPass?
    ensures KeysMatch(state, d, rec, idMap) <==> WindowMatches(state, d, rec, idMap)
  {
    if KeysMatch(state, d, rec, idMap) {
      var named := MatchedKeysName(state, d, rec, idMap);
    }
    if WindowMatches(state, d, rec, idMap) {
      var named :| NamesWindow(state, d, rec, idMap, named);
      NamedKeysMatch(state, d, rec, idMap, named);
    }
  }

  // Choosing a candidate means the first listed action that the recording
  // cannot tell from the one it names.
  ghost predicate Chooses(state: GameState, d: Decision, idMap: Ids, text: string, uuid: string, a: Action)
    requires d.CastSpellOrPass?
  {
    && IsWindowAction(a) && FirstOfItsKind(state, d, a)
    && exists named :: CandidateIs(d, idMap, text, uuid, named) && Alike(state, named, a)
  }

  lemma {:induction false} FoundIsChosen(
    state: GameState, d: Decision, rec: Record, idMap: Ids, i: nat, a: Action)
    requires d.CastSpellOrPass? && i < Min(|rec.texts|, |rec.ids|)
    requires CandidateKeys(state, d, idMap, rec)[i] == Some(KeyOf(state, a))
    requires Find(ByKey(state, d), KeyOf(state, a)) == Some(a)
    ensures Chooses(state, d, idMap, rec.texts[i], rec.ids[i], a)
  {
    FoundIsFirst(state, d, KeyOf(state, a), a);
    var named := CandidateKeyIs(state, d, idMap, rec.texts[i], rec.ids[i]);
    KeysTellApart(state, named, a);
  }

  lemma {:induction false} AlikeAgrees(state: GameState, d: Decision, c: Action, a: Action, b: Action)
    requires d.CastSpellOrPass? && IsWindowAction(a) && IsWindowAction(b)
    requires Alike(state, c, a) && Alike(state, c, b)
    ensures Alike(state, a, b) && Alike(state, b, a) && Bucket(d, a) == Bucket(d, b)
  {
  }

  // There is one such action.
  lemma {:induction false} ChoiceIsUnique(
    state: GameState, d: Decision, idMap: Ids, text: string, uuid: string, a: Action, b: Action)
    requires d.CastSpellOrPass?
    requires Chooses(state, d, idMap, text, uuid, a) && Chooses(state, d, idMap, text, uuid, b)
    ensures a == b
  {
    var c :| CandidateIs(d, idMap, text, uuid, c) && Alike(state, c, a);
    var e :| CandidateIs(d, idMap, text, uuid, e) && Alike(state, e, b);
    CandidateIsUnique(d, idMap, text, uuid, c, e);
    AlikeAgrees(state, d, c, a, b);
    var i :| FirstAt(state, d, a, i);
    var j :| FirstAt(state, d, b, j);
  }
}
