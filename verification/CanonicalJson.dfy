// The canonical encoder: object keys sorted at every depth, no insignificant
// white space, arrays in order.

module CanonicalJson {
  import opened Json
  import opened Sorting
  import Shuffle

  predicate KeyLe(a: Member, b: Member) {
    StringLe(a.key, b.key)
  }

  // The value with the members of every object in key order.
  function Norm(v: Json): Json {
    match v
    case Arr(items) => Arr(NormItems(items))
    case Obj(members) => Obj(Sort(NormMembers(members), KeyLe))
    case _ => v
  }

  function NormItems(items: seq<Json>): (r: seq<Json>)
    ensures |r| == |items|
    ensures forall i | 0 <= i < |items| :: r[i] == Norm(items[i])
  {
    if items == [] then [] else [Norm(items[0])] + NormItems(items[1..])
  }

  function NormMembers(members: seq<Member>): (r: seq<Member>)
    ensures |r| == |members|
    ensures forall i | 0 <= i < |members| :: r[i] == Member(members[i].key, Norm(members[i].value))
  {
    if members == [] then []
    else [Member(members[0].key, Norm(members[0].value))] + NormMembers(members[1..])
  }

  function Canon(v: Json): string {
    Print(Norm(v))
  }

  // Equality up to the order of object members, at any depth.
  ghost predicate SameUpToKeyOrder(u: Json, v: Json) {
    match (u, v)
    case (Arr(a), Arr(b)) =>
      |a| == |b| && forall i | 0 <= i < |a| :: SameUpToKeyOrder(a[i], b[i])
    case (Obj(a), Obj(b)) =>
      |a| == |b| && forall i | 0 <= i < |a| :: HasTwin(a[i], b)
    case _ => u == v
  }

  ghost predicate HasTwin(m: Member, b: seq<Member>) {
    exists j :: 0 <= j < |b| && m.key == b[j].key && SameUpToKeyOrder(m.value, b[j].value)
  }

  // ----------------------------------------------------------- normalisation

  lemma {:induction false} KeysAreOrdered(members: seq<Member>)
    requires DistinctKeys(members)
    ensures TotalPreorder(KeyLe) && TiesAreEqual(members, KeyLe)
  {
    StringsAreOrdered([]);
    forall i, j
      | 0 <= i < |members| && 0 <= j < |members| && KeyLe(members[i], members[j]) && KeyLe(members[j], members[i])
      ensures members[i] == members[j]
    {
      StringLeTotal(members[i].key, members[j].key);
    }
  }

  lemma {:induction false} FromSorted(members: seq<Member>, i: nat) returns (j: nat)
    requires i < |members|
    ensures j < |members| && Sort(members, KeyLe)[i] == members[j]
  {
    assert Sort(members, KeyLe)[i] in multiset(members);
    j :| 0 <= j < |members| && members[j] == Sort(members, KeyLe)[i];
  }

  lemma {:induction false} NotInserted(x: Member, s: seq<Member>, key: string)
    requires x.key != key && forall i | 0 <= i < |s| :: s[i].key != key
    ensures forall i | 0 <= i < |Insert(x, s, KeyLe)| :: Insert(x, s, KeyLe)[i].key != key
  {
    var t := Insert(x, s, KeyLe);
    forall i | 0 <= i < |t| ensures t[i].key != key {
      assert t[i] in multiset(t);
      if t[i] != x {
        assert t[i] in multiset(s);
        var j :| 0 <= j < |s| && s[j] == t[i];
      }
    }
  }

  lemma {:induction false} DistinctAfterInsert(x: Member, s: seq<Member>)
    requires DistinctKeys(s) && forall i | 0 <= i < |s| :: s[i].key != x.key
    ensures DistinctKeys(Insert(x, s, KeyLe))
  {
    if s != [] && !KeyLe(x, s[0]) {
      DistinctAfterInsert(x, s[1..]);
      NotInserted(x, s[1..], s[0].key);
    }
  }

  lemma {:induction false} DistinctAfterSort(members: seq<Member>)
    requires DistinctKeys(members)
    ensures DistinctKeys(Sort(members, KeyLe))
  {
    if members != [] {
      DistinctAfterSort(members[1..]);
      var t := Sort(members[1..], KeyLe);
      forall i | 0 <= i < |t| ensures t[i].key != members[0].key {
        var j := FromSorted(members[1..], i);
      }
      DistinctAfterInsert(members[0], t);
    }
  }

  lemma {:induction false} NormIsValid(v: Json)
    requires Valid(v)
    ensures Valid(Norm(v))
  {
    match v
    case Arr(items) =>
      forall i | 0 <= i < |items| ensures Valid(Norm(items[i])) {
        NormIsValid(items[i]);
      }
    case Obj(members) =>
      var normal := NormMembers(members);
      DistinctAfterSort(normal);
      forall i | 0 <= i < |normal| ensures Valid(Sort(normal, KeyLe)[i].value) {
        var j := FromSorted(normal, i);
        NormIsValid(members[j].value);
      }
    case _ =>
  }

  // The parser recovers the value, up to key order, from its canonical text.
  lemma {:induction false} ParseCanon(v: Json)
    requires Valid(v)
    ensures ParseValue(Canon(v)) == Ok(Norm(v), "")
  {
    NormIsValid(v);
    ParsePrint(Norm(v), "");
    assert Print(Norm(v)) + "" == Print(Norm(v));
  }

  // ------------------------------------------------- injectivity up to order

  lemma {:induction false} MatchingMember(a: seq<Member>, b: seq<Member>, i: nat) returns (j: nat)
    requires Sort(NormMembers(a), KeyLe) == Sort(NormMembers(b), KeyLe) && i < |a|
    ensures |a| == |b| && j < |b|
    ensures a[i].key == b[j].key && Norm(a[i].value) == Norm(b[j].value)
  {
    var normA, normB := NormMembers(a), NormMembers(b);
    assert multiset(normA) == multiset(normB);
    assert |multiset(normA)| == |a| && |multiset(normB)| == |b|;
    assert normA[i] in multiset(normB);
    j :| 0 <= j < |normB| && normB[j] == normA[i];
  }

  lemma {:induction false} NormEqualMeansSame(u: Json, v: Json)
    requires Norm(u) == Norm(v)
    ensures SameUpToKeyOrder(u, v)
    decreases u, 1
  {
    match (u, v)
    case (Arr(a), Arr(b)) => SameItems(u, v);
    case (Obj(a), Obj(b)) => SameMembers(u, v);
    case _ =>
  }

  lemma {:induction false} SameItems(u: Json, v: Json)
    requires u.Arr? && v.Arr? && Norm(u) == Norm(v)
    ensures SameUpToKeyOrder(u, v)
    decreases u, 0
  {
    assert NormItems(u.items) == NormItems(v.items);
    forall i | 0 <= i < |u.items| ensures SameUpToKeyOrder(u.items[i], v.items[i]) {
      assert NormItems(u.items)[i] == NormItems(v.items)[i];
      NormEqualMeansSame(u.items[i], v.items[i]);
    }
  }

  lemma {:induction false} SameMembers(u: Json, v: Json)
    requires u.Obj? && v.Obj? && Norm(u) == Norm(v)
    ensures SameUpToKeyOrder(u, v)
    decreases u, 0
  {
    var a, b := u.members, v.members;
    assert Sort(NormMembers(a), KeyLe) == Sort(NormMembers(b), KeyLe);
    assert |Sort(NormMembers(a), KeyLe)| == |a| && |Sort(NormMembers(b), KeyLe)| == |b|;
    forall i | 0 <= i < |a| ensures HasTwin(a[i], b) {
      var j := MatchingMember(a, b, i);
      NormEqualMeansSame(a[i].value, b[j].value);
    }
  }

  lemma {:induction false} MembersAreDistinct(members: seq<Member>)
    requires DistinctKeys(members)
    ensures Shuffle.Distinct(members)
  {
  }

  lemma {:induction false} SameMeansNormEqual(u: Json, v: Json)
    requires Valid(u) && Valid(v) && SameUpToKeyOrder(u, v)
    ensures Norm(u) == Norm(v)
  {
    match (u, v)
    case (Arr(a), Arr(b)) =>
      forall i | 0 <= i < |a| ensures NormItems(a)[i] == NormItems(b)[i] {
        SameMeansNormEqual(a[i], b[i]);
      }
      assert NormItems(a) == NormItems(b);
    case (Obj(a), Obj(b)) =>
      var normA, normB := NormMembers(a), NormMembers(b);
      forall i | 0 <= i < |normA| ensures normA[i] in normB {
        assert HasTwin(a[i], b);
        var j :| 0 <= j < |b| && a[i].key == b[j].key && SameUpToKeyOrder(a[i].value, b[j].value);
        SameMeansNormEqual(a[i].value, b[j].value);
        assert normA[i] == normB[j];
      }
      MembersAreDistinct(normA);
      Shuffle.CoveredIsPermutation(normA, normB);
      KeysAreOrdered(normA);
      SortIgnoresOrder(normA, normB, KeyLe);
    case _ =>
  }

  // Two records have equal canonical text exactly when they are equal up to
  // the order of object keys.
  lemma {:induction false} CanonIsCanonical(u: Json, v: Json)
    requires Valid(u) && Valid(v)
    ensures Canon(u) == Canon(v) <==> SameUpToKeyOrder(u, v)
  {
    if Canon(u) == Canon(v) {
      ParseCanon(u);
      ParseCanon(v);
      NormEqualMeansSame(u, v);
    }
    if SameUpToKeyOrder(u, v) {
      SameMeansNormEqual(u, v);
    }
  }

  // ------------------------------------------------------- ascending keys

  // At every depth the keys of an object strictly ascend: where two of them
  // first differ the earlier one has the smaller character, or ends.
  ghost predicate KeysAscend(v: Json) {
    match v
    case Arr(items) => forall i | 0 <= i < |items| :: KeysAscend(items[i])
    case Obj(members) =>
      && (forall i, j | 0 <= i < j < |members| :: Before(members[i].key, members[j].key))
      && forall i | 0 <= i < |members| :: KeysAscend(members[i].value)
    case _ => true
  }

  lemma {:induction false} SortedKeysAscend(members: seq<Member>, i: nat, j: nat)
    requires DistinctKeys(members) && i < j < |members|
    ensures var s := Sort(members, KeyLe); Before(s[i].key, s[j].key)
  {
    var s := Sort(members, KeyLe);
    KeysAreOrdered(members);
    SortSorts(members, KeyLe);
    DistinctAfterSort(members);
    assert KeyLe(s[i], s[j]) && s[i].key != s[j].key;
    StringLeMeansBefore(s[i].key, s[j].key);
  }

  lemma {:induction false} NormAscends(v: Json)
    requires Valid(v)
    ensures KeysAscend(Norm(v))
  {
    match v
    case Arr(items) =>
      forall i | 0 <= i < |items| ensures KeysAscend(NormItems(items)[i]) {
        NormAscends(items[i]);
      }
    case Obj(members) =>
      var normal := NormMembers(members);
      var s := Sort(normal, KeyLe);
      forall i, j | 0 <= i < j < |s| ensures Before(s[i].key, s[j].key) {
        SortedKeysAscend(normal, i, j);
      }
      forall i | 0 <= i < |s| ensures KeysAscend(s[i].value) {
        var j := FromSorted(normal, i);
        NormAscends(members[j].value);
      }
    case _ =>
  }

  lemma {:induction false} AscendingMembersStay(members: seq<Member>)
    requires forall i, j | 0 <= i < j < |members| :: Before(members[i].key, members[j].key)
    ensures DistinctKeys(members) && Sort(members, KeyLe) == members
  {
    forall i, j | 0 <= i < j < |members| ensures members[i].key != members[j].key && KeyLe(members[i], members[j]) {
      StringLeMeansBefore(members[i].key, members[j].key);
    }
    KeysAreOrdered(members);
    SortSorts(members, KeyLe);
    SortedIsUnique(members, Sort(members, KeyLe), KeyLe);
  }

  lemma {:induction false} SortIsIdentity(members: seq<Member>)
    requires forall i, j | 0 <= i < j < |members| :: Before(members[i].key, members[j].key)
    requires forall i | 0 <= i < |members| :: Norm(members[i].value) == members[i].value
    ensures Norm(Obj(members)) == Obj(members)
  {
    assert NormMembers(members) == members;
    AscendingMembersStay(members);
  }

  // A value whose keys ascend is its own normal form.
  lemma {:induction false} AscendingIsNormal(v: Json)
    requires KeysAscend(v)
    ensures Norm(v) == v
  {
    match v
    case Arr(items) =>
      forall i | 0 <= i < |items| ensures NormItems(items)[i] == items[i] {
        AscendingIsNormal(items[i]);
      }
      assert NormItems(items) == items;
    case Obj(members) =>
      forall i | 0 <= i < |members| ensures Norm(members[i].value) == members[i].value {
        AscendingIsNormal(members[i].value);
      }
      SortIsIdentity(members);
    case _ =>
  }

  // The value with ascending keys that the canonical text spells.
  ghost predicate IsCanonicalForm(v: Json, u: Json) {
    Valid(u) && KeysAscend(u) && SameUpToKeyOrder(v, u)
  }

  lemma {:induction false} NormIsCanonicalForm(v: Json)
    requires Valid(v)
    ensures IsCanonicalForm(v, Norm(v))
  {
    NormIsValid(v);
    NormAscends(v);
    AscendingIsNormal(Norm(v));
    NormEqualMeansSame(v, Norm(v));
  }

  // There is one such value, so order and equality determine the whole text.
  lemma {:induction false} CanonicalFormIsUnique(v: Json, u: Json)
    requires Valid(v) && IsCanonicalForm(v, u)
    ensures u == Norm(v)
  {
    SameMeansNormEqual(v, u);
    AscendingIsNormal(u);
  }

  // -------------------------------------------------------------- the writer

  lemma {:induction false} InsertCommutes(x: Member, s: seq<Member>)
    ensures NormMembers(Insert(x, s, KeyLe)) == Insert(Member(x.key, Norm(x.value)), NormMembers(s), KeyLe)
  {
    if s != [] {
      assert NormMembers(s)[1..] == NormMembers(s[1..]);
      if KeyLe(x, s[0]) {
        assert ([x] + s)[1..] == s;
      } else {
        InsertCommutes(x, s[1..]);
        var t := Insert(x, s[1..], KeyLe);
        assert ([s[0]] + t)[1..] == t;
      }
    }
  }

  // Sorting before or after normalising the members is the same.
  lemma {:induction false} SortCommutes(s: seq<Member>)
    ensures NormMembers(Sort(s, KeyLe)) == Sort(NormMembers(s), KeyLe)
  {
    if s != [] {
      SortCommutes(s[1..]);
      assert NormMembers(s)[1..] == NormMembers(s[1..]);
      InsertCommutes(s[0], Sort(s[1..], KeyLe));
    }
  }

  function Comma(index: nat): string {
    if index == 0 then "" else ","
  }

  lemma {:induction false} Associate(a: string, b: string, c: string, d: string)
    ensures a + b + c + d == a + (b + c + d)
  {
  }

  lemma {:induction false} PrintItemsAppend(s: seq<Json>, x: Json)
    ensures PrintItems(s + [x]) == PrintItems(s) + Comma(|s|) + Print(x)
  {
    if s == [] {
      assert s + [x] == [x];
    } else {
      assert (s + [x])[1..] == s[1..] + [x];
      PrintItemsAppend(s[1..], x);
      if |s| == 1 {
        assert PrintItems(s[1..]) == "";
      }
    }
  }

  // The two steps by which the text of a list grows at its end.
  lemma {:induction false} PrintMembersCons(m: Member, rest: seq<Member>)
    ensures PrintMembers([m] + rest) == PrintMember(m) + if rest == [] then "" else "," + PrintMembers(rest)
  {
    assert ([m] + rest)[1..] == rest;
  }

  lemma {:induction false} PrintMembersAppend(s: seq<Member>, x: Member)
    ensures PrintMembers(s + [x]) == PrintMembers(s) + Comma(|s|) + PrintMember(x)
  {
    if s == [] {
      PrintMembersCons(x, []);
      assert s + [x] == [x] + [];
    } else {
      var rest := s[1..];
      assert s == [s[0]] + rest && s + [x] == [s[0]] + (rest + [x]);
      PrintMembersAppend(rest, x);
      PrintMembersCons(s[0], rest);
      PrintMembersCons(s[0], rest + [x]);
      JoinParts(PrintMember(s[0]), PrintMembers(rest), Comma(|rest|), PrintMember(x));
    }
  }

  lemma {:induction false} JoinParts(a: string, b: string, comma: string, x: string)
    ensures a + ("," + (b + comma + x)) == (a + ("," + b)) + comma + x
  {
  }

  lemma {:induction false} ItemsGrow(start: string, normal: seq<Json>, index: nat)
    requires index < |normal|
    ensures start + PrintItems(normal[..index]) + Comma(index) + Print(normal[index])
         == start + PrintItems(normal[..index + 1])
  {
    PrintItemsAppend(normal[..index], normal[index]);
    assert normal[..index + 1] == normal[..index] + [normal[index]];
    Associate(start, PrintItems(normal[..index]), Comma(index), Print(normal[index]));
  }

  lemma {:induction false} MembersGrow(start: string, normal: seq<Member>, index: nat)
    requires index < |normal|
    ensures start + PrintMembers(normal[..index]) + Comma(index) + PrintMember(normal[index])
         == start + PrintMembers(normal[..index + 1])
  {
    PrintMembersAppend(normal[..index], normal[index]);
    assert normal[..index + 1] == normal[..index] + [normal[index]];
    Associate(start, PrintMembers(normal[..index]), Comma(index), PrintMember(normal[index]));
  }

  // The growing output buffer.
  class Output {
    var text: string

    constructor ()
      ensures text == ""
    {
      text := "";
    }

    method Push(more: string)
      modifies this
      ensures text == old(text) + more
    {
      text := text + more;
    }
  }

  method WriteValue(v: Json, output: Output)
    modifies output
    ensures output.text == old(output.text) + Canon(v)
    decreases v, 2
  {
    match v
    case Null => output.Push("null");
    case Bool(b) => output.Push(if b then "true" else "false");
    case Number(text) => output.Push(text);
    case Str(s) => output.Push(Quote(s));
    case Arr(items) => WriteItems(v, items, output);
    case Obj(members) => WriteMembers(v, members, output);
  }

  method WriteItems(v: Json, items: seq<Json>, output: Output)
    requires v == Arr(items)
    modifies output
    ensures output.text == old(output.text) + Canon(v)
    decreases v, 1
  {
    ghost var normal := NormItems(items);
    output.Push("[");
    ghost var start := output.text;
    for index := 0 to |items|
      invariant output.text == start + PrintItems(normal[..index])
    {
      WriteItem(v, items, index, output);
      ItemsGrow(start, normal, index);
    }
    assert normal[..|items|] == normal;
    output.Push("]");
    Associate(old(output.text), "[", PrintItems(normal), "]");
  }

  method WriteItem(v: Json, items: seq<Json>, index: nat, output: Output)
    requires v == Arr(items) && index < |items|
    modifies output
    ensures output.text == old(output.text) + Comma(index) + Print(NormItems(items)[index])
    decreases v, 0
  {
    if index != 0 {
      output.Push(",");
    }
    WriteValue(items[index], output);
  }

  lemma {:induction false} SortedMembersAreInside(v: Json, i: nat)
    requires v.Obj? && i < |v.members|
    ensures Sort(v.members, KeyLe)[i].value < v
  {
    var j := FromSorted(v.members, i);
  }

  lemma {:induction false} MembersClose(before: string, members: seq<Member>)
    ensures before + "{" + PrintMembers(NormMembers(Sort(members, KeyLe))) + "}" == before + Canon(Obj(members))
  {
    SortCommutes(members);
    Associate(before, "{", PrintMembers(NormMembers(Sort(members, KeyLe))), "}");
  }

  method WriteMembers(v: Json, members: seq<Member>, output: Output)
    requires v == Obj(members)
    modifies output
    ensures output.text == old(output.text) + Canon(v)
    ensures Valid(v) ==> exists u :: IsCanonicalForm(v, u) && output.text == old(output.text) + Print(u)
    decreases v, 1
  {
    var sorted := Sort(members, KeyLe);
    ghost var normal := NormMembers(sorted);
    output.Push("{");
    ghost var start := output.text;
    for index := 0 to |sorted|
      invariant output.text == start + PrintMembers(normal[..index])
    {
      SortedMembersAreInside(v, index);
      WriteMember(v, sorted[index], index, output);
      MembersGrow(start, normal, index);
    }
    assert normal[..|sorted|] == normal;
    output.Push("}");
    MembersClose(old(output.text), members);
    if Valid(v) {
      NormIsCanonicalForm(v);
    }
  }

  method WriteMember(v: Json, m: Member, index: nat, output: Output)
    requires m.value < v
    modifies output
    ensures output.text == old(output.text) + Comma(index) + PrintMember(Member(m.key, Norm(m.value)))
    decreases v, 0
  {
    if index != 0 {
      output.Push(",");
    }
    ghost var start := output.text;
    output.Push(Quote(m.key));
    output.Push(":");
    WriteValue(m.value, output);
    Associate(start, Quote(m.key), ":", Canon(m.value));
  }

  // Whatever order a record's members arrive in, the text that is hashed
  // parses, with nothing left over, to that record with ascending keys, so a
  // reader can recompute the digest's input.
  method CanonicalText(v: Json) returns (text: string)
    ensures text == Canon(v)
    ensures Valid(v) ==>
              var read := ParseValue(text);
              read.Ok? && read.rest == "" && IsCanonicalForm(v, read.value) && text == Print(read.value)
  {
    var output := new Output();
    WriteValue(v, output);
    text := output.text;
    if Valid(v) {
      ParseCanon(v);
      NormIsCanonicalForm(v);
    }
  }
}
