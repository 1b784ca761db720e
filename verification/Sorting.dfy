// Sorting as a mathematical function, and the byte-wise order of strings.

module Sorting {
  ghost predicate TotalPreorder<T(!new)>(le: (T, T) -> bool) {
    && (forall x, y :: le(x, y) || le(y, x))
    && forall x, y, z :: le(x, y) && le(y, z) ==> le(x, z)
  }

  ghost predicate SortedBy<T>(s: seq<T>, le: (T, T) -> bool) {
    forall i, j | 0 <= i < j < |s| :: le(s[i], s[j])
  }

  // Elements that tie are equal, so their relative order cannot be observed.
  ghost predicate TiesAreEqual<T>(s: seq<T>, le: (T, T) -> bool) {
    forall i, j | 0 <= i < |s| && 0 <= j < |s| && le(s[i], s[j]) && le(s[j], s[i]) :: s[i] == s[j]
  }

  function Insert<T>(x: T, s: seq<T>, le: (T, T) -> bool): (r: seq<T>)
    ensures |r| == |s| + 1
    ensures multiset(r) == multiset{x} + multiset(s)
  {
    if s == [] then [x]
    else if le(x, s[0]) then [x] + s
    else
      assert s == [s[0]] + s[1..];
      [s[0]] + Insert(x, s[1..], le)
  }

  function Sort<T>(s: seq<T>, le: (T, T) -> bool): (r: seq<T>)
    ensures |r| == |s|
    ensures multiset(r) == multiset(s)
  {
    if s == [] then []
    else
      assert s == [s[0]] + s[1..];
      Insert(s[0], Sort(s[1..], le), le)
  }

  lemma {:induction false} InsertKeepsSorted<T(!new)>(x: T, s: seq<T>, le: (T, T) -> bool)
    requires TotalPreorder(le) && SortedBy(s, le)
    ensures SortedBy(Insert(x, s, le), le)
  {
    if s != [] && !le(x, s[0]) {
      InsertKeepsSorted(x, s[1..], le);
      var t := Insert(x, s[1..], le);
      assert s == [s[0]] + s[1..];
      forall i | 0 <= i < |t| ensures le(s[0], t[i]) {
        assert t[i] in multiset(t);
        if t[i] != x {
          assert t[i] in multiset(s[1..]);
          var j :| 0 <= j < |s[1..]| && s[1..][j] == t[i];
          assert s[j + 1] == t[i];
        }
      }
    }
  }

  lemma {:induction false} SortSorts<T(!new)>(s: seq<T>, le: (T, T) -> bool)
    requires TotalPreorder(le)
    ensures SortedBy(Sort(s, le), le)
  {
    if s != [] {
      SortSorts(s[1..], le);
      InsertKeepsSorted(s[0], Sort(s[1..], le), le);
    }
  }

  lemma {:induction false} HeadsAgree<T(!new)>(s: seq<T>, t: seq<T>, le: (T, T) -> bool)
    requires TotalPreorder(le) && SortedBy(s, le) && SortedBy(t, le) && s != []
    requires multiset(s) == multiset(t) && TiesAreEqual(s, le)
    ensures t != [] && s[0] == t[0]
  {
    assert |multiset(s)| == |s| && |multiset(t)| == |t|;
    assert s[0] in multiset(t) && t[0] in multiset(s);
    var i :| 0 <= i < |t| && t[i] == s[0];
    var j :| 0 <= j < |s| && s[j] == t[0];
    assert le(s[0], s[0]) && le(t[0], t[0]);
    assert le(t[0], t[i]) && le(s[0], s[j]);
  }

  lemma {:induction false} Tail<T>(s: seq<T>, le: (T, T) -> bool)
    requires s != []
    ensures s == [s[0]] + s[1..] && multiset(s[1..]) == multiset(s) - multiset{s[0]}
    ensures SortedBy(s, le) ==> SortedBy(s[1..], le)
    ensures TiesAreEqual(s, le) ==> TiesAreEqual(s[1..], le)
  {
    assert s == [s[0]] + s[1..];
  }

  // Two sorted arrangements of one multiset without observable ties coincide.
  lemma {:induction false} SortedIsUnique<T(!new)>(s: seq<T>, t: seq<T>, le: (T, T) -> bool)
    requires TotalPreorder(le) && SortedBy(s, le) && SortedBy(t, le)
    requires multiset(s) == multiset(t) && TiesAreEqual(s, le)
    ensures s == t
  {
    if s == [] {
      assert |multiset(t)| == 0;
    } else {
      HeadsAgree(s, t, le);
      Tail(s, le);
      Tail(t, le);
      SortedIsUnique(s[1..], t[1..], le);
    }
  }

  lemma {:induction false} SortIgnoresOrder<T(!new)>(s: seq<T>, t: seq<T>, le: (T, T) -> bool)
    requires TotalPreorder(le) && TiesAreEqual(s, le) && multiset(s) == multiset(t)
    ensures Sort(s, le) == Sort(t, le)
  {
    SortSorts(s, le);
    SortSorts(t, le);
    var r := Sort(s, le);
    forall i, j | 0 <= i < |r| && 0 <= j < |r| && le(r[i], r[j]) && le(r[j], r[i]) ensures r[i] == r[j] {
      assert r[i] in multiset(s) && r[j] in multiset(s);
      var i' :| 0 <= i' < |s| && s[i'] == r[i];
      var j' :| 0 <= j' < |s| && s[j'] == r[j];
    }
    SortedIsUnique(r, Sort(t, le), le);
  }

  // ------------------------------------------------------ the order of strings

  predicate StringLe(a: string, b: string) {
    a == [] || (b != [] && (a[0] < b[0] || (a[0] == b[0] && StringLe(a[1..], b[1..]))))
  }

  // The strings first differ at k, where a has the smaller character or ends.
  ghost predicate DiffersAt(a: string, b: string, k: nat) {
    k <= |a| && k < |b| && a[..k] == b[..k] && (k == |a| || a[k] < b[k])
  }

  // a comes strictly before b in lexicographic order.
  ghost predicate Before(a: string, b: string) {
    exists k: nat :: DiffersAt(a, b, k)
  }

  lemma {:induction false} DiffersLater(a: string, b: string, k: nat)
    requires a != [] && b != [] && a[0] == b[0]
    ensures DiffersAt(a, b, k + 1) <==> DiffersAt(a[1..], b[1..], k)
    ensures !DiffersAt(a, b, 0)
  {
    if k < |b| - 1 && k <= |a| - 1 {
      assert a[..k + 1] == [a[0]] + a[1..][..k] && b[..k + 1] == [b[0]] + b[1..][..k];
      assert a[1..][..k] == a[..k + 1][1..] && b[1..][..k] == b[..k + 1][1..];
    }
  }

  lemma {:induction false} BeforeLater(a: string, b: string)
    requires a != [] && b != [] && a[0] == b[0]
    ensures Before(a, b) <==> Before(a[1..], b[1..])
  {
    if Before(a, b) {
      var k: nat :| DiffersAt(a, b, k);
      DiffersLater(a, b, 0);
      DiffersLater(a, b, k - 1);
    }
    if Before(a[1..], b[1..]) {
      var k: nat :| DiffersAt(a[1..], b[1..], k);
      DiffersLater(a, b, k);
    }
  }

  lemma {:induction false} AgreesAtFirst(a: string, b: string, k: nat)
    requires DiffersAt(a, b, k) && k > 0
    ensures a != [] && b != [] && a[0] == b[0]
  {
    assert a[..k][0] == a[0] && b[..k][0] == b[0];
  }

  // The order of strings is the lexicographic one.
  lemma {:induction false} StringLeMeansBefore(a: string, b: string)
    ensures StringLe(a, b) <==> a == b || Before(a, b)
    ensures Before(a, b) ==> a != b
  {
    if a != [] && b != [] && a[0] == b[0] {
      StringLeMeansBefore(a[1..], b[1..]);
      BeforeLater(a, b);
      assert a == [a[0]] + a[1..] && b == [b[0]] + b[1..];
    } else {
      if Before(a, b) {
        var k: nat :| DiffersAt(a, b, k);
        if k > 0 {
          AgreesAtFirst(a, b, k);
        }
      }
      assert b != [] && (a == [] || a[0] < b[0]) ==> DiffersAt(a, b, 0);
    }
  }

  lemma {:induction false} StringLeTotal(a: string, b: string)
    ensures StringLe(a, b) || StringLe(b, a)
    ensures StringLe(a, b) && StringLe(b, a) ==> a == b
  {
    if a != [] && b != [] {
      StringLeTotal(a[1..], b[1..]);
      assert a == [a[0]] + a[1..] && b == [b[0]] + b[1..];
    }
  }

  lemma {:induction false} StringLeTransitive(a: string, b: string, c: string)
    requires StringLe(a, b) && StringLe(b, c)
    ensures StringLe(a, c)
  {
    if a != [] && b != [] && c != [] && a[0] == b[0] == c[0] {
      StringLeTransitive(a[1..], b[1..], c[1..]);
    }
  }

  lemma {:induction false} StringsAreOrdered(s: seq<string>)
    ensures TotalPreorder(StringLe) && TiesAreEqual(s, StringLe)
  {
    forall a, b ensures StringLe(a, b) || StringLe(b, a) ensures StringLe(a, b) && StringLe(b, a) ==> a == b {
      StringLeTotal(a, b);
    }
    forall a, b, c | StringLe(a, b) && StringLe(b, c) ensures StringLe(a, c) {
      StringLeTransitive(a, b, c);
    }
  }

  function SortStrings(s: seq<string>): (r: seq<string>)
    ensures multiset(r) == multiset(s)
  {
    Sort(s, StringLe)
  }

  // Comparing sorted copies compares the multisets.
  lemma {:induction false} SortedCopiesAgree(s: seq<string>, t: seq<string>)
    ensures SortStrings(s) == SortStrings(t) <==> multiset(s) == multiset(t)
  {
    StringsAreOrdered(s);
    if multiset(s) == multiset(t) {
      SortIgnoresOrder(s, t, StringLe);
    }
  }

  // Pairs ordered by their first component, then by their second.
  predicate PairLe(a: (string, string), b: (string, string)) {
    StringLe(a.0, b.0) && (a.0 == b.0 ==> StringLe(a.1, b.1))
  }

  lemma {:induction false} PairLeMeansBefore(a: (string, string), b: (string, string))
    ensures PairLe(a, b) <==> a == b || Before(a.0, b.0) || (a.0 == b.0 && Before(a.1, b.1))
  {
    StringLeMeansBefore(a.0, b.0);
    StringLeMeansBefore(a.1, b.1);
  }

  lemma {:induction false} PairsAreOrdered(s: seq<(string, string)>)
    ensures TotalPreorder(PairLe) && TiesAreEqual(s, PairLe)
  {
    StringsAreOrdered([]);
    forall a: (string, string), b: (string, string) ensures PairLe(a, b) && PairLe(b, a) ==> a == b {
      StringLeTotal(a.0, b.0);
      StringLeTotal(a.1, b.1);
    }
    forall a: (string, string), b: (string, string), c: (string, string) | PairLe(a, b) && PairLe(b, c)
      ensures PairLe(a, c)
    {
      StringLeTotal(a.0, b.0);
      StringLeTotal(b.0, c.0);
    }
  }
}
