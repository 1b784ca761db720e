// Small functions on numbers and text that several of the models share.

module Basics {
  import opened Wrappers

  const U64_LIMIT: nat := 0x1_0000_0000_0000_0000

  function Min(x: nat, y: nat): nat {
    if x < y then x else y
  }

  // ------------------------------------------------------------ finite sets

  function Range(lo: int, hi: int): (r: set<int>)
    ensures forall d :: d in r <==> lo <= d < hi
    ensures |r| == if lo < hi then hi - lo else 0
    decreases hi - lo
  {
    if lo < hi then Range(lo, hi - 1) + {hi - 1} else {}
  }

  lemma {:induction false} SubsetSize(s: set<int>, t: set<int>)
    requires s <= t
    ensures |s| <= |t|
  {
    assert t == s + (t - s);
  }

  // ------------------------------------------------------------ selections

  function Concat<T>(parts: seq<seq<T>>): seq<T> {
    if parts == [] then [] else Concat(parts[..|parts| - 1]) + parts[|parts| - 1]
  }

  function Filter<T>(s: seq<T>, keep: T -> bool): seq<T> {
    if s == [] then []
    else
      var last := s[|s| - 1];
      Filter(s[..|s| - 1], keep) + if keep(last) then [last] else []
  }

  // The part is what lies at the given positions, in order, and these are all
  // at which the list has something to keep.
  ghost predicate Selects<T>(s: seq<T>, keep: T -> bool, at: seq<nat>, part: seq<T>) {
    && |part| == |at|
    && (forall k | 0 <= k < |at| :: at[k] < |s| && part[k] == s[at[k]])
    && (forall k, l | 0 <= k < l < |at| :: at[k] < at[l])
    && forall i: nat | i < |s| :: i in at <==> keep(s[i])
  }

  lemma {:induction false} SelectsOneMore<T>(s: seq<T>, keep: T -> bool, at: seq<nat>, part: seq<T>, x: T)
    requires Selects(s, keep, at, part)
    ensures keep(x) ==> Selects(s + [x], keep, at + [|s|], part + [x])
    ensures !keep(x) ==> Selects(s + [x], keep, at, part)
  {
    assert |s| !in at;
  }

  lemma {:induction false} FilterSelects<T>(s: seq<T>, keep: T -> bool) returns (at: seq<nat>)
    ensures Selects(s, keep, at, Filter(s, keep))
  {
    if s == [] {
      at := [];
    } else {
      var n := |s| - 1;
      at := FilterSelects(s[..n], keep);
      assert s == s[..n] + [s[n]];
      SelectsOneMore(s[..n], keep, at, Filter(s[..n], keep), s[n]);
      if keep(s[n]) {
        at := at + [n];
      }
    }
  }

  lemma {:induction false} EarlierPosition<T>(s: seq<T>, keep: T -> bool, at: seq<nat>, part: seq<T>, k: nat)
    requires Selects(s, keep, at, part) && k + 1 < |at|
    ensures at[k] < |s| - 1
  {
    assert at[k] < at[k + 1];
  }

  lemma {:induction false} LastIsSelected<T>(s: seq<T>, keep: T -> bool, at: seq<nat>, part: seq<T>)
    requires Selects(s, keep, at, part) && s != [] && keep(s[|s| - 1])
    ensures at != [] && at[|at| - 1] == |s| - 1 && part[|at| - 1] == s[|s| - 1]
  {
    assert |s| - 1 in at;
    var k: nat :| k < |at| && at[k] == |s| - 1;
    if k + 1 < |at| {
      EarlierPosition(s, keep, at, part, k);
    }
  }

  // What a selection keeps of everything but the last.
  lemma {:induction false} SelectsOneLess<T>(front: seq<T>, x: T, keep: T -> bool, at: seq<nat>, part: seq<T>)
    requires Selects(front + [x], keep, at + [|front|], part + [x])
    ensures Selects(front, keep, at, part)
  {
    var s, all := front + [x], at + [|front|];
    forall k | 0 <= k < |at| ensures at[k] < |front| && part[k] == front[at[k]] {
      assert all[k] == at[k] && all[k] < all[|at|];
      assert (part + [x])[k] == s[all[k]];
    }
    forall k, l | 0 <= k < l < |at| ensures at[k] < at[l] {
      assert all[k] < all[l];
    }
    forall i: nat | i < |front| ensures i in at <==> keep(front[i]) {
      assert s[i] == front[i] && (i in all <==> i in at);
    }
  }

  lemma {:induction false} SelectsAllButLast<T>(front: seq<T>, x: T, keep: T -> bool, at: seq<nat>, part: seq<T>)
    requires Selects(front + [x], keep, at, part) && !keep(x)
    ensures Selects(front, keep, at, part)
  {
    var s := front + [x];
    assert s[|front|] == x && |front| !in at;
    forall k | 0 <= k < |at| ensures at[k] < |front| && part[k] == front[at[k]] {
      assert at[k] in at && at[k] < |s| && part[k] == s[at[k]];
    }
    forall i: nat | i < |front| ensures i in at <==> keep(front[i]) {
      assert s[i] == front[i];
    }
  }

  lemma {:induction false} HasAPosition<T>(s: seq<T>, keep: T -> bool, at: seq<nat>, part: seq<T>)
    requires Selects(s, keep, at, part) && at != []
    ensures s != []
  {
    assert at[0] < |s|;
  }

  lemma {:induction false} WithoutLast<T>(s: seq<T>, keep: T -> bool, at: seq<nat>, part: seq<T>)
    returns (at': seq<nat>, part': seq<T>)
    requires Selects(s, keep, at, part) && s != []
    ensures Selects(s[..|s| - 1], keep, at', part')
    ensures part == part' + if keep(s[|s| - 1]) then [s[|s| - 1]] else []
  {
    var front, x, m := s[..|s| - 1], s[|s| - 1], |at| - 1;
    assert s == front + [x];
    if keep(x) {
      LastIsSelected(s, keep, at, part);
      at', part' := at[..m], part[..m];
      assert at == at' + [|front|] && part == part' + [x];
      SelectsOneLess(front, x, keep, at', part');
    } else {
      at', part' := at, part;
      SelectsAllButLast(front, x, keep, at, part);
    }
  }

  // What is selected does not depend on how.
  lemma {:induction false} SelectionIsUnique<T>(s: seq<T>, keep: T -> bool, at: seq<nat>, part: seq<T>)
    requires Selects(s, keep, at, part)
    ensures part == Filter(s, keep)
  {
    if s == [] {
      if at != [] {
        HasAPosition(s, keep, at, part);
      }
    } else {
      var at', part' := WithoutLast(s, keep, at, part);
      SelectionIsUnique(s[..|s| - 1], keep, at', part');
    }
  }

  lemma {:induction false} FilterAppend<T>(s: seq<T>, x: T, keep: T -> bool)
    ensures Filter(s + [x], keep) == Filter(s, keep) + if keep(x) then [x] else []
  {
    assert (s + [x])[..|s|] == s;
  }

  // Dropping beforehand what would not be kept changes nothing.
  lemma {:induction false} FilterTwice<T(!new)>(s: seq<T>, first: T -> bool, keep: T -> bool)
    requires forall x :: keep(x) ==> first(x)
    ensures Filter(Filter(s, first), keep) == Filter(s, keep)
  {
    if s != [] {
      var n := |s| - 1;
      FilterTwice(s[..n], first, keep);
      FilterAppend(Filter(s[..n], first), s[n], keep);
      assert Filter(s[..n], first) + [] == Filter(s[..n], first);
    }
  }

  // ------------------------------------------------------------ text

  // The lower and the upper case of one ASCII letter.
  predicate CasesOf(lower: char, upper: char) {
    'a' <= lower <= 'z' && 'A' <= upper <= 'Z' && lower - 'a' == upper - 'A'
  }

  predicate EndsWith(text: string, end: string) {
    |end| <= |text| && text[|text| - |end|..] == end
  }

  lemma {:induction false} NothingLater(s: string, m: nat, c: char)
    requires m < |s| && c !in s[m + 1..]
    ensures forall k | m < k < |s| :: s[k] != c
  {
    forall k | m < k < |s| ensures s[k] != c {
      assert s[k] == s[m + 1..][k - m - 1];
    }
  }

  // A text is split in one way at the last occurrence of a character.
  lemma {:induction false} LastSplit(c: char, a: string, x: string, b: string, y: string)
    requires a + [c] + x == b + [c] + y && c !in x && c !in y
    ensures a == b && x == y
  {
    var s := a + [c] + x;
    assert s == b + [c] + y;
    assert s[|a|] == c && s[|b|] == c;
    assert s[..|a|] == a && s[..|b|] == b && s[|a| + 1..] == x && s[|b| + 1..] == y;
    NothingLater(s, |a|, c);
    NothingLater(s, |b|, c);
  }

  predicate IsDigit(c: char) {
    '0' <= c <= '9'
  }

  predicate AllDigits(s: string) {
    forall i | 0 <= i < |s| :: IsDigit(s[i])
  }

  // The value of a hex digit of either case.
  function HexValue(c: char): (v: Option<nat>)
    ensures v.Some? ==> v.value < 16
  {
    if '0' <= c <= '9' then Some((c - '0') as nat)
    else if 'a' <= c <= 'f' then Some((c - 'a') as nat + 10)
    else if 'A' <= c <= 'F' then Some((c - 'A') as nat + 10)
    else None
  }

  // The digits of both cases, each at the place of its value.
  lemma {:induction false} HexValueIsPlace(c: char, v: nat)
    ensures HexValue(c) == Some(v) <==> v < 16 && (c == "0123456789abcdef"[v] || c == "0123456789ABCDEF"[v])
  {
  }

  // ------------------------------------------------------------ decimal text

  // The value of a string of digits.
  function Number(s: string): (n: nat)
    requires AllDigits(s)
  {
    if s == [] then 0
    else
      assert IsDigit(s[|s| - 1]);
      Number(s[..|s| - 1]) * 10 + (s[|s| - 1] - '0') as nat
  }

  function Decimal(n: nat): (s: string)
    ensures |s| > 0
  {
    if n < 10 then ['0' + n as char] else Decimal(n / 10) + ['0' + (n % 10) as char]
  }

  lemma {:induction false} DecimalIsDigits(n: nat)
    ensures AllDigits(Decimal(n))
  {
    if n >= 10 {
      DecimalIsDigits(n / 10);
    }
  }

  // Decimal text is a number's digits, without a leading zero.
  lemma {:induction false} DecimalReadsBack(n: nat)
    ensures AllDigits(Decimal(n)) && Number(Decimal(n)) == n
    ensures |Decimal(n)| > 1 ==> Decimal(n)[0] != '0'
  {
    DecimalIsDigits(n);
    var s := Decimal(n);
    if n >= 10 {
      DecimalReadsBack(n / 10);
      assert s[..|s| - 1] == Decimal(n / 10);
      assert |Decimal(n / 10)| == 1 ==> Decimal(n / 10)[0] != '0' by {
        assert |Decimal(n / 10)| == 1 ==> n / 10 < 10;
      }
    } else {
      assert s[..0] == "";
    }
  }

  lemma {:induction false} DecimalInjective(m: nat, n: nat)
    requires Decimal(m) == Decimal(n)
    ensures m == n
  {
    DecimalReadsBack(m);
    DecimalReadsBack(n);
  }
}
