// Byte streams that are fed to a digest: every string is preceded by its
// length as eight little-endian bytes. Bytes are kept as characters.

module Framing {
  import opened Basics
  import opened Sorting

  type Entry = (string, string)

  function LittleEndian(n: nat, width: nat): (s: string)
    ensures |s| == width
  {
    if width == 0 then "" else [(n % 256) as char] + LittleEndian(n / 256, width - 1)
  }

  function Power256(width: nat): nat {
    if width == 0 then 1 else 256 * Power256(width - 1)
  }

  // The value of n bytes, of which byte k counts 256^k.
  function BytesValue(s: string, n: nat): nat
    requires n <= |s|
  {
    if n == 0 then 0 else BytesValue(s, n - 1) + s[n - 1] as nat * Power256(n - 1)
  }

  lemma {:induction false} BytesValueOfTail(s: string, n: nat)
    requires 0 < n <= |s|
    ensures BytesValue(s, n) == s[0] as nat + 256 * BytesValue(s[1..], n - 1)
  {
    if n > 1 {
      BytesValueOfTail(s, n - 1);
      assert s[1..][n - 2] == s[n - 1];
      Scale(s[n - 1] as nat, Power256(n - 2));
    } else {
      assert Power256(0) == 1 && BytesValue(s, 0) == 0;
    }
  }

  lemma {:induction false} Scale(x: nat, y: nat)
    ensures x * (256 * y) == 256 * (x * y)
  {
  }

  lemma {:induction false} LittleEndianReadsBack(n: nat, width: nat)
    requires n < Power256(width)
    ensures BytesValue(LittleEndian(n, width), width) == n
    ensures forall k | 0 <= k < width :: LittleEndian(n, width)[k] as nat < 256
  {
    if width > 0 {
      var s := LittleEndian(n, width);
      assert s[1..] == LittleEndian(n / 256, width - 1);
      LittleEndianReadsBack(n / 256, width - 1);
      BytesValueOfTail(s, width);
      forall k | 0 < k < width ensures s[k] as nat < 256 {
        assert s[k] == s[1..][k - 1];
      }
    }
  }

  // A 64-bit length is eight bytes, the least significant first.
  lemma {:induction false} LengthReadsBack(n: nat)
    requires n < U64_LIMIT
    ensures BytesValue(LittleEndian(n, 8), 8) == n
  {
    assert Power256(2) == 0x1_0000;
    assert Power256(4) == 0x1_0000_0000;
    assert Power256(6) == 0x1_0000_0000_0000;
    assert Power256(8) == U64_LIMIT;
    LittleEndianReadsBack(n, 8);
  }

  lemma {:induction false} EightBytesAreEnough(m: nat, n: nat)
    requires m < U64_LIMIT && n < U64_LIMIT && LittleEndian(m, 8) == LittleEndian(n, 8)
    ensures m == n
  {
    LengthReadsBack(m);
    LengthReadsBack(n);
  }

  function Framed(s: string): string {
    LittleEndian(|s|, 8) + s
  }

  function Stream(entries: seq<Entry>): string {
    if entries == [] then "" else Framed(entries[0].0) + Framed(entries[0].1) + Stream(entries[1..])
  }

  // A frame can be told from whatever follows it.
  lemma {:induction false} FrameIsSelfDelimiting(s: string, t: string, rest: string, rest': string)
    requires |s| < U64_LIMIT && |t| < U64_LIMIT && Framed(s) + rest == Framed(t) + rest'
    ensures s == t && rest == rest'
  {
    var all := Framed(s) + rest;
    assert all[..8] == LittleEndian(|s|, 8) && all[..8] == LittleEndian(|t|, 8);
    EightBytesAreEnough(|s|, |t|);
    assert all[8..8 + |s|] == s && all[8..8 + |t|] == t;
    assert all[8 + |s|..] == rest && all[8 + |t|..] == rest';
  }

  predicate Fits(e: Entry) {
    |e.0| < U64_LIMIT && |e.1| < U64_LIMIT
  }

  lemma {:induction false} Associate(a: string, b: string, c: string)
    ensures (a + b) + c == a + (b + c)
  {
  }

  // Different lists of entries are never fed to the digest as one stream.
  lemma {:induction false} StreamIsInjective(a: seq<Entry>, b: seq<Entry>)
    requires (forall e | e in a :: Fits(e)) && (forall e | e in b :: Fits(e))
    requires Stream(a) == Stream(b)
    ensures a == b
  {
    if a == [] || b == [] {
      assert a != [] ==> |Stream(a)| >= 16;
      assert b != [] ==> |Stream(b)| >= 16;
    } else {
      assert a[0] in a && b[0] in b && Fits(a[0]) && Fits(b[0]);
      Associate(Framed(a[0].0), Framed(a[0].1), Stream(a[1..]));
      Associate(Framed(b[0].0), Framed(b[0].1), Stream(b[1..]));
      FrameIsSelfDelimiting(a[0].0, b[0].0, Framed(a[0].1) + Stream(a[1..]), Framed(b[0].1) + Stream(b[1..]));
      FrameIsSelfDelimiting(a[0].1, b[0].1, Stream(a[1..]), Stream(b[1..]));
      StreamIsInjective(a[1..], b[1..]);
      assert a == [a[0]] + a[1..] && b == [b[0]] + b[1..];
    }
  }

  lemma {:induction false} StreamAppend(a: seq<Entry>, e: Entry)
    ensures Stream(a + [e]) == Stream(a) + Framed(e.0) + Framed(e.1)
  {
    if a == [] {
      assert [e][1..] == [];
      assert Stream([e]) == Framed(e.0) + Framed(e.1) + "";
    } else {
      StreamAppend(a[1..], e);
      assert (a + [e])[1..] == a[1..] + [e];
      var head := Framed(a[0].0) + Framed(a[0].1);
      Associate(head, Stream(a[1..]) + Framed(e.0), Framed(e.1));
      Associate(head, Stream(a[1..]), Framed(e.0));
    }
  }

  // Feeds the entries piece by piece, as the digest receives them.
  method Feed(entries: seq<Entry>) returns (stream: string)
    ensures stream == Stream(entries)
  {
    stream := "";
    for n := 0 to |entries|
      invariant stream == Stream(entries[..n])
    {
      assert entries[..n + 1] == entries[..n] + [entries[n]];
      StreamAppend(entries[..n], entries[n]);
      var (name, bytes) := entries[n];
      stream := stream + LittleEndian(|name|, 8);
      stream := stream + name;
      stream := stream + LittleEndian(|bytes|, 8);
      stream := stream + bytes;
      Pieces(Stream(entries[..n]), name, bytes);
    }
    assert entries[..|entries|] == entries;
  }

  lemma {:induction false} Pieces(before: string, name: string, bytes: string)
    ensures before + LittleEndian(|name|, 8) + name + LittleEndian(|bytes|, 8) + bytes ==
            before + Framed(name) + Framed(bytes)
  {
    Associate(before, LittleEndian(|name|, 8), name);
    Associate(before + Framed(name), LittleEndian(|bytes|, 8), bytes);
  }

  // ------------------------------------------------------------ build overrides

  function Upper(s: string): (r: string)
    ensures |r| == |s|
  {
    if s == "" then "" else [if 'a' <= s[0] <= 'z' then s[0] - 'a' + 'A' else s[0]] + Upper(s[1..])
  }

  // Each lower-case ASCII letter has become its upper case, and nothing else
  // has changed.
  ghost predicate IsUpperOf(s: string, t: string) {
    && |s| == |t|
    && forall i | 0 <= i < |s| :: CasesOf(s[i], t[i]) || (s[i] == t[i] && !('a' <= s[i] <= 'z'))
  }

  lemma {:induction false} UpperIsUpperOf(s: string, t: string)
    ensures IsUpperOf(s, t) <==> t == Upper(s)
  {
    UpperChars(s);
    if IsUpperOf(s, t) {
      forall i | 0 <= i < |s| ensures t[i] == Upper(s)[i] {
      }
    }
  }

  lemma {:induction false} UpperChars(s: string)
    ensures IsUpperOf(s, Upper(s))
  {
    if s != "" {
      UpperChars(s[1..]);
      forall i | 0 < i < |s|
        ensures CasesOf(s[i], Upper(s)[i]) || (s[i] == Upper(s)[i] && !('a' <= s[i] <= 'z'))
      {
        assert s[i] == s[1..][i - 1] && Upper(s)[i] == Upper(s[1..])[i - 1];
      }
    }
  }

  predicate IsRejected(name: string) {
    || name == "RUSTFLAGS" || name == "CARGO_ENCODED_RUSTFLAGS" || name == "CARGO_BUILD_RUSTFLAGS"
    || name == "RUSTC" || name == "RUSTC_WRAPPER" || name == "RUSTC_WORKSPACE_WRAPPER"
    || name == "CARGO_BUILD_TARGET" || name == "CARGO_INCREMENTAL"
    || "CARGO_PROFILE_RELEASE_" <= name
    || ("CARGO_TARGET_" <= name && (EndsWith(name, "_RUSTFLAGS") || EndsWith(name, "_LINKER")))
  }

  // A rejected variable under its upper-case name; nothing for any other.
  function Override(e: Entry): seq<Entry> {
    if IsRejected(Upper(e.0)) then [(Upper(e.0), e.1)] else []
  }

  function FlatMap(f: Entry -> seq<Entry>, s: seq<Entry>): seq<Entry> {
    if s == [] then [] else f(s[0]) + FlatMap(f, s[1..])
  }

  function Overrides(env: seq<Entry>): seq<Entry> {
    FlatMap(Override, env)
  }

  lemma {:induction false} FlatMapConcat(f: Entry -> seq<Entry>, a: seq<Entry>, b: seq<Entry>)
    ensures FlatMap(f, a + b) == FlatMap(f, a) + FlatMap(f, b)
  {
    if a == [] {
      assert a + b == b;
    } else {
      FlatMapConcat(f, a[1..], b);
      assert (a + b)[1..] == a[1..] + b;
    }
  }

  predicate Rejects(e: Entry) {
    IsRejected(Upper(e.0))
  }

  lemma {:induction false} OverridesGrow(env: seq<Entry>, e: Entry)
    ensures Overrides(env + [e]) == Overrides(env) + Override(e)
  {
    FlatMapConcat(Override, env, [e]);
    assert FlatMap(Override, [e]) == Override(e) + FlatMap(Override, []) by {
      assert [e][1..] == [];
    }
  }

  // The override is the variable's value under its upper-case name.
  ghost predicate OverrideOf(e: Entry, o: Entry) {
    IsUpperOf(e.0, o.0) && o.1 == e.1
  }

  lemma {:induction false} OverridesOfFiltered(env: seq<Entry>)
    ensures |Overrides(env)| == |Filter(env, Rejects)|
    ensures forall k | 0 <= k < |Overrides(env)| :: OverrideOf(Filter(env, Rejects)[k], Overrides(env)[k])
  {
    if env != [] {
      var front, last := env[..|env| - 1], env[|env| - 1];
      OverridesOfFiltered(front);
      OverridesGrow(front, last);
      UpperChars(last.0);
      assert env == front + [last];
    }
  }

  // The overrides are taken from the rejected variables, in order.
  lemma {:induction false} OverridesAreSelected(env: seq<Entry>) returns (at: seq<nat>)
    ensures |at| == |Overrides(env)|
    ensures forall k | 0 <= k < |at| :: at[k] < |env| && OverrideOf(env[at[k]], Overrides(env)[k])
    ensures forall k, l | 0 <= k < l < |at| :: at[k] < at[l]
    ensures forall i: nat, name | i < |env| && IsUpperOf(env[i].0, name) :: i in at <==> IsRejected(name)
  {
    at := FilterSelects(env, Rejects);
    OverridesOfFiltered(env);
    forall i: nat, name | i < |env| && IsUpperOf(env[i].0, name) ensures i in at <==> IsRejected(name) {
      UpperIsUpperOf(env[i].0, name);
    }
  }

  lemma {:induction false} FlatMapAt(f: Entry -> seq<Entry>, b: seq<Entry>, j: nat)
    requires j < |b|
    ensures multiset(FlatMap(f, b)) == multiset(f(b[j])) + multiset(FlatMap(f, b[..j] + b[j + 1..]))
  {
    assert b == b[..j] + b[j..] && b[j..][1..] == b[j + 1..];
    FlatMapConcat(f, b[..j], b[j..]);
    FlatMapConcat(f, b[..j], b[j + 1..]);
  }

  lemma {:induction false} RemoveOne(b: seq<Entry>, j: nat)
    requires j < |b|
    ensures multiset(b[..j] + b[j + 1..]) == multiset(b) - multiset{b[j]}
  {
    assert b == b[..j] + [b[j]] + b[j + 1..];
  }

  // The enumeration order of the environment does not matter.
  lemma {:induction false} FlatMapIgnoresOrder(f: Entry -> seq<Entry>, a: seq<Entry>, b: seq<Entry>)
    requires multiset(a) == multiset(b)
    ensures multiset(FlatMap(f, a)) == multiset(FlatMap(f, b))
  {
    if a == [] {
      assert |multiset(b)| == 0;
    } else {
      assert a[0] in multiset(b);
      var j :| 0 <= j < |b| && b[j] == a[0];
      var others := b[..j] + b[j + 1..];
      RemoveOne(b, j);
      assert a == [a[0]] + a[1..];
      FlatMapIgnoresOrder(f, a[1..], others);
      FlatMapAt(f, b, j);
    }
  }

  datatype Snapshot = Snapshot(stream: string, presentCount: nat)

  function SortedOverrides(env: seq<Entry>): seq<Entry> {
    Sort(Overrides(env), PairLe)
  }

  // In order of names, and of values where names are equal.
  ghost predicate EntriesAscend(entries: seq<Entry>) {
    forall i, j | 0 <= i < j < |entries| ::
      || entries[i] == entries[j]
      || Before(entries[i].0, entries[j].0)
      || (entries[i].0 == entries[j].0 && Before(entries[i].1, entries[j].1))
  }

  lemma {:induction false} SortedOverridesAscend(env: seq<Entry>)
    ensures EntriesAscend(SortedOverrides(env)) && multiset(SortedOverrides(env)) == multiset(Overrides(env))
  {
    var entries := SortedOverrides(env);
    PairsAreOrdered(Overrides(env));
    SortSorts(Overrides(env), PairLe);
    forall i, j | 0 <= i < j < |entries|
      ensures || entries[i] == entries[j]
              || Before(entries[i].0, entries[j].0)
              || (entries[i].0 == entries[j].0 && Before(entries[i].1, entries[j].1))
    {
      PairLeMeansBefore(entries[i], entries[j]);
    }
  }

  // The stream of the overrides in ascending order, and their number.
  method OverrideSnapshot(env: seq<Entry>) returns (s: Snapshot)
    ensures s == Snapshot(Stream(SortedOverrides(env)), |Overrides(env)|)
    ensures exists entries :: EntriesAscend(entries) && multiset(entries) == multiset(Overrides(env))
                              && s == Snapshot(Stream(entries), |entries|)
  {
    SortedOverridesAscend(env);
    var entries := SortedOverrides(env);
    var stream := Feed(entries);
    s := Snapshot(stream, |entries|);
  }

  // Two environments give the same stream exactly when they set the same
  // rejected overrides, counted with repetition and whatever their order.
  lemma {:induction false} SnapshotIdentifiesOverrides(a: seq<Entry>, b: seq<Entry>)
    requires (forall e | e in Overrides(a) :: Fits(e)) && (forall e | e in Overrides(b) :: Fits(e))
    ensures Stream(SortedOverrides(a)) == Stream(SortedOverrides(b)) <==>
            multiset(Overrides(a)) == multiset(Overrides(b))
    ensures multiset(a) == multiset(b) ==> Stream(SortedOverrides(a)) == Stream(SortedOverrides(b))
  {
    PairsAreOrdered(Overrides(a));
    if multiset(Overrides(a)) == multiset(Overrides(b)) {
      SortIgnoresOrder(Overrides(a), Overrides(b), PairLe);
    }
    if Stream(SortedOverrides(a)) == Stream(SortedOverrides(b)) {
      SortedFits(Overrides(a));
      SortedFits(Overrides(b));
      StreamIsInjective(SortedOverrides(a), SortedOverrides(b));
    }
    if multiset(a) == multiset(b) {
      FlatMapIgnoresOrder(Override, a, b);
    }
  }

  lemma {:induction false} SortedFits(entries: seq<Entry>)
    requires forall e | e in entries :: Fits(e)
    ensures forall e | e in Sort(entries, PairLe) :: Fits(e)
  {
    forall e | e in Sort(entries, PairLe) ensures Fits(e) {
      assert e in multiset(Sort(entries, PairLe));
    }
  }

  lemma {:induction false} NoOverrides(env: seq<Entry>)
    ensures Overrides(env) == [] <==> forall e | e in env :: !IsRejected(Upper(e.0))
  {
    if env != [] {
      NoOverrides(env[1..]);
      assert env == [env[0]] + env[1..];
    }
  }

  // The stream is empty, and nothing is counted, exactly when no rejected
  // override is set.
  lemma {:induction false} EmptyMeansNoOverride(env: seq<Entry>)
    ensures Stream(SortedOverrides(env)) == "" <==>
            forall e, name | e in env && IsUpperOf(e.0, name) :: !IsRejected(name)
    ensures |Overrides(env)| == 0 <==>
            forall e, name | e in env && IsUpperOf(e.0, name) :: !IsRejected(name)
  {
    NoOverrides(env);
    forall e, name | e in env && IsUpperOf(e.0, name) ensures name == Upper(e.0) {
      UpperIsUpperOf(e.0, name);
    }
    forall e | e in env ensures IsUpperOf(e.0, Upper(e.0)) {
      UpperChars(e.0);
    }
    assert SortedOverrides(env) != [] ==> |Stream(SortedOverrides(env))| >= 16;
  }
}
