// The verbose version text of the Rust compiler, as bytes: its grammar, and a
// parser that accepts exactly that grammar.

module RustcVerbose {
  import opened Wrappers
  import opened Basics
  import opened Calendar

  datatype Fields = Fields(hash: string, date: string, host: string, release: string, llvm: string)

  const MAXIMUM_SIZE := 65536
  const HASH_KEY := "commit-hash:"
  const DATE_KEY := "commit-date:"
  const HOST_KEY := "host:"
  const RELEASE_KEY := "release:"
  const LLVM_KEY := "LLVM version:"
  const KEYS := [HASH_KEY, DATE_KEY, HOST_KEY, RELEASE_KEY, LLVM_KEY]
  const LEADING := "rustc "
  const LF := "\n"
  const CRLF := "\r\n"

  // ------------------------------------------------------------ lines

  function Join(lines: seq<string>, end: string): string {
    if lines == [] then "" else lines[0] + end + Join(lines[1..], end)
  }

  // Splits at a terminator; an empty remainder after the last is no line.
  function Split(text: string, end: string): seq<string>
    requires end != ""
    decreases |text|
  {
    if text == "" then []
    else if end <= text then [""] + Split(text[|end|..], end)
    else
      var rest := Split(text[1..], end);
      if rest == [] then [text] else [[text[0]] + rest[0]] + rest[1..]
  }

  predicate IsLine(line: string) {
    line != "" && Unbroken(line)
  }

  predicate Unbroken(line: string) {
    '\n' !in line && '\r' !in line
  }

  predicate IsEnding(end: string) {
    end == LF || end == CRLF
  }

  predicate AllUnbroken(lines: seq<string>) {
    forall line | line in lines :: Unbroken(line)
  }

  lemma {:induction false} SuffixOfTail(text: string, end: string, n: nat)
    requires IsEnding(end) && EndsWith(text, end) && n == if end <= text then |end| else 1
    ensures n <= |text| && (text[n..] == "" || EndsWith(text[n..], end))
  {
    CrlfSuffix(text);
    var k := |text| - |end|;
    if n <= k {
      assert text[n..][k - n..] == text[k..];
    }
  }

  // A text that starts and ends with CRLF is just that or longer than three.
  lemma {:induction false} CrlfSuffix(text: string)
    ensures CRLF <= text && EndsWith(text, CRLF) ==> |text| == 2 || |text| > 3
  {
    assert CRLF <= text ==> text[1] == CRLF[1];
    assert EndsWith(text, CRLF) ==> text[|text| - 2] == CRLF[0];
  }

  lemma {:induction false} Regroup(a: string, b: string, c: string, d: string)
    ensures a + (b + c + d) == (a + b) + c + d
  {
  }

  // Splitting loses nothing.
  lemma {:induction false} JoinSplit(text: string, end: string)
    requires IsEnding(end) && (text == "" || EndsWith(text, end))
    ensures Join(Split(text, end), end) == text
    ensures text != "" ==> Split(text, end) != []
    decreases |text|
  {
    if text != "" {
      var n := if end <= text then |end| else 1;
      SuffixOfTail(text, end, n);
      JoinSplit(text[n..], end);
      if end <= text {
        JoinAfterEnd(text, end);
      } else {
        JoinAfterChar(text, end);
      }
    }
  }

  lemma {:induction false} JoinCons(line: string, rest: seq<string>, end: string)
    ensures Join([line] + rest, end) == line + end + Join(rest, end)
  {
    assert ([line] + rest)[1..] == rest;
  }

  // A longer first line lengthens the joined text in front.
  lemma {:induction false} JoinLonger(c: char, rest: seq<string>, end: string)
    requires rest != []
    ensures Join([[c] + rest[0]] + rest[1..], end) == [c] + Join(rest, end)
  {
    JoinCons([c] + rest[0], rest[1..], end);
    Regroup([c], rest[0], end, Join(rest[1..], end));
  }

  lemma {:induction false} JoinAfterEnd(text: string, end: string)
    requires IsEnding(end) && end <= text && Join(Split(text[|end|..], end), end) == text[|end|..]
    ensures Join(Split(text, end), end) == text
  {
    var lines := Split(text[|end|..], end);
    JoinCons("", lines, end);
    assert Split(text, end) == [""] + lines;
    assert "" + end == end && end + text[|end|..] == text;
  }

  lemma {:induction false} JoinAfterChar(text: string, end: string)
    requires IsEnding(end) && text != "" && !(end <= text)
    requires Join(Split(text[1..], end), end) == text[1..] && Split(text[1..], end) != []
    ensures Join(Split(text, end), end) == text
  {
    assert text == [text[0]] + text[1..];
    JoinLonger(text[0], Split(text[1..], end), end);
  }

  // Terminators separate lines unambiguously.
  lemma {:induction false} SplitLine(line: string, end: string, tail: string)
    requires IsEnding(end) && Unbroken(line)
    ensures Split(line + end + tail, end) == [line] + Split(tail, end)
  {
    var text := line + end + tail;
    if line == "" {
      assert text[|end|..] == tail;
    } else {
      assert text[0] == line[0] && line[0] in line;
      assert text[1..] == line[1..] + end + tail;
      SplitLine(line[1..], end, tail);
      assert [line[0]] + line[1..] == line;
    }
  }

  lemma {:induction false} SplitJoin(lines: seq<string>, end: string)
    requires IsEnding(end) && forall line | line in lines :: IsLine(line)
    ensures Split(Join(lines, end), end) == lines
  {
    if lines != [] {
      SplitJoin(lines[1..], end);
      assert lines[0] in lines;
      SplitLine(lines[0], end, Join(lines[1..], end));
      assert lines == [lines[0]] + lines[1..];
    }
  }

  // ------------------------------------------------------------ uniform endings

  ghost predicate UniformLf(raw: string) {
    '\r' !in raw
  }

  predicate CrlfAt(raw: string, i: nat)
    requires i < |raw|
  {
    && (raw[i] == '\r' ==> i + 1 < |raw| && raw[i + 1] == '\n')
    && (raw[i] == '\n' ==> i > 0 && raw[i - 1] == '\r')
  }

  ghost predicate UniformCrlf(raw: string) {
    forall i | 0 <= i < |raw| :: CrlfAt(raw, i)
  }

  ghost predicate Uniform(raw: string, end: string) {
    if end == LF then UniformLf(raw) else UniformCrlf(raw)
  }

  lemma {:induction false} UniformTail(text: string, end: string, n: nat)
    requires IsEnding(end) && text != "" && Uniform(text, end) && n == (if end <= text then |end| else 1)
    ensures n <= |text| && Uniform(text[n..], end)
    ensures !(end <= text) ==> text[0] != '\r' && text[0] != '\n'
  {
    if end == CRLF {
      assert CrlfAt(text, 0);
      forall i | 0 <= i < |text| - n ensures CrlfAt(text[n..], i) {
        assert CrlfAt(text, i + n);
      }
    } else {
      assert text[0] in text;
    }
  }

  // The lines of a text with uniform endings contain neither CR nor LF.
  lemma {:induction false} UniformLines(text: string, end: string)
    requires IsEnding(end) && Uniform(text, end)
    ensures AllUnbroken(Split(text, end))
    decreases |text|
  {
    if text != "" {
      var n := if end <= text then |end| else 1;
      UniformTail(text, end, n);
      UniformLines(text[n..], end);
      UniformLinesStep(text, end, n);
    }
  }

  lemma {:induction false} UnbrokenCons(c: char, line: string)
    requires Unbroken(line) && c != '\r' && c != '\n'
    ensures Unbroken([c] + line)
  {
  }

  lemma {:induction false} UniformLinesStep(text: string, end: string, n: nat)
    requires IsEnding(end) && text != "" && n == (if end <= text then |end| else 1) && n <= |text|
    requires !(end <= text) ==> text[0] != '\r' && text[0] != '\n'
    requires AllUnbroken(Split(text[n..], end))
    ensures AllUnbroken(Split(text, end))
  {
    var rest := Split(text[n..], end);
    if end <= text {
      PrependUnbroken("", rest);
    } else if rest == [] {
      assert text == [text[0]] + text[1..] && text[1..] == "";
      UnbrokenCons(text[0], "");
      PrependUnbroken(text, []);
    } else {
      assert rest[0] in rest;
      UnbrokenCons(text[0], rest[0]);
      PrependUnbroken([text[0]] + rest[0], rest[1..]);
    }
  }

  lemma {:induction false} PrependUnbroken(line: string, rest: seq<string>)
    requires Unbroken(line) && AllUnbroken(rest)
    ensures AllUnbroken([line] + rest)
  {
  }

  // A joined text ends its lines uniformly.
  lemma {:induction false} JoinIsLf(lines: seq<string>)
    requires forall line | line in lines :: IsLine(line)
    ensures UniformLf(Join(lines, LF))
  {
    if lines != [] {
      assert lines[0] in lines;
      JoinIsLf(lines[1..]);
    }
  }

  lemma {:induction false} CrlfLine(line: string, tail: string)
    requires IsLine(line) && UniformCrlf(tail)
    ensures UniformCrlf(line + CRLF + tail)
  {
    var text := line + CRLF + tail;
    forall i | 0 <= i < |text| ensures CrlfAt(text, i) {
      if i < |line| {
        assert text[i] in line;
      } else if i >= |line| + 2 {
        assert CrlfAt(tail, i - |line| - 2);
      }
    }
  }

  lemma {:induction false} JoinIsCrlf(lines: seq<string>)
    requires forall line | line in lines :: IsLine(line)
    ensures UniformCrlf(Join(lines, CRLF))
  {
    if lines != [] {
      assert lines[0] in lines;
      JoinIsCrlf(lines[1..]);
      CrlfLine(lines[0], Join(lines[1..], CRLF));
    }
  }

  lemma {:induction false} JoinEnds(lines: seq<string>, end: string)
    requires IsEnding(end) && lines != []
    ensures EndsWith(Join(lines, end), end)
  {
    if |lines| > 1 {
      JoinEnds(lines[1..], end);
    } else {
      assert lines[1..] == [];
    }
  }

  // The line-ending scan: the one terminator used throughout, or None when a
  // CR stands alone or both kinds occur.
  method ScanEndings(raw: string) returns (r: Option<string>)
    requires EndsWith(raw, LF)
    ensures r.Some? ==> IsEnding(r.value) && Uniform(raw, r.value) && EndsWith(raw, r.value)
    ensures r.None? ==> !UniformLf(raw) && !UniformCrlf(raw)
  {
    var sawLf, sawCrlf := false, false;
    for i := 0 to |raw|
      invariant sawLf <==> exists k | 0 <= k < i :: raw[k] == '\n' && (k == 0 || raw[k - 1] != '\r')
      invariant sawCrlf <==> exists k | 0 <= k < i :: raw[k] == '\r'
      invariant forall k | 0 <= k < i && raw[k] == '\r' :: k + 1 < |raw| && raw[k + 1] == '\n'
    {
      if raw[i] == '\r' {
        if i + 1 >= |raw| || raw[i + 1] != '\n' {
          assert !CrlfAt(raw, i) && raw[i] in raw;
          return None;
        }
        sawCrlf := true;
      } else if raw[i] == '\n' {
        if i == 0 || raw[i - 1] != '\r' {
          sawLf := true;
        }
      }
    }
    if sawLf && sawCrlf {
      ghost var k :| 0 <= k < |raw| && raw[k] == '\n' && (k == 0 || raw[k - 1] != '\r');
      assert !CrlfAt(raw, k);
      return None;
    }
    r := Some(if sawCrlf then CRLF else LF);
    assert raw[|raw| - 1] == LF[0];
    if sawCrlf {
      assert forall k | 0 <= k < |raw| :: CrlfAt(raw, k);
      assert CrlfAt(raw, |raw| - 1);
    }
  }

  // ------------------------------------------------------------ the fields

  // The lines that start with a key, in order.
  function Matching(lines: seq<string>, key: string): (r: seq<string>)
    ensures forall line | line in r :: key <= line
  {
    if lines == [] then []
    else
      var last := lines[|lines| - 1];
      Matching(lines[..|lines| - 1], key) + if key <= last then [last] else []
  }

  // Exactly one line starts with the key, and it gives the value.
  predicate GivesOnce(lines: seq<string>, key: string, value: string) {
    Matching(lines, key) == [key + " " + value] && value != ""
  }

  function Value(f: Fields, key: string): string {
    if key == HASH_KEY then f.hash
    else if key == DATE_KEY then f.date
    else if key == HOST_KEY then f.host
    else if key == RELEASE_KEY then f.release
    else f.llvm
  }

  predicate IsLowerHex(s: string, length: nat) {
    |s| == length && forall c | c in s :: IsDigit(c) || 'a' <= c <= 'f'
  }

  predicate IsPrintable(s: string) {
    s != "" && forall c | c in s :: ' ' <= c <= '~'
  }

  predicate IsHost(s: string) {
    s == "x86_64-pc-windows-msvc" || s == "aarch64-pc-windows-msvc"
  }

  predicate ValidFields(f: Fields) {
    IsLowerHex(f.hash, 40) && IsDate(f.date) && IsHost(f.host) && IsPrintable(f.release) && IsPrintable(f.llvm)
  }

  predicate IsLeading(line: string) {
    LEADING <= line
  }

  // ------------------------------------------------------------ the grammar

  predicate SizeOk(raw: string) {
    1 <= |raw| <= MAXIMUM_SIZE && '\0' !in raw
  }

  // A leading line, no other like it, and each required key once.
  predicate LinesGive(lines: seq<string>, f: Fields) {
    && lines != [] && IsLeading(lines[0]) && |lines[0]| > |LEADING|
    && (forall line | line in lines[1..] :: !IsLeading(line))
    && forall key | key in KEYS :: GivesOnce(lines[1..], key, Value(f, key))
  }

  ghost predicate Grammar(utf8: string -> bool, raw: string, lines: seq<string>, end: string, f: Fields) {
    && SizeOk(raw) && utf8(raw)
    && IsEnding(end) && raw == Join(lines, end)
    && (forall line | line in lines :: IsLine(line))
    && LinesGive(lines, f) && ValidFields(f)
  }

  lemma {:induction false} MatchingAppend(lines: seq<string>, line: string, key: string)
    ensures Matching(lines + [line], key) == Matching(lines, key) + if key <= line then [line] else []
  {
    assert (lines + [line])[..|lines|] == lines;
  }

  lemma {:induction false} MatchingGrows(lines: seq<string>, n: nat, key: string)
    requires n <= |lines|
    ensures Matching(lines[..n], key) <= Matching(lines, key)
    decreases |lines| - n
  {
    if n == |lines| {
      assert lines[..n] == lines;
    } else {
      MatchingGrows(lines, n + 1, key);
      assert lines[..n + 1] == lines[..n] + [lines[n]];
      MatchingAppend(lines[..n], lines[n], key);
    }
  }

  // No line starts with two required keys.
  lemma {:induction false} KeysExclude(line: string, a: string, b: string)
    requires a in KEYS && b in KEYS && a <= line && b <= line
    ensures a == b
  {
    assert a[0] == line[0] == b[0];
    assert |a| > 7 && |b| > 7 ==> a[7] == line[7] == b[7];
  }

  // The required key a line starts with, if any.
  function KeyOf(line: string): (r: Option<string>)
    ensures r.Some? ==> r.value in KEYS && r.value <= line
    ensures r.None? ==> forall key | key in KEYS :: !(key <= line)
  {
    if HASH_KEY <= line then Some(HASH_KEY)
    else if DATE_KEY <= line then Some(DATE_KEY)
    else if HOST_KEY <= line then Some(HOST_KEY)
    else if RELEASE_KEY <= line then Some(RELEASE_KEY)
    else if LLVM_KEY <= line then Some(LLVM_KEY)
    else None
  }

  // What has been collected from the lines for one key.
  predicate CollectedFor(m: map<string, string>, lines: seq<string>, key: string) {
    if key in m then GivesOnce(lines, key, m[key]) else Matching(lines, key) == []
  }

  predicate Collected(m: map<string, string>, lines: seq<string>) {
    forall key | key in KEYS :: CollectedFor(m, lines, key)
  }

  lemma {:induction false} CollectOther(m: map<string, string>, lines: seq<string>, line: string)
    requires Collected(m, lines) && KeyOf(line).None?
    ensures Collected(m, lines + [line])
  {
    forall key | key in KEYS ensures CollectedFor(m, lines + [line], key) {
      MatchingAppend(lines, line, key);
    }
  }

  lemma {:induction false} CollectKey(
    m: map<string, string>, lines: seq<string>, line: string, key: string, value: string)
    requires Collected(m, lines) && key in KEYS && key !in m && value != "" && line == key + " " + value
    ensures Collected(m[key := value], lines + [line])
  {
    forall k | k in KEYS ensures CollectedFor(m[key := value], lines + [line], k) {
      MatchingAppend(lines, line, k);
      if k <= line {
        KeysExclude(line, k, key);
      }
    }
  }

  // A malformed or repeated line for a key leaves no value it could give.
  lemma {:induction false} BadLine(m: map<string, string>, lines: seq<string>, n: nat, key: string, value: string)
    requires n < |lines| && Collected(m, lines[..n]) && key in KEYS && key <= lines[n]
    requires key in m || (forall v | v != "" :: lines[n] != key + " " + v)
    ensures !GivesOnce(lines, key, value)
  {
    MatchingAppend(lines[..n], lines[n], key);
    assert lines[..n + 1] == lines[..n] + [lines[n]];
    MatchingGrows(lines, n + 1, key);
    var found, all := Matching(lines[..n + 1], key), Matching(lines, key);
    assert CollectedFor(m, lines[..n], key);
    assert found[|found| - 1] == lines[n] && all[|found| - 1] == lines[n];
  }

  // The text after a key and one space, when there is any.
  function ValueOf(line: string, key: string): (r: Option<string>)
    requires key <= line
    ensures r.Some? ==> r.value != "" && line == key + " " + r.value
    ensures r.None? ==> forall v | v != "" :: line != key + " " + v
  {
    if key + " " <= line && |line| > |key| + 1 then
      assert line == key + " " + line[|key| + 1..];
      Some(line[|key| + 1..])
    else
      assert forall v | v != "" :: key + " " <= key + " " + v;
      None
  }

  // Collects the required values, or fails on a malformed or repeated one.
  method Collect(lines: seq<string>) returns (r: Option<map<string, string>>)
    ensures r.Some? ==> Collected(r.value, lines)
    ensures r.None? ==> exists key :: key in KEYS && forall value :: !GivesOnce(lines, key, value)
  {
    var required: map<string, string> := map[];
    for n := 0 to |lines|
      invariant Collected(required, lines[..n])
    {
      assert lines[..n + 1] == lines[..n] + [lines[n]];
      var key := KeyOf(lines[n]);
      if key.None? {
        CollectOther(required, lines[..n], lines[n]);
        continue;
      }
      var value := ValueOf(lines[n], key.value);
      if value.None? || key.value in required {
        forall v ensures !GivesOnce(lines, key.value, v) {
          BadLine(required, lines, n, key.value, v);
        }
        return None;
      }
      CollectKey(required, lines[..n], lines[n], key.value, value.value);
      required := required[key.value := value.value];
    }
    assert lines[..|lines|] == lines;
    return Some(required);
  }

  lemma {:induction false} GivenValueIsUnique(lines: seq<string>, key: string, v: string, w: string)
    requires GivesOnce(lines, key, v) && GivesOnce(lines, key, w)
    ensures v == w
  {
    var line := Matching(lines, key)[0];
    assert v == line[|key| + 1..] && w == line[|key| + 1..];
  }

  lemma {:induction false} GivenFieldsAreUnique(lines: seq<string>, f: Fields, g: Fields)
    requires LinesGive(lines, f) && LinesGive(lines, g)
    ensures f == g
  {
    forall key | key in KEYS ensures Value(f, key) == Value(g, key) {
      GivenValueIsUnique(lines[1..], key, Value(f, key), Value(g, key));
    }
    assert HASH_KEY in KEYS && DATE_KEY in KEYS && HOST_KEY in KEYS && RELEASE_KEY in KEYS && LLVM_KEY in KEYS;
    assert Value(f, RELEASE_KEY) == f.release && Value(f, LLVM_KEY) == f.llvm;
    assert Value(g, RELEASE_KEY) == g.release && Value(g, LLVM_KEY) == g.llvm;
  }

  // ------------------------------------------------------------ the parser

  datatype Parsed = Parsed(fields: Fields, end: string)

  predicate LinesAccepted(lines: seq<string>, f: Fields) {
    (forall line | line in lines :: IsLine(line)) && LinesGive(lines, f) && ValidFields(f)
  }

  // The terminator and the lines of a text are determined by its bytes.
  lemma {:induction false} LinesAreDetermined(raw: string, end: string, lines: seq<string>, end': string)
    requires IsEnding(end) && Uniform(raw, end) && IsEnding(end')
    requires lines != [] && raw == Join(lines, end') && forall line | line in lines :: IsLine(line)
    ensures end' == end && lines == Split(raw, end)
  {
    JoinEnds(lines, end');
    if end' == CRLF {
      JoinIsCrlf(lines);
      assert raw[|raw| - 2] == CRLF[0] && raw[|raw| - 2] in raw;
    } else {
      JoinIsLf(lines);
      assert raw[|raw| - 1] == LF[0];
      assert UniformCrlf(raw) ==> CrlfAt(raw, |raw| - 1);
    }
    SplitJoin(lines, end');
  }

  lemma {:induction false} GrammarIsUniform(
    utf8: string -> bool, raw: string, lines: seq<string>, end: string, f: Fields)
    requires Grammar(utf8, raw, lines, end, f)
    ensures EndsWith(raw, LF) && Uniform(raw, end)
  {
    JoinEnds(lines, end);
    assert raw[|raw| - 1..] == LF by {
      assert raw[|raw| - 1] == end[|end| - 1];
    }
    if end == CRLF {
      JoinIsCrlf(lines);
    } else {
      JoinIsLf(lines);
    }
  }

  ghost predicate Rejected(utf8: string -> bool, raw: string) {
    forall lines, end, f :: !Grammar(utf8, raw, lines, end, f)
  }

  lemma {:induction false} RejectedByForm(utf8: string -> bool, raw: string)
    requires !SizeOk(raw) || !utf8(raw) || !EndsWith(raw, LF) || (!UniformLf(raw) && !UniformCrlf(raw))
    ensures Rejected(utf8, raw)
  {
    forall lines, end, f ensures !Grammar(utf8, raw, lines, end, f) {
      if Grammar(utf8, raw, lines, end, f) {
        GrammarIsUniform(utf8, raw, lines, end, f);
      }
    }
  }

  lemma {:induction false} GrammarGivesLines(
    utf8: string -> bool, raw: string, lines: seq<string>, end': string, f: Fields, end: string)
    requires Grammar(utf8, raw, lines, end', f) && IsEnding(end) && Uniform(raw, end)
    ensures LinesAccepted(Split(raw, end), f)
  {
    LinesAreDetermined(raw, end, lines, end');
  }

  lemma {:induction false} RejectedByLines(utf8: string -> bool, raw: string, end: string)
    requires IsEnding(end) && Uniform(raw, end)
    requires forall f :: !LinesAccepted(Split(raw, end), f)
    ensures Rejected(utf8, raw)
  {
    forall lines, end', f ensures !Grammar(utf8, raw, lines, end', f) {
      if Grammar(utf8, raw, lines, end', f) {
        GrammarGivesLines(utf8, raw, lines, end', f, end);
      }
    }
  }

  method ParseLines(lines: seq<string>) returns (r: Option<Fields>)
    ensures r.Some? ==> LinesAccepted(lines, r.value)
    ensures r.None? ==> forall f :: !LinesAccepted(lines, f)
  {
    if lines == [] || exists line | line in lines :: !IsLine(line) {
      return None;
    } else if !IsLeading(lines[0]) || |lines[0]| <= |LEADING| {
      return None;
    } else if exists line | line in lines[1..] :: IsLeading(line) {
      return None;
    }
    var required := Collect(lines[1..]);
    if required.None? {
      return None;
    }
    var m := required.value;
    if !(forall key | key in KEYS :: key in m) {
      NoMissingKey(m, lines);
      return None;
    }
    var f := FieldsOf(m);
    if !ValidFields(f) {
      forall g ensures !LinesAccepted(lines, g) {
        if LinesAccepted(lines, g) {
          GivenFieldsAreUnique(lines, f, g);
        }
      }
      return None;
    }
    return Some(f);
  }

  lemma {:induction false} NoMissingKey(m: map<string, string>, lines: seq<string>)
    requires lines != [] && Collected(m, lines[1..]) && !(forall key | key in KEYS :: key in m)
    ensures forall f :: !LinesAccepted(lines, f)
  {
    var key :| key in KEYS && key !in m;
    assert CollectedFor(m, lines[1..], key);
    forall f ensures !LinesAccepted(lines, f) {
      assert LinesGive(lines, f) ==> GivesOnce(lines[1..], key, Value(f, key));
    }
  }

  function FieldsOf(m: map<string, string>): (f: Fields)
    requires forall key | key in KEYS :: key in m
    ensures forall key | key in KEYS :: Value(f, key) == m[key]
  {
    assert HASH_KEY in KEYS && DATE_KEY in KEYS && HOST_KEY in KEYS && RELEASE_KEY in KEYS && LLVM_KEY in KEYS;
    Fields(m[HASH_KEY], m[DATE_KEY], m[HOST_KEY], m[RELEASE_KEY], m[LLVM_KEY])
  }

  // Accepts exactly the grammar, with the lines split without loss.
  method Parse(utf8: string -> bool, raw: string) returns (r: Option<Parsed>)
    ensures r.Some? ==> IsEnding(r.value.end)
    ensures r.Some? ==> Grammar(utf8, raw, Split(raw, r.value.end), r.value.end, r.value.fields)
    ensures r.None? ==> Rejected(utf8, raw)
  {
    if !SizeOk(raw) || !EndsWith(raw, LF) {
      RejectedByForm(utf8, raw);
      return None;
    }
    var end := ScanEndings(raw);
    if end.None? || !utf8(raw) {
      RejectedByForm(utf8, raw);
      return None;
    }
    var fields := ParseLines(Split(raw, end.value));
    if fields.None? {
      RejectedByLines(utf8, raw, end.value);
      return None;
    }
    JoinSplit(raw, end.value);
    return Some(Parsed(fields.value, end.value));
  }

  // ------------------------------------------------------------ printing

  lemma {:induction false} MatchingCounts(lines: seq<string>, key: string, line: string)
    ensures multiset(Matching(lines, key))[line] == if key <= line then multiset(lines)[line] else 0
  {
    if lines != [] {
      var n := |lines| - 1;
      MatchingCounts(lines[..n], key, line);
      assert lines == lines[..n] + [lines[n]];
      MatchingAppend(lines[..n], lines[n], key);
    }
  }

  // Which single line gives a value does not depend on the order.
  lemma {:induction false} GivesOnceAnyOrder(a: seq<string>, b: seq<string>, key: string, value: string)
    requires multiset(a) == multiset(b) && GivesOnce(a, key, value)
    ensures GivesOnce(b, key, value)
  {
    var found := Matching(b, key);
    forall line ensures multiset(found)[line] == multiset(Matching(a, key))[line] {
      MatchingCounts(a, key, line);
      MatchingCounts(b, key, line);
    }
    assert multiset(found) == multiset{key + " " + value};
    assert |found| == |multiset(found)| == 1;
    assert found[0] in multiset(found);
  }

  // The text of valid fields: a leading line, then the five required lines
  // and any unrelated ones, in any order, each ended the same way.
  ghost predicate Prints(f: Fields, extra: seq<string>, lines: seq<string>) {
    && lines != [] && IsLeading(lines[0]) && |lines[0]| > |LEADING| && IsLine(lines[0])
    && multiset(lines[1..]) == multiset(Required(f) + extra)
    && forall line | line in extra :: IsLine(line) && !IsLeading(line) && KeyOf(line).None?
  }

  function Required(f: Fields): seq<string> {
    RequiredUpTo(f, |KEYS|)
  }

  function RequiredUpTo(f: Fields, n: nat): seq<string>
    requires n <= |KEYS|
  {
    if n == 0 then [] else RequiredUpTo(f, n - 1) + [KEYS[n - 1] + " " + Value(f, KEYS[n - 1])]
  }

  lemma {:induction false} NoMatchInExtra(lines: seq<string>, extra: seq<string>, key: string)
    requires key in KEYS && forall line | line in extra :: KeyOf(line).None?
    ensures Matching(lines + extra, key) == Matching(lines, key)
  {
    if extra == [] {
      assert lines + extra == lines;
    } else {
      var n := |extra| - 1;
      NoMatchInExtra(lines, extra[..n], key);
      assert lines + extra == (lines + extra[..n]) + [extra[n]] && extra[n] in extra;
      MatchingAppend(lines + extra[..n], extra[n], key);
    }
  }

  lemma {:induction false} RequiredMatch(line: string, key: string, own: string, value: string)
    requires key in KEYS && own in KEYS && line == own + " " + value
    ensures key <= line <==> key == own
  {
    assert own <= line;
    if key <= line {
      KeysExclude(line, key, own);
    }
  }

  lemma {:induction false} RequiredMatches(lines: seq<string>, key: string, own: string, value: string)
    requires key in KEYS && own in KEYS
    ensures Matching(lines + [own + " " + value], key) ==
            Matching(lines, key) + if key == own then [own + " " + value] else []
  {
    RequiredMatch(own + " " + value, key, own, value);
    MatchingAppend(lines, own + " " + value, key);
  }

  lemma {:induction false} RequiredGives(f: Fields, i: nat, n: nat)
    requires i < |KEYS| && n <= |KEYS|
    ensures Matching(RequiredUpTo(f, n), KEYS[i]) == if i < n then [KEYS[i] + " " + Value(f, KEYS[i])] else []
  {
    if n > 0 {
      RequiredGives(f, i, n - 1);
      RequiredMatches(RequiredUpTo(f, n - 1), KEYS[i], KEYS[n - 1], Value(f, KEYS[n - 1]));
      KeysAreDifferent(i, n - 1);
    }
  }

  lemma {:induction false} KeysAreDifferent(i: nat, j: nat)
    requires i < |KEYS| && j < |KEYS|
    ensures KEYS[i] == KEYS[j] <==> i == j
  {
    assert HASH_KEY[0] == 'c' && DATE_KEY[0] == 'c' && HOST_KEY[0] == 'h';
    assert RELEASE_KEY[0] == 'r' && LLVM_KEY[0] == 'L';
    assert HASH_KEY[7] != DATE_KEY[7];
  }

  lemma {:induction false} DateIsPrintable(s: string)
    requires IsDate(s)
    ensures IsPrintable(s)
  {
    forall c | c in s ensures ' ' <= c <= '~' {
      var i :| 0 <= i < |s| && s[i] == c;
      assert i == 4 || i == 7 || IsDigit(s[i]);
    }
  }

  lemma {:induction false} HexIsPrintable(s: string)
    requires IsLowerHex(s, 40)
    ensures IsPrintable(s)
  {
  }

  lemma {:induction false} HostIsPrintable(s: string)
    requires IsHost(s)
    ensures IsPrintable(s)
  {
    assert s[|s| - 1] == 'c';
  }

  lemma {:induction false} ValidIsPrintable(f: Fields, key: string)
    requires ValidFields(f)
    ensures IsPrintable(Value(f, key))
  {
    DateIsPrintable(f.date);
    HexIsPrintable(f.hash);
    HostIsPrintable(f.host);
  }

  lemma {:induction false} RequiredIsLine(key: string, value: string)
    requires key in KEYS && IsPrintable(value)
    ensures IsLine(key + " " + value) && !IsLeading(key + " " + value)
  {
    var line := key + " " + value;
    assert IsPrintable(key);
    forall c | c in line ensures ' ' <= c <= '~' {
      assert c in key || c in " " || c in value;
    }
    assert LEADING[0] == 'r' && LEADING[1] == 'u' && line[0] == key[0] && line[1] == key[1];
  }

  lemma {:induction false} RequiredLine(f: Fields, line: string, n: nat)
    requires ValidFields(f) && n <= |KEYS| && line in RequiredUpTo(f, n)
    ensures IsLine(line) && !IsLeading(line)
  {
    if line in RequiredUpTo(f, n - 1) {
      RequiredLine(f, line, n - 1);
    } else {
      ValidIsPrintable(f, KEYS[n - 1]);
      RequiredIsLine(KEYS[n - 1], Value(f, KEYS[n - 1]));
    }
  }

  lemma {:induction false} PrintedLine(f: Fields, extra: seq<string>, rest: seq<string>, line: string)
    requires ValidFields(f) && multiset(rest) == multiset(Required(f) + extra) && line in rest
    requires forall l | l in extra :: IsLine(l) && !IsLeading(l)
    ensures IsLine(line) && !IsLeading(line)
  {
    assert line in multiset(rest);
    assert line in Required(f) + extra;
    if line in Required(f) {
      RequiredLine(f, line, |KEYS|);
    }
  }

  lemma {:induction false} PrintedGives(f: Fields, extra: seq<string>, rest: seq<string>, i: nat)
    requires ValidFields(f) && multiset(rest) == multiset(Required(f) + extra) && i < |KEYS|
    requires forall l | l in extra :: KeyOf(l).None?
    ensures GivesOnce(rest, KEYS[i], Value(f, KEYS[i]))
  {
    RequiredGives(f, i, |KEYS|);
    NoMatchInExtra(Required(f), extra, KEYS[i]);
    ValidIsPrintable(f, KEYS[i]);
    GivesOnceAnyOrder(Required(f) + extra, rest, KEYS[i], Value(f, KEYS[i]));
  }

  lemma {:induction false} PrintedLinesGive(f: Fields, extra: seq<string>, lines: seq<string>)
    requires ValidFields(f) && Prints(f, extra, lines)
    ensures LinesAccepted(lines, f)
  {
    var rest := lines[1..];
    forall line | line in rest ensures IsLine(line) && !IsLeading(line) {
      PrintedLine(f, extra, rest, line);
    }
    forall key | key in KEYS ensures GivesOnce(rest, key, Value(f, key)) {
      var i :| 0 <= i < |KEYS| && KEYS[i] == key;
      PrintedGives(f, extra, rest, i);
    }
    assert lines == [lines[0]] + rest;
  }

  // Printing valid fields in any order, with any unrelated lines and either
  // terminator, gives a text of the grammar with those fields, and with no
  // other reading.
  lemma {:induction false} PrintedParses(
    utf8: string -> bool, f: Fields, extra: seq<string>, lines: seq<string>, end: string)
    requires ValidFields(f) && Prints(f, extra, lines) && IsEnding(end)
    requires SizeOk(Join(lines, end)) && utf8(Join(lines, end))
    ensures Grammar(utf8, Join(lines, end), lines, end, f)
  {
    PrintedLinesGive(f, extra, lines);
  }

  lemma {:induction false} ReadingIsUnique(utf8: string -> bool, raw: string, a: seq<string>, b: seq<string>,
                        end: string, end': string, f: Fields, g: Fields)
    requires Grammar(utf8, raw, a, end, f) && Grammar(utf8, raw, b, end', g)
    ensures a == b && end == end' && f == g
  {
    GrammarIsUniform(utf8, raw, a, end, f);
    LinesAreDetermined(raw, end, a, end);
    LinesAreDetermined(raw, end, b, end');
    GivenFieldsAreUnique(a, f, g);
  }
}
