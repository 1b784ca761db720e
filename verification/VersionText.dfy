// The grammar of the verbose version text written out, without the helper
// functions of its parser.

module VersionText {
  import opened Wrappers
  import opened Basics
  import opened Calendar
  import opened RustcVerbose

  // After the first line one line begins with the key, and it gives the value.
  ghost predicate OnlyLineAt(lines: seq<string>, key: string, value: string, i: int) {
    && 0 < i < |lines| && lines[i] == key + " " + value
    && forall j | 0 < j < |lines| && j != i :: !(key <= lines[j])
  }

  ghost predicate OnlyLine(lines: seq<string>, key: string, value: string) {
    value != "" && exists i :: OnlyLineAt(lines, key, value, i)
  }

  ghost predicate IsPrintableText(s: string) {
    |s| > 0 && forall i | 0 <= i < |s| :: 0x20 <= s[i] as int <= 0x7E
  }

  // At most 64 KiB, without a zero byte.
  ghost predicate TextFits(raw: string) {
    0 < |raw| <= 0x1_0000 && forall i | 0 <= i < |raw| :: raw[i] != 0 as char
  }

  ghost predicate LinesFit(lines: seq<string>) {
    forall i | 0 <= i < |lines| ::
      lines[i] != "" && forall j | 0 <= j < |lines[i]| :: lines[i][j] != '\n' && lines[i][j] != '\r'
  }

  // The first line begins with "rustc " and says more, and no other begins so.
  ghost predicate Leads(lines: seq<string>) {
    lines != [] && "rustc " < lines[0] && forall i | 0 < i < |lines| :: !("rustc " <= lines[i])
  }

  ghost predicate ShowsFields(lines: seq<string>, f: Fields) {
    && OnlyLine(lines, "commit-hash:", f.hash) && OnlyLine(lines, "commit-date:", f.date)
    && OnlyLine(lines, "host:", f.host) && OnlyLine(lines, "release:", f.release)
    && OnlyLine(lines, "LLVM version:", f.llvm)
  }

  ghost predicate FieldsFit(f: Fields) {
    && |f.hash| == 40 && (forall i | 0 <= i < 40 :: '0' <= f.hash[i] <= '9' || 'a' <= f.hash[i] <= 'f')
    && (exists year, month, day :: IsDay(f.date, year, month, day))
    && f.host in {"x86_64-pc-windows-msvc", "aarch64-pc-windows-msvc"}
    && IsPrintableText(f.release) && IsPrintableText(f.llvm)
  }

  // Nonempty lines that all end alike, a leading one, and the five fields, each
  // valid and on one line.
  ghost predicate Written(utf8: string -> bool, raw: string, lines: seq<string>, end: string, f: Fields) {
    && TextFits(raw) && utf8(raw)
    && (end == "\n" || end == "\r\n") && raw == Join(lines, end)
    && LinesFit(lines) && Leads(lines) && ShowsFields(lines, f) && FieldsFit(f)
  }

  // ------------------------------------------------------------ single lines

  lemma {:induction false} MatchingIsFilter(lines: seq<string>, key: string, keep: string -> bool)
    requires forall line :: keep(line) <==> key <= line
    ensures Matching(lines, key) == Filter(lines, keep)
  {
    if lines != [] {
      MatchingIsFilter(lines[..|lines| - 1], key, keep);
    }
  }

  lemma {:induction false} OneSelected(s: seq<string>, keep: string -> bool, x: string)
    requires Filter(s, keep) == [x]
    ensures exists i :: 0 <= i < |s| && s[i] == x && forall j | 0 <= j < |s| && j != i :: !keep(s[j])
  {
    var at := FilterSelects(s, keep);
    assert at == [at[0]];
    assert s[at[0]] == x;
  }

  lemma {:induction false} SelectedOne(s: seq<string>, keep: string -> bool, i: nat)
    requires i < |s| && keep(s[i]) && forall j | 0 <= j < |s| && j != i :: !keep(s[j])
    ensures Filter(s, keep) == [s[i]]
  {
    SelectionIsUnique(s, keep, [i], [s[i]]);
  }

  lemma {:induction false} OnlyLineMeansOnce(lines: seq<string>, key: string, value: string)
    requires lines != []
    ensures OnlyLine(lines, key, value) <==> GivesOnce(lines[1..], key, value)
  {
    var rest, keep := lines[1..], (line: string) => key <= line;
    MatchingIsFilter(rest, key, keep);
    if GivesOnce(rest, key, value) {
      OneSelected(rest, keep, key + " " + value);
      var i :|
        && 0 <= i < |rest| && rest[i] == key + " " + value
        && forall j | 0 <= j < |rest| && j != i :: !keep(rest[j]);
      OnlyLineLater(lines, key, value, i);
    }
    if OnlyLine(lines, key, value) {
      var i :| OnlyLineAt(lines, key, value, i);
      assert rest[i - 1] == lines[i] && key <= key + " " + value;
      forall j | 0 <= j < |rest| && j != i - 1 ensures !keep(rest[j]) {
        assert rest[j] == lines[j + 1];
      }
      SelectedOne(rest, keep, i - 1);
    }
  }

  lemma {:induction false} OnlyLineLater(lines: seq<string>, key: string, value: string, i: int)
    requires lines != [] && 0 <= i < |lines| - 1 && lines[1..][i] == key + " " + value
    requires forall j | 0 <= j < |lines| - 1 && j != i :: !(key <= lines[1..][j])
    ensures OnlyLineAt(lines, key, value, i + 1)
  {
    forall j | 0 < j < |lines| && j != i + 1 ensures !(key <= lines[j]) {
      assert lines[j] == lines[1..][j - 1];
    }
  }

  // ------------------------------------------------------------ the parts

  lemma {:induction false} LinesAreWritten(lines: seq<string>)
    ensures (forall line | line in lines :: IsLine(line)) <==> LinesFit(lines)
  {
    forall line ensures IsLine(line) <==>
                        line != "" && forall j | 0 <= j < |line| :: line[j] != '\n' && line[j] != '\r'
    {
      assert '\n' in line <==> exists j :: 0 <= j < |line| && line[j] == '\n';
      assert '\r' in line <==> exists j :: 0 <= j < |line| && line[j] == '\r';
    }
  }

  lemma {:induction false} SizeIsWritten(raw: string)
    ensures SizeOk(raw) <==> TextFits(raw)
  {
    assert '\0' == 0 as char;
    assert '\0' in raw <==> exists i :: 0 <= i < |raw| && raw[i] == '\0';
  }

  lemma {:induction false} LeadingIsWritten(lines: seq<string>)
    requires lines != []
    ensures Leads(lines) <==>
            && IsLeading(lines[0]) && |lines[0]| > |LEADING|
            && forall line | line in lines[1..] :: !IsLeading(line)
  {
    assert forall i | 0 < i < |lines| :: lines[i] == lines[1..][i - 1];
    if forall line | line in lines[1..] :: !IsLeading(line) {
      forall i | 0 < i < |lines| ensures !("rustc " <= lines[i]) {
        assert lines[i] in lines[1..];
      }
    }
  }

  lemma {:induction false} KeysAreWritten(lines: seq<string>, f: Fields)
    requires lines != []
    ensures (forall key | key in KEYS :: GivesOnce(lines[1..], key, Value(f, key))) <==> ShowsFields(lines, f)
  {
    assert KEYS == ["commit-hash:", "commit-date:", "host:", "release:", "LLVM version:"];
    assert forall i | 0 <= i < 5 :: KEYS[i] in KEYS;
    ValuesAreFields(f);
    OnlyLineMeansOnce(lines, "commit-hash:", f.hash);
    OnlyLineMeansOnce(lines, "commit-date:", f.date);
    OnlyLineMeansOnce(lines, "host:", f.host);
    OnlyLineMeansOnce(lines, "release:", f.release);
    OnlyLineMeansOnce(lines, "LLVM version:", f.llvm);
  }

  lemma {:induction false} ValuesAreFields(f: Fields)
    ensures Value(f, "commit-hash:") == f.hash && Value(f, "commit-date:") == f.date
    ensures Value(f, "host:") == f.host && Value(f, "release:") == f.release
    ensures Value(f, "LLVM version:") == f.llvm
  {
    assert "commit-hash:"[7] != "commit-date:"[7];
    assert "host:"[0] != "commit-hash:"[0] && "release:"[0] != "commit-hash:"[0];
    assert "LLVM version:"[0] != "commit-hash:"[0] && "host:"[0] != "release:"[0];
    assert "LLVM version:"[0] != "host:"[0] && "LLVM version:"[0] != "release:"[0];
  }

  lemma {:induction false} PrintableIsWritten(s: string)
    ensures IsPrintable(s) <==> IsPrintableText(s)
  {
    if IsPrintable(s) {
      forall i | 0 <= i < |s| ensures 0x20 <= s[i] as int <= 0x7E {
        assert s[i] in s;
      }
    }
    if IsPrintableText(s) {
      forall c | c in s ensures ' ' <= c <= '~' {
        var i :| 0 <= i < |s| && s[i] == c;
      }
    }
  }

  lemma {:induction false} HashIsWritten(s: string)
    ensures IsLowerHex(s, 40) <==> |s| == 40 && forall i | 0 <= i < 40 :: '0' <= s[i] <= '9' || 'a' <= s[i] <= 'f'
  {
    if IsLowerHex(s, 40) {
      forall i | 0 <= i < 40 ensures '0' <= s[i] <= '9' || 'a' <= s[i] <= 'f' {
        assert s[i] in s;
      }
    }
    if |s| == 40 && forall i | 0 <= i < 40 :: '0' <= s[i] <= '9' || 'a' <= s[i] <= 'f' {
      forall c | c in s ensures IsDigit(c) || 'a' <= c <= 'f' {
        var i :| 0 <= i < |s| && s[i] == c;
      }
    }
  }

  lemma {:induction false} FieldsAreWritten(f: Fields)
    ensures ValidFields(f) <==> FieldsFit(f)
  {
    HashIsWritten(f.hash);
    DatesAreCalendarDays(f.date);
    PrintableIsWritten(f.release);
    PrintableIsWritten(f.llvm);
  }

  // What the parser accepts is what is written above.
  lemma {:induction false} GrammarIsWritten(
    utf8: string -> bool, raw: string, lines: seq<string>, end: string, f: Fields)
    ensures Grammar(utf8, raw, lines, end, f) <==> Written(utf8, raw, lines, end, f)
  {
    SizeIsWritten(raw);
    LinesAreWritten(lines);
    FieldsAreWritten(f);
    if lines != [] {
      LeadingIsWritten(lines);
      KeysAreWritten(lines, f);
    }
  }
}
