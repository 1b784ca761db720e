// JSON values, their compact text, and a parser for the grammar of sections 3
// to 7 of RFC 8259 (without insignificant white space). Text is a sequence of
// Unicode scalar values; UTF-8 encoding is a later, injective step.

module Json {
  import opened Basics
  import Wrappers

  // A number is its decimal text, the way the number type prints itself.
  datatype Json =
    | Null
    | Bool(b: bool)
    | Number(text: string)
    | Str(s: string)
    | Arr(items: seq<Json>)
    | Obj(members: seq<Member>)

  datatype Member = Member(key: string, value: Json)

  datatype Parsed<+T> = Fail | Ok(value: T, rest: string)

  // ----------------------------------------------------- numbers (section 6)

  function SkipDigits(t: string): (r: string)
    ensures |r| <= |t| && r == t[|t| - |r|..]
  {
    if t != [] && IsDigit(t[0]) then SkipDigits(t[1..]) else t
  }

  predicate StartsWithDigit(t: string) {
    t != [] && IsDigit(t[0])
  }

  function ScanUnsigned(u: string): (r: Parsed<()>)
    ensures r.Ok? ==> |r.rest| < |u|
  {
    if !StartsWithDigit(u) then Fail
    else Ok((), if u[0] == '0' then u[1..] else SkipDigits(u))
  }

  function ScanInteger(t: string): (r: Parsed<()>)
    ensures r.Ok? ==> |r.rest| < |t|
  {
    ScanUnsigned(if t != [] && t[0] == '-' then t[1..] else t)
  }

  function ScanFraction(t: string): (r: Parsed<()>)
    ensures r.Ok? ==> |r.rest| <= |t|
  {
    if t == [] || t[0] != '.' then Ok((), t)
    else if StartsWithDigit(t[1..]) then Ok((), SkipDigits(t[1..]))
    else Fail
  }

  function ScanExponent(t: string): (r: Parsed<()>)
    ensures r.Ok? ==> |r.rest| <= |t|
  {
    if t == [] || (t[0] != 'e' && t[0] != 'E') then Ok((), t)
    else
      var u := StripSign(t[1..]);
      if StartsWithDigit(u) then Ok((), SkipDigits(u)) else Fail
  }

  function StripSign(t: string): (u: string)
    ensures |u| <= |t|
  {
    if t != [] && (t[0] == '+' || t[0] == '-') then t[1..] else t
  }

  function ScanNumber(t: string): (r: Parsed<()>)
    ensures r.Ok? ==> |r.rest| < |t|
  {
    var i := ScanInteger(t);
    if i.Fail? then Fail
    else
      var f := ScanFraction(i.rest);
      if f.Fail? then Fail else ScanExponent(f.rest)
  }

  predicate IsNumber(t: string) {
    ScanNumber(t) == Ok((), "")
  }

  // What may follow a value inside a JSON text.
  predicate Delimited(rest: string) {
    rest == [] || rest[0] == ',' || rest[0] == ']' || rest[0] == '}'
  }

  lemma {:induction false} SkipDigitsExtends(t: string, rest: string)
    requires !StartsWithDigit(rest)
    ensures SkipDigits(t + rest) == SkipDigits(t) + rest
  {
    if t == [] {
      assert t + rest == rest;
    } else {
      assert (t + rest)[1..] == t[1..] + rest;
      if IsDigit(t[0]) {
        SkipDigitsExtends(t[1..], rest);
      }
    }
  }

  lemma {:induction false} TailOfConcat(t: string, rest: string)
    requires t != []
    ensures t + rest != [] && (t + rest)[0] == t[0] && (t + rest)[1..] == t[1..] + rest
  {
  }

  lemma {:induction false} ScanUnsignedExtends(u: string, rest: string)
    requires Delimited(rest) && ScanUnsigned(u).Ok?
    ensures ScanUnsigned(u + rest) == Ok((), ScanUnsigned(u).rest + rest)
  {
    TailOfConcat(u, rest);
    SkipDigitsExtends(u, rest);
  }

  lemma {:induction false} ScanIntegerExtends(t: string, rest: string)
    requires Delimited(rest) && ScanInteger(t).Ok?
    ensures ScanInteger(t + rest) == Ok((), ScanInteger(t).rest + rest)
  {
    TailOfConcat(t, rest);
    ScanUnsignedExtends(if t[0] == '-' then t[1..] else t, rest);
  }

  lemma {:induction false} ScanFractionExtends(t: string, rest: string)
    requires Delimited(rest) && ScanFraction(t).Ok?
    ensures ScanFraction(t + rest) == Ok((), ScanFraction(t).rest + rest)
  {
    if t == [] {
      assert t + rest == rest;
    } else {
      assert (t + rest)[1..] == t[1..] + rest;
      SkipDigitsExtends(t[1..], rest);
    }
  }

  lemma {:induction false} StripSignExtends(t: string, rest: string)
    requires t != []
    ensures StripSign(t + rest) == StripSign(t) + rest
  {
    TailOfConcat(t, rest);
  }

  lemma {:induction false} ScanExponentExtends(t: string, rest: string)
    requires Delimited(rest) && ScanExponent(t).Ok?
    ensures ScanExponent(t + rest) == Ok((), ScanExponent(t).rest + rest)
  {
    if t == [] {
      assert t + rest == rest;
    } else if t[0] == 'e' || t[0] == 'E' {
      TailOfConcat(t, rest);
      assert StartsWithDigit(StripSign(t[1..]));
      StripSignExtends(t[1..], rest);
      SkipDigitsExtends(StripSign(t[1..]), rest);
    } else {
      TailOfConcat(t, rest);
    }
  }

  lemma {:induction false} ScanNumberStops(t: string, rest: string)
    requires IsNumber(t) && Delimited(rest)
    ensures ScanNumber(t + rest) == Ok((), rest)
  {
    ScanIntegerExtends(t, rest);
    ScanFractionExtends(ScanInteger(t).rest, rest);
    ScanExponentExtends(ScanFraction(ScanInteger(t).rest).rest, rest);
    assert "" + rest == rest;
  }

  // ----------------------------------------------------- strings (section 7)

  function HexDigit(n: nat): char
    requires n < 16
  {
    if n < 10 then '0' + n as char else 'a' + (n - 10) as char
  }

  // The writer's escapes: two-character forms where they exist, `\u00xx` for
  // the other control characters, everything else as it is.
  function EscapeChar(c: char): string {
    if c == '\"' then "\\\""
    else if c == '\\' then "\\\\"
    else if c == '\U{08}' then "\\b"
    else if c == '\t' then "\\t"
    else if c == '\n' then "\\n"
    else if c == '\U{0C}' then "\\f"
    else if c == '\r' then "\\r"
    else if c < ' ' then "\\u00" + [HexDigit(c as nat / 16), HexDigit(c as nat % 16)]
    else [c]
  }

  function Escape(s: string): string {
    if s == [] then "" else EscapeChar(s[0]) + Escape(s[1..])
  }

  function Quote(s: string): string {
    "\"" + Escape(s) + "\""
  }

  // The four hex digits of a `\u` escape.
  function ParseHex4(s: string): (r: Parsed<nat>)
    ensures r.Ok? ==> r.value < 0x10000 && |s| >= 4 && r.rest == s[4..]
  {
    if |s| < 4 then Fail
    else
      var a, b, c, d := HexValue(s[0]), HexValue(s[1]), HexValue(s[2]), HexValue(s[3]);
      if a.Some? && b.Some? && c.Some? && d.Some?
      then Ok(a.value * 4096 + b.value * 256 + c.value * 16 + d.value, s[4..])
      else Fail
  }

  predicate IsSurrogate(n: nat) {
    0xD800 <= n < 0xE000
  }

  // After `\u`: one code unit, or a surrogate pair written as two escapes.
  function ParseUnicode(s: string): (r: Parsed<char>)
    ensures r.Ok? ==> |r.rest| < |s|
  {
    var high := ParseHex4(s);
    if high.Fail? then Fail
    else if !IsSurrogate(high.value) then Ok(high.value as char, high.rest)
    else if high.value >= 0xDC00 || |high.rest| < 2 || high.rest[..2] != "\\u" then Fail
    else
      var low := ParseHex4(high.rest[2..]);
      if low.Fail? || !(0xDC00 <= low.value < 0xE000) then Fail
      else Ok((0x10000 + (high.value - 0xD800) * 0x400 + (low.value - 0xDC00)) as char, low.rest)
  }

  // One escape, after its backslash.
  function ParseEscape(s: string): (r: Parsed<char>)
    ensures r.Ok? ==> |r.rest| < |s|
  {
    if s == [] then Fail
    else match s[0]
      case '\"' => Ok('\"', s[1..])
      case '\\' => Ok('\\', s[1..])
      case '/' => Ok('/', s[1..])
      case 'b' => Ok('\U{08}', s[1..])
      case 'f' => Ok('\U{0C}', s[1..])
      case 'n' => Ok('\n', s[1..])
      case 'r' => Ok('\r', s[1..])
      case 't' => Ok('\t', s[1..])
      case 'u' => ParseUnicode(s[1..])
      case _ => Fail
  }

  // The rest of a string, after its opening quotation mark.
  function ParseString(s: string): (r: Parsed<string>)
    ensures r.Ok? ==> |r.rest| < |s|
    decreases |s|
  {
    if s == [] || (s[0] != '\"' && s[0] < ' ') then Fail
    else if s[0] == '\"' then Ok("", s[1..])
    else
      var c := if s[0] == '\\' then ParseEscape(s[1..]) else Ok(s[0], s[1..]);
      if c.Fail? then Fail
      else
        var more := ParseString(c.rest);
        if more.Fail? then Fail else Ok([c.value] + more.value, more.rest)
  }

  lemma {:induction false} HexRoundTrip(n: nat)
    requires n < 16
    ensures HexValue(HexDigit(n)) == Wrappers.Some(n)
  {
  }

  lemma {:induction false} EscapedCharParses(c: char, tail: string)
    ensures var s := EscapeChar(c) + tail;
            && s[0] != '\"' && s[0] >= ' '
            && (if s[0] == '\\' then ParseEscape(s[1..]) else Ok(s[0], s[1..])) == Ok(c, tail)
  {
    var s := EscapeChar(c) + tail;
    if |EscapeChar(c)| == 2 {
      assert s[1..][1..] == tail;
    } else if |EscapeChar(c)| == 6 {
      HexRoundTrip(c as nat / 16);
      HexRoundTrip(c as nat % 16);
      assert s[1..][1..][4..] == tail;
      assert ParseHex4(s[1..][1..]) == Ok(c as nat, tail);
    } else {
      assert s[1..] == tail;
    }
  }

  lemma {:induction false} OneMoreCharParses(c: char, tail: string, more: string, rest: string)
    requires ParseString(tail) == Ok(more, rest)
    ensures ParseString(EscapeChar(c) + tail) == Ok([c] + more, rest)
  {
    EscapedCharParses(c, tail);
  }

  lemma {:induction false} EscapeFirst(s: string, rest: string)
    requires s != []
    ensures Escape(s) + "\"" + rest == EscapeChar(s[0]) + (Escape(s[1..]) + "\"" + rest)
  {
  }

  lemma {:induction false} QuotedStringParses(s: string, rest: string)
    ensures ParseString(Escape(s) + "\"" + rest) == Ok(s, rest)
  {
    if s == [] {
      assert Escape(s) + "\"" + rest == "\"" + rest;
    } else {
      QuotedStringParses(s[1..], rest);
      OneMoreCharParses(s[0], Escape(s[1..]) + "\"" + rest, s[1..], rest);
      EscapeFirst(s, rest);
      assert [s[0]] + s[1..] == s;
    }
  }

  lemma {:induction false} OneCharParsed(c: char, s: string)
    requires s != "" && s[0] != '\"' && ParseString(s) == Ok([c], "")
    ensures var first := if s[0] == '\\' then ParseEscape(s[1..]) else Ok(s[0], s[1..]);
            first.Ok? && first.value == c && ParseString(first.rest) == Ok("", "")
  {
    var first := if s[0] == '\\' then ParseEscape(s[1..]) else Ok(s[0], s[1..]);
    var more := ParseString(first.rest).value;
    assert ([first.value] + more)[0] == first.value && |[first.value] + more| == 1;
  }

  lemma {:induction false} TooShort(t: string)
    requires t == "" || (|t| == 1 && t[0] == '\\')
    ensures var r := ParseString(t + "\""); r.Fail? || r.value == ""
  {
    assert t == "" ==> t + "\"" == "\"";
    assert t != "" ==> (t + "\"")[1..] == "\"";
  }

  lemma {:induction false} EscapeHasText(c: char, t: string)
    requires ParseString(t + "\"") == Ok([c], "")
    ensures t != "" && t[0] != '\"' && (t[0] == '\\' ==> |t| >= 2)
  {
    if t == "" || (|t| == 1 && t[0] == '\\') {
      TooShort(t);
    }
  }

  lemma {:induction false} LongEscape(c: char, t: string)
    requires |EscapeChar(c)| == 6 && |t| >= 2 && t[0] == '\\' && ParseString(t + "\"") == Ok([c], "")
    ensures |t| >= 6
  {
    var s := t + "\"";
    OneCharParsed(c, s);
    assert s[1..][0] == 'u';
    assert ParseUnicode(s[1..][1..]).Ok?;
  }

  // No other text spells the character in fewer characters.
  lemma {:induction false} EscapeIsShortest(c: char, t: string)
    requires ParseString(t + "\"") == Ok([c], "")
    ensures |EscapeChar(c)| <= |t|
  {
    EscapeHasText(c, t);
    OneCharParsed(c, t + "\"");
    if t[0] == '\\' && |EscapeChar(c)| == 6 {
      LongEscape(c, t);
    }
  }

  // Escapes use no upper-case digit.
  lemma {:induction false} EscapeIsLowerCase(c: char, i: nat)
    requires i < |EscapeChar(c)| && EscapeChar(c) != [c]
    ensures !('A' <= EscapeChar(c)[i] <= 'Z')
  {
    assert c < ' ' && |EscapeChar(c)| == 6 ==>
        EscapeChar(c) == "\\u00" + [HexDigit(c as nat / 16), HexDigit(c as nat % 16)];
  }

  // ------------------------------------------- values, objects, arrays (3 to 5)

  function Print(v: Json): string {
    match v
    case Null => "null"
    case Bool(b) => if b then "true" else "false"
    case Number(text) => text
    case Str(s) => Quote(s)
    case Arr(items) => "[" + PrintItems(items) + "]"
    case Obj(members) => "{" + PrintMembers(members) + "}"
  }

  function PrintItems(items: seq<Json>): string {
    if items == [] then ""
    else if |items| == 1 then Print(items[0])
    else Print(items[0]) + "," + PrintItems(items[1..])
  }

  function PrintMember(member: Member): string {
    Quote(member.key) + ":" + Print(member.value)
  }

  function PrintMembers(members: seq<Member>): string {
    if members == [] then ""
    else if |members| == 1 then PrintMember(members[0])
    else PrintMember(members[0]) + "," + PrintMembers(members[1..])
  }

  function ParseValue(s: string): (r: Parsed<Json>)
    ensures r.Ok? ==> |r.rest| < |s|
    decreases |s|, 0
  {
    if s == [] then Fail
    else if s[0] == 'n' then if "null" <= s then Ok(Null, s[4..]) else Fail
    else if s[0] == 't' then if "true" <= s then Ok(Bool(true), s[4..]) else Fail
    else if s[0] == 'f' then if "false" <= s then Ok(Bool(false), s[5..]) else Fail
    else if s[0] == '\"' then
      var r := ParseString(s[1..]);
      if r.Fail? then Fail else Ok(Str(r.value), r.rest)
    else if s[0] == '[' then
      if s[1..] != [] && s[1] == ']' then Ok(Arr([]), s[2..])
      else
        var r := ParseItems(s[1..]);
        if r.Fail? then Fail else Ok(Arr(r.value), r.rest)
    else if s[0] == '{' then
      if s[1..] != [] && s[1] == '}' then Ok(Obj([]), s[2..])
      else
        var r := ParseMembers(s[1..]);
        if r.Fail? then Fail else Ok(Obj(r.value), r.rest)
    else
      var r := ScanNumber(s);
      if r.Fail? then Fail else Ok(Number(s[..|s| - |r.rest|]), r.rest)
  }

  // One or more values separated by commas, up to and including `]`.
  function ParseItems(s: string): (r: Parsed<seq<Json>>)
    ensures r.Ok? ==> |r.rest| < |s|
    decreases |s|, 1
  {
    var v := ParseValue(s);
    if v.Fail? || v.rest == [] then Fail
    else if v.rest[0] == ']' then Ok([v.value], v.rest[1..])
    else if v.rest[0] != ',' then Fail
    else
      var more := ParseItems(v.rest[1..]);
      if more.Fail? then Fail else Ok([v.value] + more.value, more.rest)
  }

  // One or more members separated by commas, up to and including `}`.
  function ParseMembers(s: string): (r: Parsed<seq<Member>>)
    ensures r.Ok? ==> |r.rest| < |s|
    decreases |s|, 1
  {
    if s == [] || s[0] != '\"' then Fail
    else
      var key := ParseString(s[1..]);
      if key.Fail? || key.rest == [] || key.rest[0] != ':' then Fail
      else
        var v := ParseValue(key.rest[1..]);
        if v.Fail? || v.rest == [] then Fail
        else if v.rest[0] == '}' then Ok([Member(key.value, v.value)], v.rest[1..])
        else if v.rest[0] != ',' then Fail
        else
          var more := ParseMembers(v.rest[1..]);
          if more.Fail? then Fail else Ok([Member(key.value, v.value)] + more.value, more.rest)
  }

  // Numbers are numbers, and no object repeats a key.
  ghost predicate Valid(v: Json) {
    match v
    case Number(text) => IsNumber(text)
    case Arr(items) => forall i | 0 <= i < |items| :: Valid(items[i])
    case Obj(members) =>
      && DistinctKeys(members)
      && forall i | 0 <= i < |members| :: Valid(members[i].value)
    case _ => true
  }

  predicate DistinctKeys(members: seq<Member>) {
    forall i, j | 0 <= i < j < |members| :: members[i].key != members[j].key
  }

  // Every printed value starts with a character that selects its own branch.
  lemma {:induction false} FirstChar(v: Json)
    requires Valid(v)
    ensures Print(v) != [] && Print(v)[0] != ']' && Print(v)[0] != '}'
    ensures v.Number? ==> IsDigit(Print(v)[0]) || Print(v)[0] == '-'
  {
  }

  // One-step unfoldings of the parser, by first character.

  lemma {:induction false} ParseWord(v: Json, rest: string)
    requires v.Null? || v.Bool?
    ensures ParseValue(Print(v) + rest) == Ok(v, rest)
  {
    var s := Print(v) + rest;
    assert s[0] == Print(v)[0];
    assert Print(v) <= s && s[|Print(v)|..] == rest;
  }

  lemma {:induction false} ParseQuoted(body: string)
    ensures ParseValue("\"" + body) ==
            var r := ParseString(body);
            if r.Fail? then Fail else Ok(Str(r.value), r.rest)
  {
    TailOfConcat("\"", body);
    assert "" + body == body;
  }

  lemma {:induction false} ParseBracket(body: string)
    requires body != [] && body[0] != ']'
    ensures ParseValue("[" + body) ==
            var r := ParseItems(body);
            if r.Fail? then Fail else Ok(Arr(r.value), r.rest)
  {
    TailOfConcat("[", body);
    assert "" + body == body;
  }

  lemma {:induction false} ParseBrace(body: string)
    requires body != [] && body[0] != '}'
    ensures ParseValue("{" + body) ==
            var r := ParseMembers(body);
            if r.Fail? then Fail else Ok(Obj(r.value), r.rest)
  {
    TailOfConcat("{", body);
    assert "" + body == body;
  }

  lemma {:induction false} ParseEmpty(rest: string)
    ensures ParseValue("[]" + rest) == Ok(Arr([]), rest)
    ensures ParseValue("{}" + rest) == Ok(Obj([]), rest)
  {
    assert ("[]" + rest)[2..] == rest && ("{}" + rest)[2..] == rest;
  }

  lemma {:induction false} ParseNumeric(s: string)
    requires s != [] && (IsDigit(s[0]) || s[0] == '-')
    ensures ParseValue(s) ==
            var r := ScanNumber(s);
            if r.Fail? then Fail else Ok(Number(s[..|s| - |r.rest|]), r.rest)
  {
  }

  lemma {:induction false} ParseDecimal(text: string, rest: string)
    requires IsNumber(text) && Delimited(rest)
    ensures ParseValue(text + rest) == Ok(Number(text), rest)
  {
    var s := text + rest;
    ScanNumberStops(text, rest);
    assert s[0] == text[0];
    ParseNumeric(s);
    assert s[..|s| - |rest|] == text;
  }

  lemma {:induction false} ItemsStep(s: string, v: Json, tail: string)
    requires ParseValue(s) == Ok(v, tail) && tail != []
    ensures tail[0] == ']' ==> ParseItems(s) == Ok([v], tail[1..])
    ensures tail[0] == ',' && ParseItems(tail[1..]).Ok? ==>
              ParseItems(s) == Ok([v] + ParseItems(tail[1..]).value, ParseItems(tail[1..]).rest)
  {
  }

  lemma {:induction false} MembersStep(s: string, key: string, after: string, v: Json, tail: string)
    requires s != [] && s[0] == '\"' && ParseString(s[1..]) == Ok(key, after)
    requires after != [] && after[0] == ':' && ParseValue(after[1..]) == Ok(v, tail) && tail != []
    ensures tail[0] == '}' ==> ParseMembers(s) == Ok([Member(key, v)], tail[1..])
    ensures tail[0] == ',' && ParseMembers(tail[1..]).Ok? ==>
              ParseMembers(s) == Ok([Member(key, v)] + ParseMembers(tail[1..]).value, ParseMembers(tail[1..]).rest)
  {
  }

  // The parser inverts the printer, whatever follows the value.
  lemma {:induction false} ParsePrint(v: Json, rest: string)
    requires Valid(v) && Delimited(rest)
    ensures ParseValue(Print(v) + rest) == Ok(v, rest)
    decreases v, 1
  {
    match v
    case Null => ParseWord(v, rest);
    case Bool(_) => ParseWord(v, rest);
    case Number(text) => ParseDecimal(text, rest);
    case Str(t) => StrParses(t, rest);
    case Arr(items) =>
      if items == [] {
        EmptyParses(v, rest);
      } else {
        ParsePrintItems(items, rest);
        ArrParses(items, rest);
      }
    case Obj(members) =>
      if members == [] {
        EmptyParses(v, rest);
      } else {
        ParsePrintMembers(members, rest);
        ObjParses(members, rest);
      }
  }

  lemma {:induction false} StrParses(t: string, rest: string)
    ensures ParseValue(Print(Str(t)) + rest) == Ok(Str(t), rest)
  {
    assert Print(Str(t)) + rest == "\"" + (Escape(t) + "\"" + rest);
    ParseQuoted(Escape(t) + "\"" + rest);
    QuotedStringParses(t, rest);
  }

  lemma {:induction false} EmptyParses(v: Json, rest: string)
    requires v == Arr([]) || v == Obj([])
    ensures ParseValue(Print(v) + rest) == Ok(v, rest)
  {
    ParseEmpty(rest);
    assert Print(v) == if v.Arr? then "[]" else "{}";
  }

  lemma {:induction false} ArrParses(items: seq<Json>, rest: string)
    requires items != [] && ParseItems(PrintItems(items) + "]" + rest) == Ok(items, rest)
    requires PrintItems(items) != [] && PrintItems(items)[0] != ']'
    ensures ParseValue(Print(Arr(items)) + rest) == Ok(Arr(items), rest)
  {
    assert Print(Arr(items)) + rest == "[" + (PrintItems(items) + "]" + rest);
    ParseBracket(PrintItems(items) + "]" + rest);
  }

  lemma {:induction false} ObjParses(members: seq<Member>, rest: string)
    requires members != [] && ParseMembers(PrintMembers(members) + "}" + rest) == Ok(members, rest)
    requires PrintMembers(members) != [] && PrintMembers(members)[0] != '}'
    ensures ParseValue(Print(Obj(members)) + rest) == Ok(Obj(members), rest)
  {
    assert Print(Obj(members)) + rest == "{" + (PrintMembers(members) + "}" + rest);
    ParseBrace(PrintMembers(members) + "}" + rest);
  }

  lemma {:induction false} Associate(a: string, b: string, c: string)
    ensures a + (b + c) == a + b + c
  {
  }

  lemma {:induction false} Regroup(a: string, b: string, c: string, d: string)
    ensures a + "," + b + c + d == a + ("," + (b + c + d))
  {
  }

  lemma {:induction false} PrintItemsCons(v: Json, more: seq<Json>)
    ensures PrintItems([v] + more) == if more == [] then Print(v) else Print(v) + "," + PrintItems(more)
  {
    assert ([v] + more)[1..] == more;
  }

  lemma {:induction false} LastItem(text: string, v: Json, rest: string)
    requires ParseValue(text + ("]" + rest)) == Ok(v, "]" + rest)
    ensures ParseItems(text + "]" + rest) == Ok([v], rest)
  {
    ItemsStep(text + ("]" + rest), v, "]" + rest);
    Associate(text, "]", rest);
    assert ("]" + rest)[1..] == rest;
  }

  lemma {:induction false} NextItem(text: string, v: Json, more: string, items: seq<Json>, rest: string)
    requires ParseItems(more + "]" + rest) == Ok(items, rest)
    requires ParseValue(text + ("," + (more + "]" + rest))) == Ok(v, "," + (more + "]" + rest))
    ensures ParseItems(text + "," + more + "]" + rest) == Ok([v] + items, rest)
  {
    var tail := "," + (more + "]" + rest);
    ItemsStep(text + tail, v, tail);
    Regroup(text, more, "]", rest);
    assert tail[1..] == more + "]" + rest;
  }

  lemma {:induction false} ParsePrintItems(items: seq<Json>, rest: string)
    requires items != [] && forall i | 0 <= i < |items| :: Valid(items[i])
    ensures ParseItems(PrintItems(items) + "]" + rest) == Ok(items, rest)
    ensures PrintItems(items) != [] && PrintItems(items)[0] != ']'
    decreases items, 0
  {
    var v, more := items[0], items[1..];
    assert items == [v] + more;
    FirstChar(v);
    PrintItemsCons(v, more);
    if more == [] {
      ParsePrint(v, "]" + rest);
      LastItem(Print(v), v, rest);
      assert items == [v];
    } else {
      ParsePrint(v, "," + (PrintItems(more) + "]" + rest));
      ParsePrintItems(more, rest);
      NextItem(Print(v), v, PrintItems(more), more, rest);
    }
  }

  lemma {:induction false} MemberSpelled(key: string, value: string, tail: string)
    ensures Quote(key) + ":" + value + tail == "\"" + (Escape(key) + "\"" + (":" + (value + tail)))
  {
    Associate(":", value, tail);
    Associate(Quote(key), ":" + value, tail);
    Associate(Quote(key), ":", value);
    Associate("\"", Escape(key) + "\"", ":" + (value + tail));
  }

  lemma {:induction false} MemberText(key: string, v: Json, tail: string)
    ensures PrintMember(Member(key, v)) + tail == "\"" + (Escape(key) + "\"" + (":" + (Print(v) + tail)))
    ensures var s := PrintMember(Member(key, v)) + tail;
            && s[0] == '\"'
            && ParseString(s[1..]) == Ok(key, ":" + (Print(v) + tail))
  {
    var after := ":" + (Print(v) + tail);
    MemberSpelled(key, Print(v), tail);
    var s := "\"" + (Escape(key) + "\"" + after);
    assert s[1..] == Escape(key) + "\"" + after;
    QuotedStringParses(key, after);
  }

  lemma {:induction false} MemberParses(key: string, v: Json, tail: string)
    requires ParseValue(Print(v) + tail) == Ok(v, tail) && tail != []
    ensures var s := PrintMember(Member(key, v)) + tail;
            && (tail[0] == '}' ==> ParseMembers(s) == Ok([Member(key, v)], tail[1..]))
            && (tail[0] == ',' && ParseMembers(tail[1..]).Ok? ==>
                  ParseMembers(s) == Ok([Member(key, v)] + ParseMembers(tail[1..]).value, ParseMembers(tail[1..]).rest))
  {
    MemberText(key, v, tail);
    var after := ":" + (Print(v) + tail);
    assert after[1..] == Print(v) + tail;
    MembersStep(PrintMember(Member(key, v)) + tail, key, after, v, tail);
  }

  lemma {:induction false} LastMember(m: Member, rest: string)
    requires ParseValue(Print(m.value) + ("}" + rest)) == Ok(m.value, "}" + rest)
    ensures ParseMembers(PrintMembers([m]) + "}" + rest) == Ok([m], rest)
    ensures PrintMembers([m]) != [] && PrintMembers([m])[0] == '\"'
  {
    var tail := "}" + rest;
    MemberParses(m.key, m.value, tail);
    assert PrintMembers([m]) + "}" + rest == PrintMember(m) + tail;
    assert tail[1..] == rest;
  }

  lemma {:induction false} NextMember(m: Member, more: seq<Member>, rest: string)
    requires more != []
    requires ParseMembers(PrintMembers(more) + "}" + rest) == Ok(more, rest)
    requires var tail := "," + (PrintMembers(more) + "}" + rest);
             ParseValue(Print(m.value) + tail) == Ok(m.value, tail)
    ensures ParseMembers(PrintMembers([m] + more) + "}" + rest) == Ok([m] + more, rest)
    ensures PrintMembers([m] + more) != [] && PrintMembers([m] + more)[0] == '\"'
  {
    var tail := "," + (PrintMembers(more) + "}" + rest);
    MemberParses(m.key, m.value, tail);
    assert ([m] + more)[1..] == more;
    assert PrintMembers([m] + more) == PrintMember(m) + "," + PrintMembers(more);
    Regroup(PrintMember(m), PrintMembers(more), "}", rest);
    assert tail[1..] == PrintMembers(more) + "}" + rest;
  }

  lemma {:induction false} ParsePrintMembers(members: seq<Member>, rest: string)
    requires members != [] && forall i | 0 <= i < |members| :: Valid(members[i].value)
    ensures ParseMembers(PrintMembers(members) + "}" + rest) == Ok(members, rest)
    ensures PrintMembers(members) != [] && PrintMembers(members)[0] == '\"'
    decreases members, 0
  {
    if |members| == 1 {
      assert members == [members[0]];
      ParsePrint(members[0].value, "}" + rest);
      LastMember(members[0], rest);
    } else {
      assert members == [members[0]] + members[1..];
      ParsePrint(members[0].value, "," + (PrintMembers(members[1..]) + "}" + rest));
      ParsePrintMembers(members[1..], rest);
      NextMember(members[0], members[1..], rest);
    }
  }
}
