// Loading of the weighted workload, and the choice of a case for an ordinal.

module Workload {
  import opened Wrappers
  import opened Basics
  import opened Selection
  import opened Histogram

  // Only cases with a nonzero profile count take part.
  datatype OracleCase = OracleCase(classification: string, count: nat, logitHex: seq<string>)
  datatype WeightedCase = WeightedCase(upperBound: nat, logits: seq<nat>)
  datatype LoadResult = Loaded(cases: seq<WeightedCase>, totalWeight: nat) | LoadFailed(message: string)

  // ------------------------------------------------------------ logit decoding

  // The value of a string of hex digits, if it is one.
  function ParseHex(s: string): Option<nat> {
    if s == [] then Some(0)
    else
      var high, low := ParseHex(s[..|s| - 1]), HexValue(s[|s| - 1]);
      if high.None? || low.None? then None else Some(high.value * 16 + low.value)
  }

  // What the standard radix-16 parser accepts: an optional plus sign and at
  // least one digit, in either case.
  function FromRadix16(s: string): Option<nat> {
    if s == [] || s == "+" then None
    else if s[0] == '+' then ParseHex(s[1..])
    else ParseHex(s)
  }

  // A finite binary32 has some exponent bit clear.
  predicate IsFinite(bits: nat) {
    bits / 0x80_0000 % 0x100 != 0xFF
  }

  // The check: eight characters, a number, and a finite one.
  predicate DecodesLogit(encoded: string) {
    |encoded| == 8 && FromRadix16(encoded).Some? && IsFinite(FromRadix16(encoded).value)
  }

  predicate IsHexDigit(c: char) {
    HexValue(c).Some?
  }

  predicate IsLowerHexDigit(c: char) {
    '0' <= c <= '9' || 'a' <= c <= 'f'
  }

  lemma {:induction false} ParseHexAccepts(s: string)
    ensures ParseHex(s).Some? <==> forall i | 0 <= i < |s| :: IsHexDigit(s[i])
  {
    if s != [] {
      ParseHexAccepts(s[..|s| - 1]);
      assert s == s[..|s| - 1] + [s[|s| - 1]];
    }
  }

  function Power16(n: nat): nat {
    if n == 0 then 1 else 16 * Power16(n - 1)
  }

  // Eight characters, each a hex digit but for a plus sign that may lead.
  predicate IsEncoding(encoded: string) {
    |encoded| == 8 && forall i | 0 <= i < 8 :: IsHexDigit(encoded[i]) || (i == 0 && encoded[i] == '+')
  }

  lemma {:induction false} RadixAccepts(encoded: string)
    requires |encoded| == 8
    ensures FromRadix16(encoded).Some? <==> IsEncoding(encoded)
  {
    ParseHexAccepts(encoded);
    ParseHexAccepts(encoded[1..]);
    assert encoded == [encoded[0]] + encoded[1..];
    assert encoded[0] == '+' ==> !IsHexDigit(encoded[0]);
  }

  // The value of a text splits where the text is split, and a text of n digits
  // has a value below 16^n.
  lemma {:induction false} ParseHexSplits(s: string, k: nat)
    requires k <= |s| && ParseHex(s).Some?
    ensures ParseHex(s[..k]).Some? && ParseHex(s[k..]).Some?
    ensures ParseHex(s).value == ParseHex(s[..k]).value * Power16(|s| - k) + ParseHex(s[k..]).value
    ensures ParseHex(s[k..]).value < Power16(|s| - k)
    decreases |s|
  {
    if k == |s| {
      assert s[..k] == s;
    } else {
      var front := s[..|s| - 1];
      ParseHexSplits(front, k);
      assert front[..k] == s[..k] && front[k..] == s[k..][..|s| - k - 1];
      TimesSixteen(ParseHex(s[..k]).value, Power16(|front| - k));
    }
  }

  lemma {:induction false} TimesSixteen(x: nat, y: nat)
    ensures x * (16 * y) == x * y * 16
  {
  }

  // The bit pattern of an infinity or a NaN: sign and exponent lie in the first
  // three of eight digits.
  predicate HasFullExponent(s: string)
    requires |s| >= 3
  {
    && IsHexDigit(s[0]) && IsHexDigit(s[1]) && IsHexDigit(s[2])
    && HexValue(s[0]).value % 8 == 7 && HexValue(s[1]).value == 15 && HexValue(s[2]).value >= 8
  }

  lemma {:induction false} ExponentBits(x: nat, y: nat, z: nat, low: nat)
    requires x < 16 && y < 16 && z < 16 && low < 0x10_0000
    ensures IsFinite(((x * 16 + y) * 16 + z) * 0x10_0000 + low) <==> !(x % 8 == 7 && y == 15 && z >= 8)
  {
    var high := x * 32 + y * 2 + z / 8;
    var bits := high * 0x80_0000 + (z % 8 * 0x10_0000 + low);
    assert bits == ((x * 16 + y) * 16 + z) * 0x10_0000 + low;
    assert bits / 0x80_0000 == high;
    assert high % 0x100 == x % 8 * 32 + y * 2 + z / 8;
  }

  lemma {:induction false} EightDigits(s: string)
    requires |s| == 8 && ParseHex(s).Some?
    ensures IsFinite(ParseHex(s).value) <==> !HasFullExponent(s)
  {
    ParseHexAccepts(s);
    ParseHexSplits(s, 3);
    assert IsHexDigit(s[0]) && IsHexDigit(s[1]) && IsHexDigit(s[2]);
    assert s[..3][..2] == s[..2] && s[..2][..1] == s[..1] && s[..1][..0] == "";
    var x, y, z := HexValue(s[0]).value, HexValue(s[1]).value, HexValue(s[2]).value;
    assert ParseHex(s[..1]) == Some(x);
    assert ParseHex(s[..2]) == Some(x * 16 + y);
    assert ParseHex(s[..3]) == Some((x * 16 + y) * 16 + z);
    assert Power16(5) == 0x10_0000;
    ExponentBits(x, y, z, ParseHex(s[3..]).value);
  }

  lemma {:induction false} SevenDigits(s: string)
    requires |s| == 7 && ParseHex(s).Some?
    ensures IsFinite(ParseHex(s).value)
  {
    ParseHexSplits(s, 0);
    assert s[0..] == s && s[..0] == "";
    assert Power16(7) == 0x1000_0000;
  }

  // The error message promises eight lower-case digits. The check admits
  // either case and a leading plus sign with seven digits, and of these
  // exactly the ones that do not spell an infinity or a NaN.
  lemma {:induction false} EncodingsAdmitted(encoded: string)
    ensures DecodesLogit(encoded) <==> IsEncoding(encoded) && !HasFullExponent(encoded)
  {
    if |encoded| == 8 {
      RadixAccepts(encoded);
      if ParseHex(encoded).Some? {
        EightDigits(encoded);
      }
      if ParseHex(encoded[1..]).Some? {
        SevenDigits(encoded[1..]);
      }
    }
  }

  lemma {:induction false} EncodingCheckIsLaxerThanItsMessage()
    ensures DecodesLogit("+0000000") && !IsLowerHexDigit("+0000000"[0])
    ensures DecodesLogit("3F800000") && !IsLowerHexDigit("3F800000"[1])
  {
    EncodingsAdmitted("+0000000");
    EncodingsAdmitted("3F800000");
  }

  // ------------------------------------------------------------ the acceptance

  predicate TakesPart(c: OracleCase) {
    c.count > 0
  }

  function Kept(cases: seq<OracleCase>): seq<OracleCase> {
    Filter(cases, TakesPart)
  }

  // The kept cases are those of the file with a positive count, in order.
  lemma {:induction false} KeptIsSelected(cases: seq<OracleCase>) returns (at: seq<nat>)
    ensures |at| == |Kept(cases)| && forall k | 0 <= k < |at| :: at[k] < |cases| && Kept(cases)[k] == cases[at[k]]
    ensures forall k, l | 0 <= k < l < |at| :: at[k] < at[l]
    ensures forall i: nat | i < |cases| :: i in at <==> cases[i].count > 0
  {
    at := FilterSelects(cases, TakesPart);
  }

  function Counts(kept: seq<OracleCase>): (c: seq<nat>)
    ensures |c| == |kept| && forall i | 0 <= i < |c| :: c[i] == kept[i].count
  {
    seq(|kept|, i requires 0 <= i < |kept| => kept[i].count)
  }

  function WidthMap(kept: seq<OracleCase>): map<nat, nat> {
    if kept == [] then map[]
    else
      var last := kept[|kept| - 1];
      WidthMap(kept[..|kept| - 1])[|last.logitHex| := last.count]
  }

  function HistogramMap(h: seq<Entry>): map<nat, nat> {
    if h == [] then map[]
    else HistogramMap(h[..|h| - 1])[h[|h| - 1].width := h[|h| - 1].count]
  }

  predicate CaseOk(c: OracleCase) {
    && c.classification == "width-profile-representative"
    && (forall i | 0 <= i < |c.logitHex| :: DecodesLogit(c.logitHex[i]))
    && 1 <= |c.logitHex| <= 64
  }

  predicate CasesOk(kept: seq<OracleCase>) {
    && (forall i | 0 <= i < |kept| :: CaseOk(kept[i]))
    && forall i, j | 0 <= i < j < |kept| :: |kept[i].logitHex| != |kept[j].logitHex|
  }

  function EntryOf(c: OracleCase): Entry {
    Entry(|c.logitHex|, c.count)
  }

  // One case for each entry of the histogram, and no other.
  ghost predicate Represents(kept: seq<OracleCase>, h: seq<Entry>) {
    && (forall i | 0 <= i < |kept| :: EntryOf(kept[i]) in h)
    && forall j | 0 <= j < |h| :: HasCase(kept, h[j])
  }

  ghost predicate HasCase(kept: seq<OracleCase>, e: Entry) {
    exists i :: 0 <= i < |kept| && e == EntryOf(kept[i])
  }

  // One representative case per width, with exactly the profile's counts.
  ghost predicate Acceptable(h: seq<Entry>, sampleCount: nat, kept: seq<OracleCase>) {
    && CasesOk(kept)
    && Represents(kept, h)
    && Cumulative(Counts(kept), |kept|) == sampleCount
  }

  function DecodedLogits(c: OracleCase): (bits: seq<nat>)
    requires CaseOk(c)
    ensures |bits| == |c.logitHex| && forall i | 0 <= i < |bits| :: Some(bits[i]) == FromRadix16(c.logitHex[i])
  {
    seq(|c.logitHex|, i requires 0 <= i < |c.logitHex| => FromRadix16(c.logitHex[i]).value)
  }

  ghost predicate Carried(w: WeightedCase, kept: seq<OracleCase>, i: nat)
    requires i < |kept| && CaseOk(kept[i])
  {
    w.upperBound == Cumulative(Counts(kept), i + 1) && w.logits == DecodedLogits(kept[i])
  }

  // The loaded cases carry the running totals of the kept counts.
  ghost predicate Carries(w: seq<WeightedCase>, kept: seq<OracleCase>) {
    |w| == |kept| && CasesOk(kept) && forall i | 0 <= i < |w| :: Carried(w[i], kept, i)
  }

  lemma {:induction false} WidthMapKeys(kept: seq<OracleCase>, width: nat)
    ensures width in WidthMap(kept) <==> exists i :: 0 <= i < |kept| && |kept[i].logitHex| == width
  {
    if kept != [] {
      var prefix := kept[..|kept| - 1];
      WidthMapKeys(prefix, width);
      assert kept == prefix + [kept[|kept| - 1]];
    }
  }

  lemma {:induction false} HistogramMapKeys(h: seq<Entry>, width: nat)
    ensures width in HistogramMap(h) <==> exists j :: 0 <= j < |h| && h[j].width == width
  {
    if h != [] {
      var prefix := h[..|h| - 1];
      HistogramMapKeys(prefix, width);
      assert h == prefix + [h[|h| - 1]];
    }
  }

  lemma {:induction false} HistogramMapAt(h: seq<Entry>, j: nat)
    requires j < |h| && Admitted(h)
    ensures h[j].width in HistogramMap(h) && HistogramMap(h)[h[j].width] == h[j].count
  {
    var n := |h| - 1;
    AdmittedPrefix(h, n);
    if j < n {
      HistogramMapAt(h[..n], j);
      assert h[..n][j] == h[j] && h[j].width < h[n].width;
    }
  }

  lemma {:induction false} WidthMapAt(kept: seq<OracleCase>, i: nat)
    requires i < |kept| && CasesOk(kept)
    ensures |kept[i].logitHex| in WidthMap(kept) && WidthMap(kept)[|kept[i].logitHex|] == kept[i].count
  {
    var n := |kept| - 1;
    CasesOkPrefix(kept, kept[..n]);
    if i < n {
      assert |kept[i].logitHex| != |kept[n].logitHex|;
      WidthMapAt(kept[..n], i);
      assert kept[..n][i] == kept[i];
    }
  }

  lemma {:induction false} SameMapsRepresent(kept: seq<OracleCase>, h: seq<Entry>)
    requires CasesOk(kept) && Admitted(h) && WidthMap(kept) == HistogramMap(h)
    ensures Represents(kept, h)
  {
    forall i | 0 <= i < |kept| ensures EntryOf(kept[i]) in h {
      WidthMapAt(kept, i);
      HistogramMapKeys(h, |kept[i].logitHex|);
      var j: nat :| j < |h| && h[j].width == |kept[i].logitHex|;
      HistogramMapAt(h, j);
      assert h[j] == EntryOf(kept[i]);
    }
    forall j | 0 <= j < |h| ensures HasCase(kept, h[j]) {
      HistogramMapAt(h, j);
      WidthMapKeys(kept, h[j].width);
      var i: nat :| i < |kept| && |kept[i].logitHex| == h[j].width;
      WidthMapAt(kept, i);
      assert h[j] == EntryOf(kept[i]);
    }
  }

  lemma {:induction false} CaseIsCounted(kept: seq<OracleCase>, h: seq<Entry>, width: nat)
    requires CasesOk(kept) && Admitted(h) && Represents(kept, h) && width in WidthMap(kept)
    ensures width in HistogramMap(h) && WidthMap(kept)[width] == HistogramMap(h)[width]
  {
    WidthMapKeys(kept, width);
    var i: nat :| i < |kept| && |kept[i].logitHex| == width;
    var j: nat :| j < |h| && h[j] == EntryOf(kept[i]);
    WidthMapAt(kept, i);
    HistogramMapAt(h, j);
  }

  lemma {:induction false} EntryHasCase(kept: seq<OracleCase>, h: seq<Entry>, width: nat)
    requires Represents(kept, h) && width in HistogramMap(h)
    ensures width in WidthMap(kept)
  {
    HistogramMapKeys(h, width);
    var j: nat :| j < |h| && h[j].width == width;
    assert HasCase(kept, h[j]);
    WidthMapKeys(kept, width);
  }

  lemma {:induction false} RepresentingMapsAgree(kept: seq<OracleCase>, h: seq<Entry>)
    requires CasesOk(kept) && Admitted(h) && Represents(kept, h)
    ensures WidthMap(kept) == HistogramMap(h)
  {
    forall width | width in WidthMap(kept)
      ensures width in HistogramMap(h) && WidthMap(kept)[width] == HistogramMap(h)[width]
    {
      CaseIsCounted(kept, h, width);
    }
    forall width | width in HistogramMap(h) ensures width in WidthMap(kept) {
      EntryHasCase(kept, h, width);
    }
  }

  // Comparing the maps decides it.
  lemma {:induction false} MapsDecide(kept: seq<OracleCase>, h: seq<Entry>)
    requires CasesOk(kept) && Admitted(h)
    ensures WidthMap(kept) == HistogramMap(h) <==> Represents(kept, h)
  {
    if WidthMap(kept) == HistogramMap(h) {
      SameMapsRepresent(kept, h);
    }
    if Represents(kept, h) {
      RepresentingMapsAgree(kept, h);
    }
  }

  lemma {:induction false} CumulativePrefix(a: seq<nat>, b: seq<nat>, n: nat)
    requires n <= |a| && n <= |b| && a[..n] == b[..n]
    ensures Cumulative(a, n) == Cumulative(b, n)
  {
    if n > 0 {
      assert a[n - 1] == a[..n][n - 1] == b[n - 1];
      assert a[..n - 1] == a[..n][..n - 1] && b[..n - 1] == b[..n][..n - 1];
      CumulativePrefix(a, b, n - 1);
    }
  }

  lemma {:induction false} CountsAppend(kept: seq<OracleCase>, c: OracleCase)
    ensures Counts(kept + [c]) == Counts(kept) + [c.count]
  {
  }

  lemma {:induction false} CumulativeAppend(counts: seq<nat>, count: nat, i: nat)
    requires i <= |counts|
    ensures Cumulative(counts + [count], i) == Cumulative(counts, i)
  {
    assert (counts + [count])[..i] == counts[..i];
    CumulativePrefix(counts + [count], counts, i);
  }

  lemma {:induction false} TotalAppend(kept: seq<OracleCase>, c: OracleCase)
    ensures Cumulative(Counts(kept + [c]), |kept| + 1) == Cumulative(Counts(kept), |kept|) + c.count
  {
    CountsAppend(kept, c);
    CumulativeAppend(Counts(kept), c.count, |kept|);
  }

  lemma {:induction false} WidthMapAppend(kept: seq<OracleCase>, c: OracleCase)
    ensures WidthMap(kept + [c]) == WidthMap(kept)[|c.logitHex| := c.count]
  {
    assert (kept + [c])[..|kept|] == kept;
  }

  // A case joins an acceptable list exactly when it is fine and new in width.
  lemma {:induction false} CasesOkAppend(kept: seq<OracleCase>, c: OracleCase)
    requires CasesOk(kept)
    ensures CasesOk(kept + [c]) <==> CaseOk(c) && |c.logitHex| !in WidthMap(kept)
  {
    var more := kept + [c];
    assert more[|kept|] == c && forall i | 0 <= i < |kept| :: more[i] == kept[i];
    WidthMapKeys(kept, |c.logitHex|);
  }

  lemma {:induction false} OldBoundStays(kept: seq<OracleCase>, c: OracleCase, i: nat)
    requires i < |kept|
    ensures Cumulative(Counts(kept + [c]), i + 1) == Cumulative(Counts(kept), i + 1)
  {
    CountsAppend(kept, c);
    CumulativeAppend(Counts(kept), c.count, i + 1);
  }

  lemma {:induction false} CarryOne(w: seq<WeightedCase>, kept: seq<OracleCase>, c: OracleCase, total: nat)
    requires Carries(w, kept) && CasesOk(kept + [c]) && CaseOk(c)
    requires total == Cumulative(Counts(kept), |kept|) + c.count
    ensures Carries(w + [WeightedCase(total, DecodedLogits(c))], kept + [c])
  {
    var more, all := w + [WeightedCase(total, DecodedLogits(c))], kept + [c];
    assert all[|kept|] == c && forall i | 0 <= i < |kept| :: all[i] == kept[i];
    forall i | 0 <= i < |more|
      ensures Carried(more[i], all, i)
    {
      if i < |w| {
        assert Carried(w[i], kept, i);
        OldBoundStays(kept, c, i);
      } else {
        TotalAppend(kept, c);
      }
    }
  }

  // Processing a case with a positive count appends it to the kept ones,
  // which stay the first kept cases of the whole file.
  lemma {:induction false} KeptStep(cases: seq<OracleCase>, n: nat)
    requires n < |cases|
    ensures cases[n].count == 0 ==> Kept(cases[..n + 1]) == Kept(cases[..n])
    ensures cases[n].count > 0 ==> Kept(cases[..n + 1]) == Kept(cases[..n]) + [cases[n]]
  {
    assert cases[..n + 1][..n] == cases[..n];
  }

  lemma {:induction false} KeptGrows(cases: seq<OracleCase>, n: nat)
    requires n <= |cases|
    ensures Kept(cases[..n]) <= Kept(cases)
    decreases |cases| - n
  {
    if n == |cases| {
      assert cases[..n] == cases;
    } else {
      KeptGrows(cases, n + 1);
      KeptStep(cases, n);
    }
  }

  lemma {:induction false} CasesOkPrefix(kept: seq<OracleCase>, first: seq<OracleCase>)
    requires first <= kept && CasesOk(kept)
    ensures CasesOk(first)
  {
    assert forall i | 0 <= i < |first| :: first[i] == kept[i];
  }

  lemma {:induction false} TotalPrefix(kept: seq<OracleCase>, first: seq<OracleCase>)
    requires first <= kept
    ensures Cumulative(Counts(first), |first|) <= Cumulative(Counts(kept), |kept|)
  {
    assert Counts(first)[..|first|] == Counts(kept)[..|first|];
    CumulativePrefix(Counts(first), Counts(kept), |first|);
    CumulativeMonotone(Counts(kept), |first|, |kept|);
  }

  // A case that breaks one of the per-case checks rules the whole file out.
  lemma {:induction false} Refuted(h: seq<Entry>, sampleCount: nat, cases: seq<OracleCase>, n: nat)
    requires n < |cases| && cases[n].count > 0
    requires var first := Kept(cases[..n]) + [cases[n]];
             !CasesOk(first) || Cumulative(Counts(first), |first|) > sampleCount
    ensures !Acceptable(h, sampleCount, Kept(cases))
  {
    var first, kept := Kept(cases[..n]) + [cases[n]], Kept(cases);
    KeptStep(cases, n);
    KeptGrows(cases, n + 1);
    TotalPrefix(kept, first);
    if CasesOk(kept) {
      CasesOkPrefix(kept, first);
    }
  }

  method DecodeCase(c: OracleCase) returns (logits: seq<nat>, ok: bool)
    ensures ok <==> forall i | 0 <= i < |c.logitHex| :: DecodesLogit(c.logitHex[i])
    ensures ok ==> |logits| == |c.logitHex|
                   && forall i | 0 <= i < |logits| :: Some(logits[i]) == FromRadix16(c.logitHex[i])
  {
    logits, ok := [], true;
    for i := 0 to |c.logitHex|
      invariant |logits| == i && forall k | 0 <= k < i :: Some(logits[k]) == FromRadix16(c.logitHex[k])
      invariant forall k | 0 <= k < i :: DecodesLogit(c.logitHex[k])
    {
      if !DecodesLogit(c.logitHex[i]) {
        return logits, false;
      }
      logits := logits + [FromRadix16(c.logitHex[i]).value];
    }
  }

  datatype Progress = Progress(cases: seq<WeightedCase>, actual: map<nat, nat>, cumulative: nat)

  ghost predicate Tracks(p: Progress, kept: seq<OracleCase>) {
    && Carries(p.cases, kept)
    && p.actual == WidthMap(kept)
    && p.cumulative == Cumulative(Counts(kept), |kept|)
  }

  // One round of the loading loop, for a case with a positive count.
  method LoadCase(p: Progress, c: OracleCase, ghost kept: seq<OracleCase>)
    returns (next: Progress, failure: string)
    requires Tracks(p, kept)
    ensures failure == "" ==> Tracks(next, kept + [c])
    ensures failure != "" ==> !CasesOk(kept + [c]) || Cumulative(Counts(kept + [c]), |kept| + 1) >= U64_LIMIT
  {
    next := p;
    CasesOkAppend(kept, c);
    TotalAppend(kept, c);
    WidthMapAppend(kept, c);
    if c.classification != "width-profile-representative" {
      return next, "weighted workload case has a non-profile classification";
    }
    var logits, ok := DecodeCase(c);
    if !ok {
      return next, "workload logit encoding is invalid";
    } else if !(1 <= |logits| <= 64) {
      return next, "weighted workload width is outside 1..64";
    } else if |logits| in p.actual {
      return next, "width profile has duplicate representative cases";
    } else if p.cumulative + c.count >= U64_LIMIT {
      return next, "workload cumulative count overflow";
    }
    CarryOne(p.cases, kept, c, p.cumulative + c.count);
    assert logits == DecodedLogits(c);
    next := Progress(p.cases + [WeightedCase(p.cumulative + c.count, logits)],
                     p.actual[|logits| := c.count], p.cumulative + c.count);
    failure := "";
  }

  // The profile's histogram is admitted and has the statistics it states.
  ghost predicate ProfileMatches(h: seq<Entry>, stated: Statistics) {
    var sample := Expand(h);
    && h != [] && Admitted(h) && 95 * |sample| + 99 < U64_LIMIT
    && stated.sampleCount == |sample| > 0
    && IsP95(sample, stated.nearestRankP95)
    && IsMaximum(sample, stated.maximum)
  }

  lemma {:induction false} StatisticsAreUnique(sample: seq<nat>, x: nat, y: nat, m: nat, n: nat)
    requires IsP95(sample, x) && IsMaximum(sample, m)
    ensures IsP95(sample, y) <==> y == x
    ensures IsMaximum(sample, n) <==> n == m
  {
    if IsP95(sample, y) {
      P95IsUnique(sample, x, y);
    }
  }

  // Loading succeeds exactly on files of the right schema whose profile has
  // the statistics it states and whose cases represent it.
  method LoadWorkload(schema: nat, h: seq<Entry>, stated: Statistics, cases: seq<OracleCase>) returns (r: LoadResult)
    ensures r.Loaded? <==> schema == 2 && ProfileMatches(h, stated) && Acceptable(h, stated.sampleCount, Kept(cases))
    ensures r.Loaded? ==> Carries(r.cases, Kept(cases)) && r.totalWeight == stated.sampleCount > 0
  {
    if schema != 2 {
      return LoadFailed("fast sampler oracle schema 2 is required");
    }
    var calculated := ProfileStatistics(h);
    if calculated.Rejected? {
      return LoadFailed("width profile histogram is rejected");
    }
    StatisticsAreUnique(Expand(h), calculated.statistics.nearestRankP95, stated.nearestRankP95,
                        calculated.statistics.maximum, stated.maximum);
    if calculated.statistics.sampleCount != stated.sampleCount
       || calculated.statistics.nearestRankP95 != stated.nearestRankP95
       || calculated.statistics.maximum != stated.maximum
    {
      return LoadFailed("width profile statistics do not match its histogram");
    }
    r := LoadCases(h, stated.sampleCount, cases);
  }

  method LoadCases(h: seq<Entry>, sampleCount: nat, cases: seq<OracleCase>) returns (r: LoadResult)
    requires 0 < sampleCount < U64_LIMIT && Admitted(h)
    ensures r.Loaded? <==> Acceptable(h, sampleCount, Kept(cases))
    ensures r.Loaded? ==> Carries(r.cases, Kept(cases)) && r.totalWeight == sampleCount
  {
    var p := Progress([], map[], 0);
    assert cases[..|cases|] == cases;
    for n := 0 to |cases|
      invariant Tracks(p, Kept(cases[..n]))
    {
      KeptStep(cases, n);
      if cases[n].count == 0 {
        continue;
      }
      var next, failure := LoadCase(p, cases[n], Kept(cases[..n]));
      if failure != "" {
        Refuted(h, sampleCount, cases, n);
        return LoadFailed(failure);
      }
      p := next;
    }
    MapsDecide(Kept(cases), h);
    if p.actual != HistogramMap(h) || p.cumulative != sampleCount {
      return LoadFailed("weighted cases do not exactly match the width profile histogram");
    }
    return Loaded(p.cases, p.cumulative);
  }

  // ------------------------------------------------------------ serving ordinals

  // The last bound of a workload is its total weight.
  predicate Serves(w: seq<WeightedCase>, totalWeight: nat) {
    w != [] && totalWeight > 0 && w[|w| - 1].upperBound == totalWeight
  }

  // The first case whose bound exceeds the reduced ordinal; there always is one.
  method LogitsFor(w: seq<WeightedCase>, totalWeight: nat, ordinal: nat) returns (i: nat, logits: seq<nat>)
    requires Serves(w, totalWeight)
    ensures i < |w| && logits == w[i].logits && ordinal % totalWeight < w[i].upperBound
    ensures forall k | 0 <= k < i :: w[k].upperBound <= ordinal % totalWeight
  {
    var target := ordinal % totalWeight;
    i := 0;
    while target >= w[i].upperBound
      invariant i < |w| && forall k | 0 <= k < i :: w[k].upperBound <= target
      decreases |w| - i
    {
      i := i + 1;
    }
    logits := w[i].logits;
  }

  // The bounds before a case are at most the cumulative count up to it.
  lemma {:induction false} BoundsBefore(w: seq<WeightedCase>, kept: seq<OracleCase>, i: nat)
    requires Carries(w, kept) && i < |w|
    ensures forall k | 0 <= k < i :: w[k].upperBound <= Cumulative(Counts(kept), i)
    ensures i > 0 ==> w[i - 1].upperBound == Cumulative(Counts(kept), i)
    ensures w[i].upperBound == Cumulative(Counts(kept), i + 1)
  {
    BoundIsCumulative(w, kept, i);
    if i > 0 {
      BoundIsCumulative(w, kept, i - 1);
    }
    forall k | 0 <= k < i ensures w[k].upperBound <= Cumulative(Counts(kept), i) {
      BoundIsCumulative(w, kept, k);
      CumulativeMonotone(Counts(kept), k + 1, i);
    }
  }

  // After a load the case served is the one whose interval of the cumulative
  // counts holds the reduced ordinal.
  lemma {:induction false} ServedCase(w: seq<WeightedCase>, kept: seq<OracleCase>, target: nat, i: nat)
    requires Carries(w, kept) && i < |w|
    ensures Picks(Counts(kept), target, i) <==>
            target < w[i].upperBound && forall k | 0 <= k < i :: w[k].upperBound <= target
  {
    BoundsBefore(w, kept, i);
  }

  lemma {:induction false} LoadedServes(w: seq<WeightedCase>, kept: seq<OracleCase>)
    requires Carries(w, kept) && Cumulative(Counts(kept), |kept|) > 0
    ensures Serves(w, Cumulative(Counts(kept), |kept|))
  {
    BoundIsCumulative(w, kept, |w| - 1);
  }

  lemma {:induction false} BoundIsCumulative(w: seq<WeightedCase>, kept: seq<OracleCase>, k: nat)
    requires Carries(w, kept) && k < |w|
    ensures w[k].upperBound == Cumulative(Counts(kept), k + 1)
  {
    assert Carried(w[k], kept, k);
  }

  // How many ordinals of a window satisfy p.
  ghost function Hits(p: nat -> bool, start: nat, length: nat): nat {
    if length == 0 then 0
    else Hits(p, start, length - 1) + if p(start + length - 1) then 1 else 0
  }

  ghost function Chooses(counts: seq<nat>, i: nat): nat -> bool
    requires Cumulative(counts, |counts|) > 0
  {
    o => Picks(counts, o % Cumulative(counts, |counts|), i)
  }

  lemma {:induction false} Scale(a: nat, b: nat, m: nat)
    ensures a <= b ==> a * m <= b * m
  {
  }

  lemma {:induction false} QuotientIsUnique(q: nat, r: nat, p: nat, s: nat, m: nat)
    requires q * m + r == p * m + s && r < m && s < m
    ensures r == s
  {
    Scale(q + 1, p, m);
    Scale(p + 1, q, m);
  }

  lemma {:induction false} AddModulus(x: nat, m: nat)
    requires m > 0
    ensures (x + m) % m == x % m
  {
    QuotientIsUnique(x / m + 1, x % m, (x + m) / m, (x + m) % m, m);
  }

  lemma {:induction false} ModBelow(x: nat, m: nat)
    requires x < m
    ensures x % m == x
  {
  }

  // A predicate that holds on one interval has the interval's length of hits.
  lemma {:induction false} IntervalHits(p: nat -> bool, lo: nat, hi: nat, length: nat)
    requires lo <= hi && forall o: nat | o < length :: p(o) <==> lo <= o < hi
    ensures Hits(p, 0, length) == Min(length, hi) - Min(length, lo)
  {
    if length > 0 {
      IntervalHits(p, lo, hi, length - 1);
    }
  }

  lemma {:induction false} FirstWindow(counts: seq<nat>, i: nat)
    requires Cumulative(counts, |counts|) > 0 && i < |counts|
    ensures Hits(Chooses(counts, i), 0, Cumulative(counts, |counts|)) == counts[i]
  {
    var total, chooses := Cumulative(counts, |counts|), Chooses(counts, i);
    var lo, hi := Cumulative(counts, i), Cumulative(counts, i + 1);
    CumulativeMonotone(counts, i + 1, |counts|);
    forall o: nat | o < total ensures chooses(o) <==> lo <= o < hi {
      ModBelow(o, total);
    }
    IntervalHits(chooses, lo, hi, total);
  }

  // Sliding a window trades the ordinal that leaves for the one that enters.
  lemma {:induction false} SlideWindow(p: nat -> bool, start: nat, length: nat)
    ensures Hits(p, start + 1, length) + (if p(start) then 1 else 0) ==
            Hits(p, start, length) + if p(start + length) then 1 else 0
  {
    if length > 0 {
      SlideWindow(p, start, length - 1);
      assert start + 1 + length - 1 == start + length;
    }
  }

  lemma {:induction false} ChoiceIsPeriodic(counts: seq<nat>, o: nat, i: nat)
    requires Cumulative(counts, |counts|) > 0
    ensures Chooses(counts, i)(o + Cumulative(counts, |counts|)) == Chooses(counts, i)(o)
  {
    AddModulus(o, Cumulative(counts, |counts|));
  }

  // In every window of totalWeight consecutive ordinals, wherever it starts,
  // each case is chosen exactly its histogram count of times.
  lemma {:induction false} WindowIsExact(counts: seq<nat>, start: nat, i: nat)
    requires Cumulative(counts, |counts|) > 0 && i < |counts|
    ensures Hits(Chooses(counts, i), start, Cumulative(counts, |counts|)) == counts[i]
  {
    if start == 0 {
      FirstWindow(counts, i);
    } else {
      WindowIsExact(counts, start - 1, i);
      ChoiceIsPeriodic(counts, start - 1, i);
      SlideWindow(Chooses(counts, i), start - 1, Cumulative(counts, |counts|));
    }
  }

  // Together: an accepted case is chosen as often per window as the profile's
  // histogram counts its width.
  lemma {:induction false} ServedAsProfiled(
    h: seq<Entry>, sampleCount: nat, kept: seq<OracleCase>, start: nat, i: nat) returns (j: nat)
    requires Acceptable(h, sampleCount, kept) && i < |kept| && sampleCount > 0
    ensures j < |h| && h[j].width == |kept[i].logitHex|
    ensures Hits(Chooses(Counts(kept), i), start, sampleCount) == h[j].count
  {
    j :| 0 <= j < |h| && h[j] == EntryOf(kept[i]);
    WindowIsExact(Counts(kept), start, i);
  }
}
