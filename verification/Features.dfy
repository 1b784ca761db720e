// Feature names and the environment variables Cargo sets for them.

module Features {
  import opened Wrappers
  import opened Basics
  import opened Sorting
  import opened Window
  import Shuffle

  const PRODUCTION := "native-training-store-v2-production"
  const PREFIX := "CARGO_FEATURE_"

  function NormalizeChar(c: char): char {
    if c == '-' then '_' else if 'a' <= c <= 'z' then c - 'a' + 'A' else c
  }

  function Normalize(name: string): (r: string)
    ensures |r| == |name|
  {
    seq(|name|, i requires 0 <= i < |name| => NormalizeChar(name[i]))
  }

  predicate IsNameChar(c: char) {
    '0' <= c <= '9' || 'A' <= c <= 'Z' || 'a' <= c <= 'z' || c == '_' || c == '-'
  }

  predicate IsFeatureName(name: string) {
    name != "" && forall i | 0 <= i < |name| :: IsNameChar(name[i])
  }

  // ------------------------------------------------------------ alike names

  // A variable name tells neither '-' from '_' nor the cases of a letter apart.
  predicate AlikeChars(c: char, d: char) {
    || c == d
    || (c == '-' && d == '_') || (c == '_' && d == '-')
    || CasesOf(c, d) || CasesOf(d, c)
  }

  predicate AlikeNames(a: string, b: string) {
    |a| == |b| && forall i | 0 <= i < |a| :: AlikeChars(a[i], b[i])
  }

  predicate IsVariableChar(c: char) {
    'A' <= c <= 'Z' || '0' <= c <= '9' || c == '_'
  }

  // The text that stands for a feature in the name of a variable.
  predicate Spells(s: string, name: string) {
    AlikeNames(s, name) && forall i | 0 <= i < |s| :: IsVariableChar(s[i])
  }

  lemma {:induction false} AlikeCharsNormalize(c: char, d: char)
    ensures NormalizeChar(c) == NormalizeChar(d) <==> AlikeChars(c, d)
    ensures IsVariableChar(c) ==> NormalizeChar(c) == c
    ensures IsNameChar(c) ==> IsVariableChar(NormalizeChar(c)) && AlikeChars(NormalizeChar(c), c)
  {
  }

  lemma {:induction false} AlikeNamesNormalize(a: string, b: string)
    ensures Normalize(a) == Normalize(b) <==> AlikeNames(a, b)
  {
    if |a| == |b| {
      forall i | 0 <= i < |a| ensures Normalize(a)[i] == Normalize(b)[i] <==> AlikeChars(a[i], b[i]) {
        AlikeCharsNormalize(a[i], b[i]);
      }
    }
  }

  // Each feature name has one such text, its normalisation.
  lemma {:induction false} NormalizeSpells(name: string)
    requires IsFeatureName(name)
    ensures Spells(Normalize(name), name)
  {
    forall i | 0 <= i < |name|
      ensures IsVariableChar(Normalize(name)[i]) && AlikeChars(Normalize(name)[i], name[i])
    {
      AlikeCharsNormalize(name[i], name[i]);
    }
  }

  lemma {:induction false} SpellingIsUnique(s: string, name: string)
    requires Spells(s, name)
    ensures s == Normalize(name)
  {
    forall i | 0 <= i < |s| ensures s[i] == Normalize(name)[i] {
      AlikeCharsNormalize(s[i], name[i]);
    }
  }

  // ------------------------------------------------------------ the manifest

  // From texts of variables to the features they stand for.
  type FeatureMap = map<string, string>

  ghost predicate Distinguishable(names: seq<string>) {
    forall i, j | 0 <= i < j < |names| :: !AlikeNames(names[i], names[j])
  }

  // The map holds exactly the first n names, each under the text that spells it.
  ghost predicate Inverts(m: FeatureMap, names: seq<string>, n: nat)
    requires n <= |names|
  {
    && (forall i | 0 <= i < n :: names[i] in m.Values)
    && forall s | s in m :: m[s] in names[..n] && Spells(s, m[s])
  }

  lemma {:induction false} MappedNames(m: FeatureMap, names: seq<string>)
    requires Inverts(m, names, |names|)
    ensures forall f :: f in m.Values <==> f in names
  {
    assert names[..|names|] == names;
  }

  lemma {:induction false} NameIsMapped(m: FeatureMap, names: seq<string>, n: nat, i: nat)
    requires n <= |names| && Inverts(m, names, n) && i < n
    ensures Normalize(names[i]) in m && m[Normalize(names[i])] == names[i]
  {
    assert names[i] in m.Values;
    var s :| s in m && m[s] == names[i];
    SpellingIsUnique(s, names[i]);
  }

  // A name joins the map exactly when no earlier one is like it.
  lemma {:induction false} NameIsNew(m: FeatureMap, names: seq<string>, n: nat)
    requires n < |names| && Inverts(m, names, n)
    ensures Normalize(names[n]) in m <==> exists i :: 0 <= i < n && AlikeNames(names[i], names[n])
  {
    var s := Normalize(names[n]);
    if s in m {
      SpellingIsUnique(s, m[s]);
      var i :| 0 <= i < n && names[i] == m[s];
      AlikeNamesNormalize(names[i], names[n]);
    }
    if i: nat :| i < n && AlikeNames(names[i], names[n]) {
      NameIsMapped(m, names, n, i);
      AlikeNamesNormalize(names[i], names[n]);
    }
  }

  lemma {:induction false} OneMoreName(m: FeatureMap, names: seq<string>, n: nat)
    requires n < |names| && Inverts(m, names, n) && Distinguishable(names[..n])
    ensures Normalize(names[n]) in m ==> !Distinguishable(names)
    ensures Normalize(names[n]) !in m ==> Distinguishable(names[..n + 1])
  {
    NameIsNew(m, names, n);
    if Normalize(names[n]) !in m {
      var more := names[..n + 1];
      forall i, j | 0 <= i < j < |more| ensures !AlikeNames(more[i], more[j]) {
        assert j < n ==> names[..n][i] == more[i] && names[..n][j] == more[j];
      }
    }
  }

  lemma {:induction false} MapOneMore(m: FeatureMap, names: seq<string>, n: nat)
    requires n < |names| && Inverts(m, names, n) && IsFeatureName(names[n]) && Normalize(names[n]) !in m
    ensures Inverts(m[Normalize(names[n]) := names[n]], names, n + 1)
  {
    var s := Normalize(names[n]);
    var after := m[s := names[n]];
    NormalizeSpells(names[n]);
    assert names[..n + 1] == names[..n] + [names[n]];
    assert after[s] == names[n];
    forall i | 0 <= i < n ensures names[i] in after.Values {
      NameIsMapped(m, names, n, i);
      assert after[Normalize(names[i])] == names[i];
    }
  }

  // Accepts exactly the manifests whose feature names are valid, can be told
  // apart in the names of variables and include the production feature.
  method ParseFeatures(names: seq<string>) returns (r: Result<FeatureMap>)
    ensures r.Ok? <==>
            (forall i | 0 <= i < |names| :: IsFeatureName(names[i])) && Distinguishable(names) && PRODUCTION in names
    ensures r.Ok? ==> Inverts(r.value, names, |names|)
  {
    var m: FeatureMap := map[];
    for n := 0 to |names|
      invariant forall i | 0 <= i < n :: IsFeatureName(names[i])
      invariant Inverts(m, names, n) && Distinguishable(names[..n])
    {
      if !IsFeatureName(names[n]) {
        return Err("native_store_crate_manifest_feature_name_invalid");
      }
      var normalized := Normalize(names[n]);
      OneMoreName(m, names, n);
      if normalized in m {
        return Err("native_store_crate_manifest_feature_normalization_collision");
      }
      MapOneMore(m, names, n);
      m := m[normalized := names[n]];
    }
    assert names[..|names|] == names;
    MappedNames(m, names);
    if PRODUCTION !in m.Values {
      return Err("native_store_production_feature_missing_from_manifest");
    }
    return Ok(m);
  }

  // A variable whose name is not Unicode has none here.
  datatype Variable = Variable(name: Option<string>, value: string)
  datatype Setting = Setting(suffix: string, value: string)

  predicate IsSetting(v: Variable) {
    v.name.Some? && PREFIX <= v.name.value
  }

  // The feature settings of an environment, in its order.
  function Settings(env: seq<Variable>): seq<Setting> {
    if env == [] then []
    else
      var last := env[|env| - 1];
      Settings(env[..|env| - 1])
      + if IsSetting(last) then [Setting(last.name.value[|PREFIX|..], last.value)] else []
  }

  // The setting is what the variable's name and value say.
  predicate SetBy(v: Variable, s: Setting) {
    v.name == Some(PREFIX + s.suffix) && v.value == s.value
  }

  // The settings are those of the variables in Cargo's name space, in order.
  ghost predicate SettingsAt(env: seq<Variable>, settings: seq<Setting>, at: seq<nat>) {
    && |at| == |settings|
    && (forall k | 0 <= k < |at| :: at[k] < |env| && SetBy(env[at[k]], settings[k]))
    && (forall k, l | 0 <= k < l < |at| :: at[k] < at[l])
    && forall i: nat | i < |env| :: i in at <==> env[i].name.Some? && PREFIX <= env[i].name.value
  }

  ghost predicate AreSettings(env: seq<Variable>, settings: seq<Setting>) {
    exists at :: SettingsAt(env, settings, at)
  }

  lemma {:induction false} SettingsOfFiltered(env: seq<Variable>)
    ensures |Settings(env)| == |Filter(env, IsSetting)|
    ensures forall k | 0 <= k < |Settings(env)| :: SetBy(Filter(env, IsSetting)[k], Settings(env)[k])
  {
    if env != [] {
      var last := env[|env| - 1];
      SettingsOfFiltered(env[..|env| - 1]);
      if IsSetting(last) {
        var name := last.name.value;
        assert name == PREFIX + name[|PREFIX|..];
      }
    }
  }

  lemma {:induction false} SettingIsUnique(v: Variable, a: Setting, b: Setting)
    requires SetBy(v, a) && SetBy(v, b)
    ensures a == b
  {
    assert a.suffix == v.name.value[|PREFIX|..] == b.suffix;
  }

  lemma {:induction false} SettingsAreThose(env: seq<Variable>)
    ensures AreSettings(env, Settings(env))
  {
    var at := FilterSelects(env, IsSetting);
    SettingsOfFiltered(env);
    assert SettingsAt(env, Settings(env), at);
  }

  function VariablesAt(env: seq<Variable>, at: seq<nat>): (vars: seq<Variable>)
    requires forall k | 0 <= k < |at| :: at[k] < |env|
    ensures |vars| == |at| && forall k | 0 <= k < |at| :: vars[k] == env[at[k]]
  {
    seq(|at|, k requires 0 <= k < |at| && at[k] < |env| => env[at[k]])
  }

  lemma {:induction false} VariablesAreFiltered(env: seq<Variable>, settings: seq<Setting>, at: seq<nat>)
    requires SettingsAt(env, settings, at)
    ensures VariablesAt(env, at) == Filter(env, IsSetting)
  {
    SelectionIsUnique(env, IsSetting, at, VariablesAt(env, at));
  }

  lemma {:induction false} ThoseAreSettings(env: seq<Variable>, settings: seq<Setting>)
    requires AreSettings(env, settings)
    ensures settings == Settings(env)
  {
    var at :| SettingsAt(env, settings, at);
    VariablesAreFiltered(env, settings, at);
    SettingsOfFiltered(env);
    SameVariablesSameSettings(Filter(env, IsSetting), settings, Settings(env));
  }

  lemma {:induction false} SameVariablesSameSettings(vars: seq<Variable>, a: seq<Setting>, b: seq<Setting>)
    requires |a| == |b| == |vars|
    requires forall k | 0 <= k < |vars| :: SetBy(vars[k], a[k])
    requires forall k | 0 <= k < |vars| :: SetBy(vars[k], b[k])
    ensures a == b
  {
    forall k | 0 <= k < |vars| ensures a[k] == b[k] {
      SettingIsUnique(vars[k], a[k], b[k]);
    }
  }

  // The settings Cargo makes for a list of enabled features.
  ghost predicate SetFor(settings: seq<Setting>, features: seq<string>) {
    && |settings| == |features|
    && forall i | 0 <= i < |settings| :: settings[i].value == "1" && Spells(settings[i].suffix, features[i])
  }

  predicate Known(m: FeatureMap, s: Setting) {
    s.suffix != "" && s.value == "1" && s.suffix in m
  }

  function Named(m: FeatureMap, settings: seq<Setting>): (names: seq<string>)
    requires forall i | 0 <= i < |settings| :: Known(m, settings[i])
    ensures |names| == |settings|
  {
    seq(|settings|, i requires 0 <= i < |settings| && Known(m, settings[i]) => m[settings[i].suffix])
  }

  ghost predicate Admissible(m: FeatureMap, settings: seq<Setting>) {
    && (forall i | 0 <= i < |settings| :: Known(m, settings[i]))
    && Shuffle.Distinct(Named(m, settings))
    && PRODUCTION in Named(m, settings)
  }

  lemma {:induction false} SettingsGrow(env: seq<Variable>, n: nat)
    requires n <= |env|
    ensures Settings(env[..n]) <= Settings(env)
    decreases |env| - n
  {
    if n == |env| {
      assert env[..n] == env;
    } else {
      SettingsGrow(env, n + 1);
      assert env[..n + 1][..n] == env[..n];
    }
  }

  lemma {:induction false} NamedPrefix(m: FeatureMap, all: seq<Setting>, first: seq<Setting>)
    requires first <= all && Admissible(m, all)
    ensures (forall i | 0 <= i < |first| :: Known(m, first[i])) && Shuffle.Distinct(Named(m, first))
  {
    assert forall i | 0 <= i < |first| :: first[i] == all[i] && Known(m, all[i]);
    assert forall i | 0 <= i < |first| :: Named(m, first)[i] == Named(m, all)[i];
  }

  // A setting that is unknown, or names a feature again, spoils the whole.
  lemma {:induction false} Spoiled(m: FeatureMap, env: seq<Variable>, n: nat, s: Setting)
    requires n < |env| && Settings(env[..n + 1]) == Settings(env[..n]) + [s]
    requires forall i | 0 <= i < |Settings(env[..n])| :: Known(m, Settings(env[..n])[i])
    requires Known(m, s) ==> m[s.suffix] in Named(m, Settings(env[..n]))
    ensures !Admissible(m, Settings(env))
  {
    SettingsGrow(env, n + 1);
    var before := Settings(env[..n]);
    var first := before + [s];
    if Admissible(m, Settings(env)) {
      NamedPrefix(m, Settings(env), first);
      RepeatedName(m, before, s);
    }
  }

  lemma {:induction false} RepeatedName(m: FeatureMap, before: seq<Setting>, s: Setting)
    requires forall i | 0 <= i < |before + [s]| :: Known(m, (before + [s])[i])
    requires forall i | 0 <= i < |before| :: Known(m, before[i])
    ensures Known(m, s)
    ensures m[s.suffix] in Named(m, before) ==> !Shuffle.Distinct(Named(m, before + [s]))
  {
    var all := before + [s];
    assert all[|before|] == s;
    if m[s.suffix] in Named(m, before) {
      var i :| 0 <= i < |before| && Named(m, before)[i] == m[s.suffix];
      assert all[i] == before[i];
      assert Named(m, all)[i] == Named(m, all)[|before|];
    }
  }

  // Reads the enabled features back. It succeeds exactly on the admissible
  // settings, with the named features in order.
  method EnabledFeatures(m: FeatureMap, env: seq<Variable>) returns (r: Result<seq<string>>)
    ensures r.Ok? <==> Admissible(m, Settings(env))
    ensures r.Ok? ==> r.value == SortStrings(Named(m, Settings(env)))
  {
    var enabled: seq<string> := [];
    for n := 0 to |env|
      invariant forall i | 0 <= i < |Settings(env[..n])| :: Known(m, Settings(env[..n])[i])
      invariant enabled == Named(m, Settings(env[..n])) && Shuffle.Distinct(enabled)
    {
      assert env[..n + 1][..n] == env[..n];
      if !IsSetting(env[n]) {
        continue;
      }
      var s := Setting(env[n].name.value[|PREFIX|..], env[n].value);
      if !Known(m, s) || m[s.suffix] in enabled {
        Spoiled(m, env, n, s);
        return Err(if s.suffix == "" then "native_store_cargo_feature_name_empty"
                   else if s.value != "1" then "native_store_cargo_feature_value_invalid"
                   else if s.suffix !in m then "native_store_cargo_feature_unknown"
                   else "native_store_cargo_feature_duplicate");
      }
      enabled := enabled + [m[s.suffix]];
    }
    assert env[..|env|] == env;
    if PRODUCTION !in enabled {
      return Err("native_store_production_feature_environment_missing");
    }
    return Ok(SortStrings(enabled));
  }

  // The result strictly ascends, so it is sorted and free of repeats.
  lemma {:induction false} DistinctSortIncreases(s: seq<string>)
    requires Shuffle.Distinct(s)
    ensures var r := SortStrings(s); forall i, j | 0 <= i < j < |r| :: Before(r[i], r[j])
  {
    var r := SortStrings(s);
    DistinctSortIncreasing(s);
    forall i, j | 0 <= i < j < |r| ensures Before(r[i], r[j]) {
      StringLeMeansBefore(r[i], r[j]);
    }
  }

  // For every manifest that is accepted, every subset of its features that
  // includes the production feature, and every order of the environment
  // with any unrelated variables in between, the subset is read back.
  lemma {:induction false} SubsetIsReadBack(
    names: seq<string>, m: FeatureMap, subset: seq<string>, order: seq<string>,
    env: seq<Variable>, settings: seq<Setting>)
    requires Inverts(m, names, |names|) && (forall i | 0 <= i < |names| :: IsFeatureName(names[i]))
    requires Shuffle.Distinct(subset) && (forall f | f in subset :: f in names) && PRODUCTION in subset
    requires multiset(order) == multiset(subset) && AreSettings(env, settings) && SetFor(settings, order)
    ensures Admissible(m, Settings(env)) && SortStrings(Named(m, Settings(env))) == SortStrings(subset)
  {
    ThoseAreSettings(env, settings);
    forall i | 0 <= i < |order| ensures Known(m, settings[i]) && m[settings[i].suffix] == order[i] {
      SettingIsKnown(names, m, subset, order, settings[i], i);
    }
    assert Named(m, settings) == order;
    OrderIsAdmissible(subset, order);
  }

  lemma {:induction false} OrderIsAdmissible(subset: seq<string>, order: seq<string>)
    requires Shuffle.Distinct(subset) && PRODUCTION in subset && multiset(order) == multiset(subset)
    ensures Shuffle.Distinct(order) && PRODUCTION in order && SortStrings(order) == SortStrings(subset)
  {
    Shuffle.PermutationOfDistinct(subset, order);
    assert PRODUCTION in multiset(subset) && PRODUCTION in multiset(order);
    SortedCopiesAgree(order, subset);
  }

  lemma {:induction false} SettingIsKnown(
    names: seq<string>, m: FeatureMap, subset: seq<string>, order: seq<string>, s: Setting, i: nat)
    requires Inverts(m, names, |names|) && (forall i | 0 <= i < |names| :: IsFeatureName(names[i]))
    requires (forall f | f in subset :: f in names) && multiset(order) == multiset(subset) && i < |order|
    requires s.value == "1" && Spells(s.suffix, order[i])
    ensures Known(m, s) && m[s.suffix] == order[i]
  {
    assert order[i] in multiset(order);
    assert order[i] in subset;
    var k: nat :| k < |names| && names[k] == order[i];
    NameIsMapped(m, names, |names|, k);
    SpellingIsUnique(s.suffix, order[i]);
  }

  // Conversely an accepted environment holds the settings of the features
  // that are read back, and nothing else in Cargo's name space.
  lemma {:induction false} OnlySubsetsAreAccepted(names: seq<string>, m: FeatureMap, env: seq<Variable>)
    requires Inverts(m, names, |names|) && Admissible(m, Settings(env))
    ensures AreSettings(env, Settings(env)) && SetFor(Settings(env), Named(m, Settings(env)))
    ensures forall f | f in Named(m, Settings(env)) :: f in names
  {
    var settings := Settings(env);
    SettingsAreThose(env);
    MappedNames(m, names);
    forall i | 0 <= i < |settings|
      ensures settings[i].value == "1" && Spells(settings[i].suffix, Named(m, settings)[i])
    {
      assert Known(m, settings[i]);
    }
  }
}
