/** The option catalogue of `OptionMap` as a value: the names, argument
    counts, required flags, descriptions and positional slots registered so
    far, with one function per setter and per query.

    Setters return the new catalogue, or the error the Java method throws:
    a `CliOptionDefinitionException` is `DefinitionError`, an
    `IllegalArgumentException` is `ArgumentError`, an
    `IndexOutOfBoundsException` is `IndexError`. Lookups of unknown names
    fail with a usage error (`CliUsageException`). */
module Registries {
  import opened Results
  import opened Decimal
  import opened Multiplicities

  /** The identity of a `java.lang.reflect.Field` of the option class. */
  datatype FieldRef = FieldRef(id: nat)

  /** A Java `int` that passed a "nonnegative" check. */
  type Count = n: int | 0 <= n <= MaxInt32

  datatype Registry = Registry(
    shortOpts: map<string, FieldRef>,
    longOpts: map<string, FieldRef>,
    multiplicities: map<FieldRef, Count>,
    required: map<FieldRef, bool>,
    descriptions: map<FieldRef, string>,
    parameters: seq<Option<FieldRef>>,       // a null slot is None
    paramMultiplicity: Option<Multiplicity>, // null until set
    allowMerging: bool)

  /** `new OptionMap()`: nothing registered; short-name merging allowed. */
  function Empty(): Registry {
    Registry(map[], map[], map[], map[], map[], [], None, true)
  }

  /** `DEFAULT_OPT_MULT`. */
  const DefaultArgCount: Count := 0

  /** `DEFAULT_PARAM_MULTIPLICITY`, exactly zero positional arguments. */
  const DefaultParamMultiplicity: Multiplicity := Bounds(0, 0)

  /** The catalogue after a setter: the new one on success, the old one when
      the setter threw. */
  function After(r: Result<Registry>, prev: Registry): Registry {
    if r.Ok? then r.value else prev
  }

  // ---------------------------------------------------------------------
  // Invariant

  /** No field holds two names of the same kind. */
  predicate Injective(m: map<string, FieldRef>) {
    forall a, b :: a in m && b in m && m[a] == m[b] ==> a == b
  }

  predicate AllowedInName(c: char) {
    IsLetterOrDigit(c) || c == '-'
  }

  /** A name is non-empty, starts with a letter or digit, and holds only
      letters, digits and '-'. */
  predicate ValidName(s: string) {
    |s| > 0 && IsLetterOrDigit(s[0]) && forall i :: 0 <= i < |s| ==> AllowedInName(s[i])
  }

  /** What the setters maintain. */
  predicate Valid(r: Registry) {
    Injective(r.shortOpts) && Injective(r.longOpts)
    && (forall s :: s in r.shortOpts ==> ValidName(s))
    && (forall s :: s in r.longOpts ==> ValidName(s))
    && (forall f :: f in r.descriptions ==> r.descriptions[f] != "")
    && |r.parameters| <= MaxInt32
  }

  // ---------------------------------------------------------------------
  // Names

  /** `setShortName`: a valid name, not in use, for a field without a short name. */
  function SetShortName(r: Registry, f: FieldRef, name: string): (r': Result<Registry>)
    ensures r'.Err? ==> r'.error == DefinitionError
  {
    if !ValidName(name) || name in r.shortOpts || f in r.shortOpts.Values then Err(DefinitionError)
    else Ok(r.(shortOpts := r.shortOpts[name := f]))
  }

  /** `setLongName`: a valid name, not in use, for a field without a long name. */
  function SetLongName(r: Registry, f: FieldRef, name: string): (r': Result<Registry>)
    ensures r'.Err? ==> r'.error == DefinitionError
  {
    if !ValidName(name) || name in r.longOpts || f in r.longOpts.Values then Err(DefinitionError)
    else Ok(r.(longOpts := r.longOpts[name := f]))
  }

  /** `hasShortName`. */
  predicate HasShortName(r: Registry, name: string) {
    name in r.shortOpts
  }

  /** `getFieldByShortName`. */
  function GetFieldByShortName(r: Registry, name: string): (o: Result<FieldRef>)
    ensures o.Ok? <==> HasShortName(r, name)
    ensures o.Ok? ==> r.shortOpts[name] == o.value
    ensures o.Err? ==> o.error == UsageError(UnknownShortName(name))
  {
    if name in r.shortOpts then Ok(r.shortOpts[name]) else Err(UsageError(UnknownShortName(name)))
  }

  /** `getFieldByLongName`. */
  function GetFieldByLongName(r: Registry, name: string): (o: Result<FieldRef>)
    ensures o.Ok? <==> name in r.longOpts
    ensures o.Ok? ==> r.longOpts[name] == o.value
    ensures o.Err? ==> o.error == UsageError(UnknownLongName(name))
  {
    if name in r.longOpts then Ok(r.longOpts[name]) else Err(UsageError(UnknownLongName(name)))
  }

  /** The only name bound to `f` in `m`, if any. */
  function NameOf(m: map<string, FieldRef>, f: FieldRef): (o: Option<string>)
    requires Injective(m)
    ensures o.Some? <==> f in m.Values
    ensures o.Some? ==> o.value in m && m[o.value] == f
  {
    if f in m.Values then Some(var s :| s in m && m[s] == f; s) else None
  }

  /** `getShortName`: null when the field has none. */
  function GetShortName(r: Registry, f: FieldRef): Option<string>
    requires Valid(r)
  {
    NameOf(r.shortOpts, f)
  }

  /** `getLongName`: null when the field has none. */
  function GetLongName(r: Registry, f: FieldRef): Option<string>
    requires Valid(r)
  {
    NameOf(r.longOpts, f)
  }

  predicate IsNamed(r: Registry, f: FieldRef) {
    f in r.shortOpts.Values || f in r.longOpts.Values
  }

  /** `namedFields`: every field with a short or a long name. */
  function NamedFields(r: Registry): (s: set<FieldRef>)
    ensures forall f :: f in s <==> IsNamed(r, f)
  {
    r.shortOpts.Values + r.longOpts.Values
  }

  /** `fieldToString`: "--long (-short)", "-short" or "--long"; a field with no
      name is an IllegalArgumentException. */
  function FieldToString(r: Registry, f: FieldRef): (o: Result<string>)
    requires Valid(r)
    ensures o.Ok? <==> IsNamed(r, f)
    ensures o.Err? ==> o.error == ArgumentError
  {
    match (GetShortName(r, f), GetLongName(r, f))
    case (Some(s), Some(l)) => Ok("--" + l + " (-" + s + ")")
    case (Some(s), None) => Ok("-" + s)
    case (None, Some(l)) => Ok("--" + l)
    case (None, None) => Err(ArgumentError)
  }

  // ---------------------------------------------------------------------
  // Argument counts, required flags, descriptions

  /** `setMultiplicity`: nonnegative, and at most once per field. */
  function SetMultiplicity(r: Registry, f: FieldRef, n: Int32): (r': Result<Registry>)
    ensures r'.Err? ==> r'.error == DefinitionError
  {
    if n < 0 || f in r.multiplicities then Err(DefinitionError)
    else Ok(r.(multiplicities := r.multiplicities[f := n]))
  }

  /** `getArgMultiplicity`: 0 unless set. */
  function ArgMultiplicity(r: Registry, f: FieldRef): Count {
    if f in r.multiplicities then r.multiplicities[f] else DefaultArgCount
  }

  /** `getArgNames`: "arg0", "arg1", ... one per argument. */
  function ArgNames(r: Registry, f: FieldRef): (names: seq<string>)
    ensures |names| == ArgMultiplicity(r, f)
    ensures forall i :: 0 <= i < |names| ==> names[i] == "arg" + IntToString(i)
  {
    seq(ArgMultiplicity(r, f), i => "arg" + IntToString(i))
  }

  /** `setRequired`: at most once per field, whatever the value. */
  function SetRequired(r: Registry, f: FieldRef, value: bool): (r': Result<Registry>)
    ensures r'.Err? ==> r'.error == DefinitionError
  {
    if f in r.required then Err(DefinitionError)
    else Ok(r.(required := r.required[f := value]))
  }

  /** `isRequired`: the flag's value, false unless set. */
  predicate IsRequired(r: Registry, f: FieldRef) {
    f in r.required && r.required[f]
  }

  /** `getRequiredFields`: every field `setRequired` was called on, including
      those set to false. */
  function RequiredFields(r: Registry): set<FieldRef> {
    r.required.Keys
  }

  /** `setDescription`: non-empty, and at most once per field. */
  function SetDescription(r: Registry, f: FieldRef, text: string): (r': Result<Registry>)
    ensures r'.Err? ==> r'.error == DefinitionError
  {
    if text == "" || f in r.descriptions then Err(DefinitionError)
    else Ok(r.(descriptions := r.descriptions[f := text]))
  }

  /** `getDescription`: "" unless set. */
  function GetDescription(r: Registry, f: FieldRef): string {
    if f in r.descriptions then r.descriptions[f] else ""
  }

  // ---------------------------------------------------------------------
  // Positional parameters

  /** The slot list grown with empty slots up to length `n`. */
  function Padded(p: seq<Option<FieldRef>>, n: int): (q: seq<Option<FieldRef>>)
    ensures |q| == if |p| < n then n else |p|
    ensures q[..|p|] == p
    ensures forall i :: |p| <= i < |q| ==> q[i].None?
  {
    if |p| < n then p + seq(n - |p|, _ => None) else p
  }

  /** `setParam`: grow the list to `paramIndex + 1` (in 32-bit arithmetic),
      then claim the slot; an occupied slot is a definition error and an index
      outside the list an IndexOutOfBoundsException. */
  function SetParam(r: Registry, f: FieldRef, paramIndex: Int32): (r': Result<Registry>)
    ensures r'.Err? ==> r'.error == DefinitionError || r'.error == IndexError
  {
    var p := Padded(r.parameters, Add32(paramIndex, 1));
    if paramIndex < 0 || paramIndex >= |p| then Err(IndexError)
    else if p[paramIndex].Some? then Err(DefinitionError)
    else Ok(r.(parameters := p[paramIndex := Some(f)]))
  }

  /** `nParams`. */
  function NParams(r: Registry): nat {
    |r.parameters|
  }

  /** `getParamField`: the slot's field, null for an empty slot. */
  function GetParamField(r: Registry, i: int): (o: Result<Option<FieldRef>>)
    ensures o.Ok? <==> 0 <= i < NParams(r)
    ensures o.Err? ==> o.error == IndexError
  {
    if 0 <= i < |r.parameters| then Ok(r.parameters[i]) else Err(IndexError)
  }

  /** `setParamMultiplicity`: at most once; a malformed pattern is the
      parser's IllegalArgumentException and leaves the catalogue unchanged. */
  function SetParamMultiplicity(r: Registry, pattern: string): (r': Result<Registry>)
    ensures r'.Err? ==> r'.error == DefinitionError || r'.error == ArgumentError
  {
    if r.paramMultiplicity.Some? then Err(DefinitionError)
    else
      var m :- Parse(pattern);
      Ok(r.(paramMultiplicity := Some(m)))
  }

  /** `getParamMultiplicity`: exactly 0 unless set. */
  function ParamMultiplicity(r: Registry): Multiplicity {
    if r.paramMultiplicity.Some? then r.paramMultiplicity.value else DefaultParamMultiplicity
  }

  /** `allowShortNamesMerging`. */
  function AllowShortNamesMerging(r: Registry, allow: bool): Registry {
    r.(allowMerging := allow)
  }

  // ---------------------------------------------------------------------
  // sanityChecks

  /** `unnamedIn(fs).isPresent()`. */
  predicate SomeUnnamed(r: Registry, fs: set<FieldRef>) {
    exists f :: f in fs && !IsNamed(r, f)
  }

  /** `namedIn(parameters).isPresent()`: an empty slot is never named. */
  predicate SomeNamedSlot(r: Registry) {
    exists i :: 0 <= i < |r.parameters| && r.parameters[i].Some? && IsNamed(r, r.parameters[i].value)
  }

  /** With merging, "-ab" would be ambiguous when "a" and "b" are short names too. */
  predicate MergeAmbiguous(r: Registry) {
    exists s :: s in r.shortOpts && |s| > 1 && forall i :: 0 <= i < |s| ==> [s[i]] in r.shortOpts
  }

  /** `sanityChecks`: the rules that span several fields. */
  function SanityChecks(r: Registry): (o: Outcome)
    ensures o.Fail? ==> o.error == DefinitionError
  {
    if SomeUnnamed(r, r.multiplicities.Keys) then Fail(DefinitionError)
    else if SomeUnnamed(r, r.required.Keys) then Fail(DefinitionError)
    else if SomeUnnamed(r, r.descriptions.Keys) then Fail(DefinitionError)
    else if SomeNamedSlot(r) then Fail(DefinitionError)
    else if |r.parameters| > ParamMultiplicity(r).max then Fail(DefinitionError)
    else if r.allowMerging && MergeAmbiguous(r) then Fail(DefinitionError)
    else Pass
  }

  // ---------------------------------------------------------------------
  // Lemmas: setters

  lemma EmptyIsValid()
    ensures Valid(Empty())
    ensures SanityChecks(Empty()) == Pass
    ensures NamedFields(Empty()) == {} && NParams(Empty()) == 0
    ensures ParamMultiplicity(Empty()) == Bounds(0, 0)
  {
  }

  /** A short name is accepted exactly when it is valid, unused, and the field
      has no short name yet; the field is then found under it, every other
      name keeps its binding, and the invariant is kept. */
  lemma SetShortNameSpec(r: Registry, f: FieldRef, name: string)
    requires Valid(r)
    ensures SetShortName(r, f, name).Ok? <==> ValidName(name) && !HasShortName(r, name) && GetShortName(r, f).None?
    ensures SetShortName(r, f, name).Ok? ==>
      var r' := SetShortName(r, f, name).value;
      Valid(r') && GetFieldByShortName(r', name) == Ok(f) && GetShortName(r', f) == Some(name)
      && (forall n :: n != name ==> GetFieldByShortName(r', n) == GetFieldByShortName(r, n))
      && r'.longOpts == r.longOpts && NamedFields(r') == NamedFields(r) + {f}
  {
    if SetShortName(r, f, name).Ok? {
      var r' := SetShortName(r, f, name).value;
      assert r'.shortOpts[name] == f;
      BindFreshName(r.shortOpts, name, f);
    }
  }

  /** Binding an unused name to a field that has none keeps the map
      injective and adds exactly that field to its values. */
  lemma BindFreshName(m: map<string, FieldRef>, name: string, f: FieldRef)
    requires Injective(m) && name !in m && f !in m.Values
    ensures Injective(m[name := f]) && m[name := f].Values == m.Values + {f}
  {
    var m' := m[name := f];
    forall a, b | a in m' && b in m' && m'[a] == m'[b]
      ensures a == b
    {
      if a != name && b != name {
        assert m[a] == m[b];
      }
    }
    forall v ensures v in m'.Values <==> v in m.Values + {f} {
      if v == f {
        assert m'[name] == f;
      } else if v in m.Values {
        var a :| a in m && m[a] == v;
        assert m'[a] == v;
      }
    }
  }

  /** A long name is accepted exactly when it is valid, unused, and the field
      has no long name yet; the field is then found under it and every other
      long name keeps its binding. */
  lemma SetLongNameSpec(r: Registry, f: FieldRef, name: string)
    requires Valid(r)
    ensures SetLongName(r, f, name).Ok? <==> ValidName(name) && name !in r.longOpts && GetLongName(r, f).None?
    ensures SetLongName(r, f, name).Ok? ==>
      var r' := SetLongName(r, f, name).value;
      Valid(r') && GetFieldByLongName(r', name) == Ok(f) && GetLongName(r', f) == Some(name)
      && (forall n :: n != name ==> GetFieldByLongName(r', n) == GetFieldByLongName(r, n))
      && r'.shortOpts == r.shortOpts && NamedFields(r') == NamedFields(r) + {f}
  {
    if SetLongName(r, f, name).Ok? {
      var r' := SetLongName(r, f, name).value;
      assert r'.longOpts[name] == f;
      BindFreshName(r.longOpts, name, f);
    }
  }

  /** The name rule refuses the texts the library's tests list and accepts
      composed names. */
  lemma NameRuleExamples()
    ensures !ValidName("") && !ValidName(" ") && !ValidName("  ") && !ValidName("???")
    ensures !ValidName("-abc") && !ValidName("abc?")
    ensures ValidName("a") && ValidName("a-b") && ValidName("aaa")
  {
    assert !AllowedInName("abc?"[3]);
  }

  /** Re-binding a name fails even for the same field, and so does giving a
      field a second name of the same kind. */
  lemma NamesBindOnce(r: Registry, f: FieldRef, g: FieldRef, name: string, other: string)
    requires Valid(r) && SetShortName(r, f, name).Ok? && SetLongName(r, f, name).Ok?
    ensures SetShortName(SetShortName(r, f, name).value, g, name) == Err(DefinitionError)
    ensures SetShortName(SetShortName(r, f, name).value, f, other) == Err(DefinitionError)
    ensures SetLongName(SetLongName(r, f, name).value, g, name) == Err(DefinitionError)
    ensures SetLongName(SetLongName(r, f, name).value, f, other) == Err(DefinitionError)
  {
    assert SetShortName(r, f, name).value.shortOpts[name] == f;
    assert SetLongName(r, f, name).value.longOpts[name] == f;
  }

  /** The argument count is 0 until set, then the value set; a negative count
      and a second call are refused. */
  lemma SetMultiplicitySpec(r: Registry, f: FieldRef, n: Int32, m: Int32)
    ensures ArgMultiplicity(r, f) == if f in r.multiplicities then r.multiplicities[f] else 0
    ensures SetMultiplicity(r, f, n).Ok? <==> n >= 0 && f !in r.multiplicities
    ensures SetMultiplicity(r, f, n).Ok? ==>
      var r' := SetMultiplicity(r, f, n).value;
      ArgMultiplicity(r', f) == n && SetMultiplicity(r', f, m) == Err(DefinitionError)
      && (forall g :: g != f ==> ArgMultiplicity(r', g) == ArgMultiplicity(r, g))
  {
  }

  /** The required flag is set once; `isRequired` follows its value while
      `getRequiredFields` lists the field either way. */
  lemma SetRequiredSpec(r: Registry, f: FieldRef, value: bool, again: bool)
    ensures !IsRequired(r, f) <== f !in r.required
    ensures SetRequired(r, f, value).Ok? <==> f !in RequiredFields(r)
    ensures SetRequired(r, f, value).Ok? ==>
      var r' := SetRequired(r, f, value).value;
      (IsRequired(r', f) <==> value) && f in RequiredFields(r')
      && RequiredFields(r') == RequiredFields(r) + {f}
      && SetRequired(r', f, again) == Err(DefinitionError)
  {
  }

  /** The description is "" until set, then the text set; an empty text and a
      second call are refused. */
  lemma SetDescriptionSpec(r: Registry, f: FieldRef, text: string, again: string)
    requires Valid(r)
    ensures f !in r.descriptions ==> GetDescription(r, f) == ""
    ensures SetDescription(r, f, text).Ok? <==> text != "" && f !in r.descriptions
    ensures SetDescription(r, f, text).Ok? ==>
      var r' := SetDescription(r, f, text).value;
      Valid(r') && GetDescription(r', f) == text && SetDescription(r', f, again) == Err(DefinitionError)
      && (forall g :: g != f ==> GetDescription(r', g) == GetDescription(r, g))
  {
  }

  /** `setParam(f, i)` succeeds exactly for an index in [0, MAX_VALUE) whose
      slot is absent or empty. The list then has length max(old, i + 1), slot
      i holds f, older slots are unchanged and new ones are empty. */
  lemma SetParamSpec(r: Registry, f: FieldRef, i: Int32)
    requires Valid(r)
    ensures SetParam(r, f, i).Ok? <==> 0 <= i < MaxInt32 && (i >= NParams(r) || r.parameters[i].None?)
    ensures SetParam(r, f, i).Err? ==>
      (SetParam(r, f, i).error == IndexError <==> i < 0 || i == MaxInt32)
    ensures SetParam(r, f, i).Ok? ==>
      var r' := SetParam(r, f, i).value;
      NParams(r') == (if i + 1 > NParams(r) then i + 1 else NParams(r))
      && GetParamField(r', i) == Ok(Some(f))
      && (forall j :: 0 <= j < NParams(r') && j != i ==>
            r'.parameters[j] == if j < NParams(r) then r.parameters[j] else None)
      && r'.(parameters := r.parameters) == r && Valid(r')
  {
    var p := Padded(r.parameters, Add32(i, 1));
    if 0 <= i < |r.parameters| {
      assert p == r.parameters;
    }
    if 0 <= i < MaxInt32 && i >= |r.parameters| {
      assert |p| == i + 1;
    }
  }

  /** A parameter pattern is accepted once; the default is exactly 0. */
  lemma SetParamMultiplicitySpec(r: Registry, pattern: string, again: string)
    ensures r.paramMultiplicity.None? ==> ParamMultiplicity(r) == Bounds(0, 0)
    ensures SetParamMultiplicity(r, pattern).Ok? <==> r.paramMultiplicity.None? && Parse(pattern).Ok?
    ensures r.paramMultiplicity.None? && Parse(pattern).Err? ==> SetParamMultiplicity(r, pattern) == Err(ArgumentError)
    ensures SetParamMultiplicity(r, pattern).Ok? ==>
      var r' := SetParamMultiplicity(r, pattern).value;
      ParamMultiplicity(r') == Parse(pattern).value && SetParamMultiplicity(r', again) == Err(DefinitionError)
  {
  }

  /** `Valid` constrains only the names, the descriptions and the slot count. */
  lemma ValidFrame(r: Registry, r': Registry)
    requires Valid(r)
    requires r'.shortOpts == r.shortOpts && r'.longOpts == r.longOpts && r'.descriptions == r.descriptions
    requires |r'.parameters| <= MaxInt32
    ensures Valid(r')
  {
  }

  // ---------------------------------------------------------------------
  // Lemmas: queries and sanityChecks

  /** Under an injective map a field's name is the one bound to it. */
  lemma NameOfBound(m: map<string, FieldRef>, f: FieldRef, s: string)
    requires Injective(m) && s in m && m[s] == f
    ensures NameOf(m, f) == Some(s)
  {
    assert f in m.Values;
  }

  /** `fieldToString` shows both names as "--long (-short)", else the one the
      field has, in any valid catalogue. */
  lemma FieldToStringSpec(r: Registry, f: FieldRef, s: string, l: string)
    requires Valid(r)
    ensures s in r.shortOpts && r.shortOpts[s] == f && l in r.longOpts && r.longOpts[l] == f
      ==> FieldToString(r, f) == Ok("--" + l + " (-" + s + ")")
    ensures s in r.shortOpts && r.shortOpts[s] == f && f !in r.longOpts.Values
      ==> FieldToString(r, f) == Ok("-" + s)
    ensures l in r.longOpts && r.longOpts[l] == f && f !in r.shortOpts.Values
      ==> FieldToString(r, f) == Ok("--" + l)
  {
    if s in r.shortOpts && r.shortOpts[s] == f {
      NameOfBound(r.shortOpts, f, s);
    }
    if l in r.longOpts && r.longOpts[l] == f {
      NameOfBound(r.longOpts, f, l);
    }
  }

  /** After `sanityChecks` every field with a required flag is named, so the
      report of missing required options can always render them. */
  lemma SanityRendersRequired(r: Registry, f: FieldRef)
    requires Valid(r) && SanityChecks(r) == Pass && f in RequiredFields(r)
    ensures FieldToString(r, f).Ok?
  {
  }

  /** `sanityChecks` passes exactly when every field with an argument count,
      a required flag or a description is named, no slot field is named, the
      slots fit the parameter multiplicity, and (with merging) no multi-letter
      short name is spelled by one-letter short names. */
  lemma SanityChecksIff(r: Registry)
    ensures SanityChecks(r) == Pass <==>
      (forall f :: f in r.multiplicities ==> IsNamed(r, f))
      && (forall f :: f in r.required ==> IsNamed(r, f))
      && (forall f :: f in r.descriptions ==> IsNamed(r, f))
      && (forall i :: 0 <= i < NParams(r) && r.parameters[i].Some? ==> !IsNamed(r, r.parameters[i].value))
      && NParams(r) <= ParamMultiplicity(r).max
      && (r.allowMerging ==> forall s :: s in r.shortOpts && |s| > 1 ==> exists i :: 0 <= i < |s| && [s[i]] !in r.shortOpts)
  {
  }

  /** "-a", "-b" and "-ab" are refused with merging and accepted without;
      "-a", "-b" and "-abc" are accepted either way. */
  lemma MergeAmbiguityExamples(f: FieldRef, g: FieldRef, h: FieldRef)
    ensures MergeAmbiguous(Empty().(shortOpts := map["a" := f, "b" := g, "ab" := h]))
    ensures !MergeAmbiguous(Empty().(shortOpts := map["a" := f, "b" := g, "abc" := h]))
  {
    var m := map["a" := f, "b" := g, "ab" := h];
    assert "ab" in m && |"ab"| > 1;
    assert ["ab"[0]] == "a" && ["ab"[1]] == "b";
    var m2 := map["a" := f, "b" := g, "abc" := h];
    forall s | s in m2 && |s| > 1
      ensures exists i :: 0 <= i < |s| && [s[i]] !in m2
    {
      assert s == "abc";
      assert ["abc"[2]] == "c";
    }
  }

  /** A field both a positional slot and named, too many slots, and unnamed
      fields carrying properties are all refused by `sanityChecks`. */
  lemma SanityChecksRefusals(r: Registry, f: FieldRef)
    ensures IsNamed(r, f) && Some(f) in r.parameters ==> SanityChecks(r) == Fail(DefinitionError)
    ensures !IsNamed(r, f) && (f in r.multiplicities || f in r.required || f in r.descriptions) ==> SanityChecks(r) == Fail(DefinitionError)
    ensures NParams(r) > ParamMultiplicity(r).max ==> SanityChecks(r) == Fail(DefinitionError)
  {
    if IsNamed(r, f) && Some(f) in r.parameters {
      var i :| 0 <= i < |r.parameters| && r.parameters[i] == Some(f);
      assert SomeNamedSlot(r);
    }
  }
}
