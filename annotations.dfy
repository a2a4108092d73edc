/** The declarations a user class carries (`@ShortName`, `@LongName`,
    `@Args`, `@Required`, `@Param`, `@Description` on fields, `@Params` on the
    class) and their dispatch: `EFieldAnnotation` and `EClassAnnotation` map a
    declaration kind to the `OptionMap` setter that records its payload. */
module Annotations {
  import opened Results
  import opened Decimal
  import opened Multiplicities
  import opened Registries
  import opened OptionMaps

  /** The kind of a declaration (its `annotationType()`); any kind outside the
      library is `OtherType`. */
  datatype AnnotationType =
    | ShortNameType | LongNameType | ArgsType | RequiredType | ParamType | DescriptionType
    | ParamsType
    | OtherType(name: string)

  /** A declaration with its payload (`value()`). */
  datatype Annotation =
    | ShortName(name: string)
    | LongName(name: string)
    | Args(count: Int32)
    | Required(flag: bool)
    | Param(index: Int32)
    | Description(text: string)
    | Params(pattern: string)
    | Other(kind: string)

  function TypeOf(a: Annotation): AnnotationType {
    match a
    case ShortName(_) => ShortNameType
    case LongName(_) => LongNameType
    case Args(_) => ArgsType
    case Required(_) => RequiredType
    case Param(_) => ParamType
    case Description(_) => DescriptionType
    case Params(_) => ParamsType
    case Other(k) => OtherType(k)
  }

  /** The payload defaults of a bare declaration. */
  const BareLongName: Annotation := LongName("")
  const BareRequired: Annotation := Required(true)
  const BareParam: Annotation := Param(0)
  const BareParams: Annotation := Params("0..0")

  // ---------------------------------------------------------------------
  // EFieldAnnotation

  datatype FieldAnnotation =
    | ShortNameKind | LongNameKind | ArgMultiplicityKind | RequiredKind | ParamKind | DescriptionKind

  /** `EFieldAnnotation.values()`, in declaration order. */
  const FieldKinds: seq<FieldAnnotation> :=
    [ShortNameKind, LongNameKind, ArgMultiplicityKind, RequiredKind, ParamKind, DescriptionKind]

  /** The declaration kind each constant stands for. */
  function FieldAnnotationCl(k: FieldAnnotation): AnnotationType {
    match k
    case ShortNameKind => ShortNameType
    case LongNameKind => LongNameType
    case ArgMultiplicityKind => ArgsType
    case RequiredKind => RequiredType
    case ParamKind => ParamType
    case DescriptionKind => DescriptionType
  }

  /** The search loop of `forClass`, from position `i` of `values()`. */
  function FieldForClassFrom(cl: AnnotationType, i: nat): (r: Result<FieldAnnotation>)
    requires i <= |FieldKinds|
    ensures r.Ok? ==> FieldAnnotationCl(r.value) == cl
    ensures r.Ok? <==> exists j :: i <= j < |FieldKinds| && FieldAnnotationCl(FieldKinds[j]) == cl
    ensures r.Err? ==> r.error == ArgumentError
    decreases |FieldKinds| - i
  {
    if i == |FieldKinds| then Err(ArgumentError)
    else if FieldAnnotationCl(FieldKinds[i]) == cl then Ok(FieldKinds[i])
    else FieldForClassFrom(cl, i + 1)
  }

  /** `EFieldAnnotation.forClass`: an IllegalArgumentException for a kind the
      library does not define. */
  function FieldForClass(cl: AnnotationType): (r: Result<FieldAnnotation>)
    ensures r.Ok? ==> FieldAnnotationCl(r.value) == cl
    ensures r.Err? ==> r.error == ArgumentError
  {
    FieldForClassFrom(cl, 0)
  }

  /** `EFieldAnnotation.hasForClass`. */
  predicate FieldHasForClass(cl: AnnotationType) {
    exists j :: 0 <= j < |FieldKinds| && FieldAnnotationCl(FieldKinds[j]) == cl
  }

  /** The setter a field declaration forwards to, as a function of the catalogue. */
  function ApplyField(k: FieldAnnotation, r: Registry, f: FieldRef, a: Annotation): (r': Result<Registry>)
    requires TypeOf(a) == FieldAnnotationCl(k)
    ensures r'.Err? ==> r'.error == DefinitionError || r'.error == IndexError
  {
    match k
    case ShortNameKind => SetShortName(r, f, a.name)
    case LongNameKind => SetLongName(r, f, a.name)
    case ArgMultiplicityKind => SetMultiplicity(r, f, a.count)
    case RequiredKind => SetRequired(r, f, a.flag)
    case ParamKind => SetParam(r, f, a.index)
    case DescriptionKind => SetDescription(r, f, a.text)
  }

  /** `EFieldAnnotation.apply`: the declaration's payload passed to its setter
      (the cast in the applier demands the matching kind). */
  method ApplyFieldTo(k: FieldAnnotation, f: FieldRef, a: Annotation, options: OptionMap) returns (o: Outcome)
    requires TypeOf(a) == FieldAnnotationCl(k) && options.Valid()
    modifies options
    ensures options.Valid()
    ensures o == OutcomeOf(ApplyField(k, old(options.Model()), f, a))
    ensures options.Model() == After(ApplyField(k, old(options.Model()), f, a), old(options.Model()))
  {
    match k
    case ShortNameKind => o := options.SetShortName(f, a.name);
    case LongNameKind => o := options.SetLongName(f, a.name);
    case ArgMultiplicityKind => o := options.SetMultiplicity(f, a.count);
    case RequiredKind => o := options.SetRequired(f, a.flag);
    case ParamKind => o := options.SetParam(f, a.index);
    case DescriptionKind => o := options.SetDescription(f, a.text);
  }

  // ---------------------------------------------------------------------
  // EClassAnnotation

  datatype ClassAnnotation = ParamsKind

  /** `EClassAnnotation.values()`. */
  const ClassKinds: seq<ClassAnnotation> := [ParamsKind]

  function ClassAnnotationCl(k: ClassAnnotation): AnnotationType {
    match k
    case ParamsKind => ParamsType
  }

  /** `EClassAnnotation.forClass`. */
  function ClassForClass(cl: AnnotationType): (r: Result<ClassAnnotation>)
    ensures r.Ok? ==> ClassAnnotationCl(r.value) == cl
    ensures r.Err? ==> r.error == ArgumentError
  {
    if ClassAnnotationCl(ClassKinds[0]) == cl then Ok(ClassKinds[0]) else Err(ArgumentError)
  }

  /** `EClassAnnotation.hasForClass`. */
  predicate ClassHasForClass(cl: AnnotationType) {
    exists j :: 0 <= j < |ClassKinds| && ClassAnnotationCl(ClassKinds[j]) == cl
  }

  function ApplyClass(k: ClassAnnotation, r: Registry, a: Annotation): (r': Result<Registry>)
    requires TypeOf(a) == ClassAnnotationCl(k)
    ensures r'.Err? ==> r'.error == DefinitionError || r'.error == ArgumentError
  {
    match k
    case ParamsKind => SetParamMultiplicity(r, a.pattern)
  }

  /** `EClassAnnotation.apply`. */
  method ApplyClassTo(k: ClassAnnotation, a: Annotation, options: OptionMap) returns (o: Outcome)
    requires TypeOf(a) == ClassAnnotationCl(k) && options.Valid()
    modifies options
    ensures options.Valid()
    ensures o == OutcomeOf(ApplyClass(k, old(options.Model()), a))
    ensures options.Model() == After(ApplyClass(k, old(options.Model()), a), old(options.Model()))
  {
    match k
    case ParamsKind => o := options.SetParamMultiplicity(a.pattern);
  }

  // ---------------------------------------------------------------------
  // Lemmas

  /** `forClass` succeeds exactly on the six field kinds and `hasForClass`
      agrees with it; no class kind is a field kind. */
  lemma FieldForClassIff(cl: AnnotationType)
    ensures FieldHasForClass(cl) <==> FieldForClass(cl).Ok?
    ensures FieldForClass(cl).Ok? <==>
      cl in {ShortNameType, LongNameType, ArgsType, RequiredType, ParamType, DescriptionType}
    ensures FieldForClass(ParamsType) == Err(ArgumentError)
  {
    if cl in {ShortNameType, LongNameType, ArgsType, RequiredType, ParamType, DescriptionType} {
      var j := if cl == ShortNameType then 0 else if cl == LongNameType then 1
        else if cl == ArgsType then 2 else if cl == RequiredType then 3
        else if cl == ParamType then 4 else 5;
      assert FieldAnnotationCl(FieldKinds[j]) == cl;
    }
  }

  /** `forClass` yields PARAMS for `@Params` alone and `hasForClass` agrees. */
  lemma ClassForClassIff(cl: AnnotationType)
    ensures ClassHasForClass(cl) <==> ClassForClass(cl).Ok?
    ensures ClassForClass(cl).Ok? <==> cl == ParamsType
    ensures ClassForClass(ParamsType) == Ok(ParamsKind)
    ensures ClassForClass(ShortNameType) == Err(ArgumentError)
  {
    if ClassHasForClass(cl) {
      assert ClassAnnotationCl(ClassKinds[0]) == cl;
    }
  }

  /** Dispatching a library declaration through `forClass` reaches the setter
      matching its kind, with its payload. */
  lemma FieldDispatch(r: Registry, f: FieldRef, a: Annotation)
    requires FieldForClass(TypeOf(a)).Ok?
    ensures var k := FieldForClass(TypeOf(a)).value;
      ApplyField(k, r, f, a) ==
        match a
        case ShortName(s) => SetShortName(r, f, s)
        case LongName(s) => SetLongName(r, f, s)
        case Args(n) => SetMultiplicity(r, f, n)
        case Required(b) => SetRequired(r, f, b)
        case Param(i) => SetParam(r, f, i)
        case Description(d) => SetDescription(r, f, d)
        case Params(_) => Err(ArgumentError)
        case Other(_) => Err(ArgumentError)
  {
    FieldForClassIff(TypeOf(a));
  }

  /** Each field declaration changes only the part of the catalogue its
      setter owns, and keeps the catalogue's invariant. */
  lemma ApplyFieldFrame(k: FieldAnnotation, r: Registry, f: FieldRef, a: Annotation)
    requires TypeOf(a) == FieldAnnotationCl(k) && Registries.Valid(r) && ApplyField(k, r, f, a).Ok?
    ensures var r' := ApplyField(k, r, f, a).value;
      Registries.Valid(r')
      && (k != ShortNameKind ==> r'.shortOpts == r.shortOpts)
      && (k != LongNameKind ==> r'.longOpts == r.longOpts)
      && (k != ArgMultiplicityKind ==> r'.multiplicities == r.multiplicities)
      && (k != RequiredKind ==> r'.required == r.required)
      && (k != ParamKind ==> r'.parameters == r.parameters)
      && (k != DescriptionKind ==> r'.descriptions == r.descriptions)
      && r'.paramMultiplicity == r.paramMultiplicity && r'.allowMerging == r.allowMerging
  {
    var r' := ApplyField(k, r, f, a).value;
    match k
    case ShortNameKind => SetShortNameSpec(r, f, a.name);
    case LongNameKind => SetLongNameSpec(r, f, a.name);
    case ArgMultiplicityKind => ValidFrame(r, r');
    case RequiredKind => ValidFrame(r, r');
    case ParamKind => SetParamSpec(r, f, a.index);
    case DescriptionKind => SetDescriptionSpec(r, f, a.text, a.text);
  }

  /** Bare declarations: `@LongName` alone is refused (its default name is
      empty), `@Required` alone requires, `@Param` alone claims slot 0. */
  lemma BareFieldDeclarations(r: Registry, f: FieldRef)
    requires Registries.Valid(r) && NParams(r) == 0 && f !in r.required
    ensures ApplyField(LongNameKind, r, f, BareLongName) == Err(DefinitionError)
    ensures ApplyField(RequiredKind, r, f, BareRequired).Ok?
    ensures IsRequired(ApplyField(RequiredKind, r, f, BareRequired).value, f)
    ensures ApplyField(ParamKind, r, f, BareParam).Ok?
    ensures GetParamField(ApplyField(ParamKind, r, f, BareParam).value, 0) == Ok(Some(f))
  {
    SetParamSpec(r, f, 0);
  }

  /** `@Params` is accepted once per class; a malformed pattern is the
      multiplicity parser's argument error; a bare `@Params` means exactly 0. */
  lemma ParamsDeclaration(r: Registry, pattern: string, again: string)
    ensures r.paramMultiplicity.Some? ==> ApplyClass(ParamsKind, r, Params(pattern)) == Err(DefinitionError)
    ensures r.paramMultiplicity.None? && Parse(pattern).Err? ==> ApplyClass(ParamsKind, r, Params(pattern)) == Err(ArgumentError)
    ensures r.paramMultiplicity.None? ==> ApplyClass(ParamsKind, r, BareParams) == Ok(r.(paramMultiplicity := Some(Bounds(0, 0))))
  {
    ParseTwo("0", 0, "0", 0);
    assert "0" + ".." + "0" == "0..0";
  }

  /** The declarations of a sample field: `@ShortName("o") @LongName("opt")
      @Args(1) @Description("descr") @Required`, applied in turn to a fresh
      catalogue, bind both names, take one argument, and require it. */
  lemma SampleField(f: FieldRef)
    ensures var r1 := SetShortName(Empty(), f, "o");
      r1.Ok? &&
      var r2 := SetLongName(r1.value, f, "opt");
      r2.Ok? &&
      var r3 := SetMultiplicity(r2.value, f, 1);
      r3.Ok? &&
      var r4 := SetDescription(r3.value, f, "descr");
      r4.Ok? &&
      var r5 := SetRequired(r4.value, f, true);
      r5.Ok? &&
      GetFieldByShortName(r5.value, "o") == Ok(f) && GetFieldByLongName(r5.value, "opt") == Ok(f)
      && ArgMultiplicity(r5.value, f) == 1 && GetDescription(r5.value, f) == "descr"
      && IsRequired(r5.value, f) && SanityChecks(r5.value) == Pass
  {
    var r1 := SetShortName(Empty(), f, "o");
    assert ValidName("o");
    assert ValidName("opt");
    var r5 := r1.value.(longOpts := map["opt" := f], multiplicities := map[f := 1],
                        descriptions := map[f := "descr"], required := map[f := true]);
    assert f in r5.shortOpts.Values by { assert r5.shortOpts["o"] == f; }
    assert !MergeAmbiguous(r5) by {
      forall s | s in r5.shortOpts ensures |s| <= 1 {
        assert s == "o";
      }
    }
  }
}
