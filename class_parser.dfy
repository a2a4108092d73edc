/** `ClassParser`: reads the declarations of a user class into a fresh
    `OptionMap` (class-level declarations first, then each field's), skipping
    declarations the library does not define, and returns the catalogue only
    once `sanityChecks` passes.

    The class is given as its declarations: reflection over annotations and
    declared fields is not modelled. */
module ClassParsing {
  import opened Results
  import opened Decimal
  import opened Multiplicities
  import opened FieldTypes
  import opened Registries
  import opened OptionMaps
  import opened Annotations

  /** A declared field: its identity, its Java type and its declarations. */
  datatype FieldDecl = FieldDecl(ref: FieldRef, cl: JavaClass, annotations: seq<Annotation>)

  /** A user class: its own declarations and its declared fields. */
  datatype ClassDecl = ClassDecl(annotations: seq<Annotation>, fields: seq<FieldDecl>)

  /** `field.getType()`: the declared type of the first field with this
      identity; a field the class does not declare has no type the
      converters serve. */
  function FieldClass(fields: seq<FieldDecl>, f: FieldRef): JavaClass {
    if fields == [] then OtherClass("")
    else if fields[0].ref == f then fields[0].cl
    else FieldClass(fields[1..], f)
  }

  // ---------------------------------------------------------------------
  // The fold, as functions

  /** One class-level declaration: skipped unless the library defines it. */
  function ClassStep(r: Registry, a: Annotation): (r': Result<Registry>)
    requires Registries.Valid(r)
    ensures r'.Ok? ==> Registries.Valid(r'.value) && r'.value.allowMerging == r.allowMerging
  {
    ClassForClassIff(TypeOf(a));
    if !ClassHasForClass(TypeOf(a)) then Ok(r)
    else
      var r' := ApplyClass(ClassForClass(TypeOf(a)).value, r, a);
      if r'.Ok? then
        ValidFrame(r, r'.value);
        r'
      else r'
  }

  /** The class-level declarations in order; the first error aborts. */
  function ClassDecls(r: Registry, anns: seq<Annotation>): (r': Result<Registry>)
    requires Registries.Valid(r)
    ensures r'.Ok? ==> Registries.Valid(r'.value) && r'.value.allowMerging == r.allowMerging
    decreases |anns|
  {
    if anns == [] then Ok(r)
    else
      var prev :- ClassDecls(r, anns[..|anns| - 1]);
      ClassStep(prev, anns[|anns| - 1])
  }

  /** One declaration of field `f`: skipped unless the library defines it. */
  function FieldStep(r: Registry, f: FieldRef, a: Annotation): (r': Result<Registry>)
    requires Registries.Valid(r)
    ensures r'.Ok? ==> Registries.Valid(r'.value) && r'.value.allowMerging == r.allowMerging
  {
    FieldForClassIff(TypeOf(a));
    if !FieldHasForClass(TypeOf(a)) then Ok(r)
    else
      var k := FieldForClass(TypeOf(a)).value;
      var r' := ApplyField(k, r, f, a);
      if r'.Ok? then
        ApplyFieldFrame(k, r, f, a);
        r'
      else r'
  }

  /** `parseField`: the field's declarations in order. */
  function FieldDecls(r: Registry, f: FieldRef, anns: seq<Annotation>): (r': Result<Registry>)
    requires Registries.Valid(r)
    ensures r'.Ok? ==> Registries.Valid(r'.value) && r'.value.allowMerging == r.allowMerging
    decreases |anns|
  {
    if anns == [] then Ok(r)
    else
      var prev :- FieldDecls(r, f, anns[..|anns| - 1]);
      FieldStep(prev, f, anns[|anns| - 1])
  }

  /** Every declared field in order. */
  function Fields(r: Registry, fields: seq<FieldDecl>): (r': Result<Registry>)
    requires Registries.Valid(r)
    ensures r'.Ok? ==> Registries.Valid(r'.value) && r'.value.allowMerging == r.allowMerging
    decreases |fields|
  {
    if fields == [] then Ok(r)
    else
      var prev :- Fields(r, fields[..|fields| - 1]);
      var fd := fields[|fields| - 1];
      FieldDecls(prev, fd.ref, fd.annotations)
  }

  /** `parse`: a fresh catalogue, the class's declarations, the fields'
      declarations, then `sanityChecks`. */
  function Build(c: ClassDecl, allowMerging: bool): (r: Result<Registry>)
    ensures r.Ok? ==> Registries.Valid(r.value) && SanityChecks(r.value) == Pass
    ensures r.Ok? ==> r.value.allowMerging == allowMerging
  {
    EmptyIsValid();
    var r0 := AllowShortNamesMerging(Empty(), allowMerging);
    var r1 :- ClassDecls(r0, c.annotations);
    var r2 :- Fields(r1, c.fields);
    var sane := SanityChecks(r2);
    if sane.Fail? then Err(sane.error) else Ok(r2)
  }

  // ---------------------------------------------------------------------
  // The parser object

  class ClassParser {
    const decl: ClassDecl
    var allowMerging: bool

    constructor(decl: ClassDecl)
      ensures this.decl == decl && allowMerging
    {
      this.decl := decl;
      allowMerging := true;
    }

    method AllowShortNamesMerging(allow: bool)
      modifies this`allowMerging
      ensures allowMerging == allow
    {
      allowMerging := allow;
    }

    /** `parseField`: one pass over the field's declarations. */
    method ParseField(options: OptionMap, fd: FieldDecl) returns (o: Outcome)
      requires options.Valid()
      modifies options
      ensures options.Valid()
      ensures o == OutcomeOf(FieldDecls(old(options.Model()), fd.ref, fd.annotations))
      ensures o.Pass? ==> Ok(options.Model()) == FieldDecls(old(options.Model()), fd.ref, fd.annotations)
    {
      ghost var r0 := options.Model();
      for i := 0 to |fd.annotations|
        invariant options.Valid()
        invariant FieldDecls(r0, fd.ref, fd.annotations[..i]) == Ok(options.Model())
      {
        var a := fd.annotations[i];
        FieldDeclsNext(r0, fd.ref, fd.annotations, i, options.Model());
        FieldForClassIff(TypeOf(a));
        if !FieldHasForClass(TypeOf(a)) {
          continue;
        }
        var k := FieldForClass(TypeOf(a)).value;
        ghost var prev := options.Model();
        o := ApplyFieldTo(k, fd.ref, a, options);
        assert FieldStep(prev, fd.ref, a) == ApplyField(k, prev, fd.ref, a);
        if o.Fail? {
          FieldDeclsAbortAt(r0, fd.ref, fd.annotations, i);
          return;
        }
      }
      assert fd.annotations[..|fd.annotations|] == fd.annotations;
      o := Pass;
    }

    /** The loop over the class-level declarations of `parse`. */
    method ParseClassDecls(options: OptionMap) returns (o: Outcome)
      requires options.Valid()
      modifies options
      ensures options.Valid()
      ensures o == OutcomeOf(ClassDecls(old(options.Model()), decl.annotations))
      ensures o.Pass? ==> Ok(options.Model()) == ClassDecls(old(options.Model()), decl.annotations)
    {
      ghost var r0 := options.Model();
      for i := 0 to |decl.annotations|
        invariant options.Valid()
        invariant ClassDecls(r0, decl.annotations[..i]) == Ok(options.Model())
      {
        var a := decl.annotations[i];
        ClassDeclsNext(r0, decl.annotations, i, options.Model());
        ClassForClassIff(TypeOf(a));
        if !ClassHasForClass(TypeOf(a)) {
          continue;
        }
        var k := ClassForClass(TypeOf(a)).value;
        ghost var prev := options.Model();
        o := ApplyClassTo(k, a, options);
        assert ClassStep(prev, a) == ApplyClass(k, prev, a);
        if o.Fail? {
          ClassDeclsAbortAt(r0, decl.annotations, i);
          return;
        }
      }
      assert decl.annotations[..|decl.annotations|] == decl.annotations;
      o := Pass;
    }

    /** The loop over the declared fields of `parse`. */
    method ParseFields(options: OptionMap) returns (o: Outcome)
      requires options.Valid()
      modifies options
      ensures options.Valid()
      ensures o == OutcomeOf(Fields(old(options.Model()), decl.fields))
      ensures o.Pass? ==> Ok(options.Model()) == Fields(old(options.Model()), decl.fields)
    {
      ghost var r1 := options.Model();
      for j := 0 to |decl.fields|
        invariant options.Valid()
        invariant Fields(r1, decl.fields[..j]) == Ok(options.Model())
      {
        FieldsNext(r1, decl.fields, j, options.Model());
        o := ParseField(options, decl.fields[j]);
        if o.Fail? {
          FieldsAbortAt(r1, decl.fields, j);
          return;
        }
      }
      assert decl.fields[..|decl.fields|] == decl.fields;
      o := Pass;
    }

    /** `parse`: a fresh catalogue, then the class's declarations, the
        fields' declarations and `sanityChecks`. */
    method Parse() returns (r: Result<OptionMap>)
      ensures r.Ok? ==> fresh(r.value) && r.value.Valid() && Build(decl, allowMerging) == Ok(r.value.Model())
      ensures r.Err? ==> Build(decl, allowMerging) == Err(r.error)
    {
      var options := new OptionMap();
      options.AllowShortNamesMerging(allowMerging);
      var o := ParseClassDecls(options);
      if o.Fail? {
        return Err(o.error);
      }
      o := ParseFields(options);
      if o.Fail? {
        return Err(o.error);
      }
      var sane := SanityChecks(options.Model());
      if sane.Fail? {
        return Err(sane.error);
      }
      r := Ok(options);
    }
  }

  // ---------------------------------------------------------------------
  // Lemmas

  /** Once a declaration fails, later declarations are never applied: the
      failure is the result. */
  lemma {:induction false} FirstErrorAbortsField(r: Registry, f: FieldRef, anns: seq<Annotation>, more: seq<Annotation>)
    requires Registries.Valid(r) && FieldDecls(r, f, anns).Err?
    ensures FieldDecls(r, f, anns + more) == FieldDecls(r, f, anns)
    decreases |more|
  {
    if more == [] {
      assert anns + more == anns;
    } else {
      var init := more[..|more| - 1];
      FirstErrorAbortsField(r, f, anns, init);
      assert (anns + more)[..|anns + more| - 1] == anns + init;
    }
  }

  lemma {:induction false} FirstErrorAbortsClass(r: Registry, anns: seq<Annotation>, more: seq<Annotation>)
    requires Registries.Valid(r) && ClassDecls(r, anns).Err?
    ensures ClassDecls(r, anns + more) == ClassDecls(r, anns)
    decreases |more|
  {
    if more == [] {
      assert anns + more == anns;
    } else {
      var init := more[..|more| - 1];
      FirstErrorAbortsClass(r, anns, init);
      assert (anns + more)[..|anns + more| - 1] == anns + init;
    }
  }

  lemma {:induction false} FirstErrorAbortsFields(r: Registry, fields: seq<FieldDecl>, more: seq<FieldDecl>)
    requires Registries.Valid(r) && Fields(r, fields).Err?
    ensures Fields(r, fields + more) == Fields(r, fields)
    decreases |more|
  {
    if more == [] {
      assert fields + more == fields;
    } else {
      var init := more[..|more| - 1];
      FirstErrorAbortsFields(r, fields, init);
      assert (fields + more)[..|fields + more| - 1] == fields + init;
    }
  }

  /** The field declarations the library defines, in order. */
  function LibraryFieldDecls(anns: seq<Annotation>): (s: seq<Annotation>)
    ensures forall i :: 0 <= i < |s| ==> FieldHasForClass(TypeOf(s[i]))
    decreases |anns|
  {
    if anns == [] then []
    else
      var last := anns[|anns| - 1];
      LibraryFieldDecls(anns[..|anns| - 1]) + if FieldHasForClass(TypeOf(last)) then [last] else []
  }

  /** Declarations of kinds the library does not define are skipped, never
      refused: dropping them changes nothing. */
  lemma {:induction false} ForeignFieldDeclsSkipped(r: Registry, f: FieldRef, anns: seq<Annotation>)
    requires Registries.Valid(r)
    ensures FieldDecls(r, f, anns) == FieldDecls(r, f, LibraryFieldDecls(anns))
    decreases |anns|
  {
    if anns != [] {
      var init := anns[..|anns| - 1];
      var last := anns[|anns| - 1];
      ForeignFieldDeclsSkipped(r, f, init);
      var kept := LibraryFieldDecls(init);
      if FieldHasForClass(TypeOf(last)) {
        assert LibraryFieldDecls(anns) == kept + [last];
        assert (kept + [last])[..|kept + [last]| - 1] == kept;
      } else {
        assert LibraryFieldDecls(anns) == kept;
      }
    }
  }

  /** A class-level declaration of a foreign kind is skipped. */
  lemma ForeignClassDeclSkipped(r: Registry, anns: seq<Annotation>, kind: string)
    requires Registries.Valid(r)
    ensures ClassDecls(r, anns + [Other(kind)]) == ClassDecls(r, anns)
  {
    var b := anns + [Other(kind)];
    assert b[..|anns|] == anns && b[|b| - 1] == Other(kind);
    assert ClassDecls(r, b) == if ClassDecls(r, anns).Err? then ClassDecls(r, anns)
                               else ClassStep(ClassDecls(r, anns).value, Other(kind));
    if ClassDecls(r, anns).Ok? {
      ForeignClassStep(ClassDecls(r, anns).value, kind);
    }
  }

  /** A class declaration of a foreign kind changes nothing. */
  lemma ForeignClassStep(r: Registry, kind: string)
    requires Registries.Valid(r)
    ensures ClassStep(r, Other(kind)) == Ok(r)
  {
    ClassForClassIff(OtherType(kind));
  }

  /** A class-level `@Params` goes to `setParamMultiplicity`. */
  lemma ParamsStep(r: Registry, pattern: string)
    requires Registries.Valid(r)
    ensures ClassStep(r, Params(pattern)) == SetParamMultiplicity(r, pattern)
  {
    ClassForClassIff(ParamsType);
  }

  /** A field with a single declaration. */
  function OneDecl(r: Registry, f: FieldRef, a: Annotation): (r': Result<Registry>)
    requires Registries.Valid(r)
    ensures r' == FieldDecls(r, f, [a])
  {
    assert [a][..0] == [];
    FieldStep(r, f, a)
  }

  /** Appending a field runs its declarations on the catalogue so far. */
  lemma FieldsSnoc(r: Registry, fields: seq<FieldDecl>, fd: FieldDecl)
    requires Registries.Valid(r)
    ensures Fields(r, fields + [fd]) ==
      if Fields(r, fields).Err? then Fields(r, fields)
      else FieldDecls(Fields(r, fields).value, fd.ref, fd.annotations)
  {
    assert (fields + [fd])[..|fields|] == fields;
  }

  /** A field declaring one fresh, valid short name. */
  lemma ShortNameField(r: Registry, f: FieldRef, name: string)
    requires Registries.Valid(r) && ValidName(name) && name !in r.shortOpts && f !in r.shortOpts.Values
    ensures FieldDecls(r, f, [ShortName(name)]) == Ok(r.(shortOpts := r.shortOpts[name := f]))
    ensures Registries.Valid(r.(shortOpts := r.shortOpts[name := f]))
  {
    SetShortNameSpec(r, f, name);
    FieldForClassIff(ShortNameType);
    assert OneDecl(r, f, ShortName(name)) == Ok(r.(shortOpts := r.shortOpts[name := f]));
  }

  /** A field of type String declaring one short name. */
  function ShortField(f: FieldRef, name: string): FieldDecl {
    FieldDecl(f, StringClass, [ShortName(name)])
  }

  /** Two fields each declaring one distinct short name. */
  lemma TwoShortNameFields(r0: Registry, a: FieldRef, b: FieldRef, sa: string, sb: string)
    requires r0.shortOpts == map[] && Registries.Valid(r0)
    requires a != b && sa != sb && ValidName(sa) && ValidName(sb)
    ensures Fields(r0, [ShortField(a, sa), ShortField(b, sb)]) == Ok(r0.(shortOpts := map[sa := a, sb := b]))
    ensures Registries.Valid(r0.(shortOpts := map[sa := a, sb := b]))
  {
    var fa := ShortField(a, sa);
    var fb := ShortField(b, sb);
    var r1 := r0.(shortOpts := map[sa := a]);
    FieldsSnoc(r0, [], fa);
    assert [] + [fa] == [fa];
    ShortNameField(r0, a, sa);
    assert Fields(r0, [fa]) == Ok(r1);
    FieldsSnoc(r0, [fa], fb);
    assert [fa] + [fb] == [fa, fb];
    assert b !in r1.shortOpts.Values;
    ShortNameField(r1, b, sb);
    assert r1.shortOpts[sb := b] == map[sa := a, sb := b];
  }

  /** The three short-name fields of a class. */
  function ShortFields(a: FieldRef, b: FieldRef, c: FieldRef, sa: string, sb: string, sc: string): seq<FieldDecl> {
    [ShortField(a, sa), ShortField(b, sb), ShortField(c, sc)]
  }

  /** Three fields each declaring one distinct short name build exactly
      those three bindings. */
  lemma ThreeShortNameFields(r0: Registry, a: FieldRef, b: FieldRef, c: FieldRef, sa: string, sb: string, sc: string)
    requires r0.shortOpts == map[] && Registries.Valid(r0)
    requires a != b && b != c && a != c && sa != sb && sb != sc && sa != sc
    requires ValidName(sa) && ValidName(sb) && ValidName(sc)
    ensures Fields(r0, ShortFields(a, b, c, sa, sb, sc)) == Ok(r0.(shortOpts := map[sa := a, sb := b, sc := c]))
  {
    var two := [ShortField(a, sa), ShortField(b, sb)];
    var r2 := r0.(shortOpts := map[sa := a, sb := b]);
    TwoShortNameFields(r0, a, b, sa, sb);
    FieldsSnoc(r0, two, ShortField(c, sc));
    assert two + [ShortField(c, sc)] == ShortFields(a, b, c, sa, sb, sc);
    assert c !in r2.shortOpts.Values by {
      assert forall s :: s in r2.shortOpts ==> r2.shortOpts[s] != c;
    }
    ShortNameField(r2, c, sc);
    assert r2.shortOpts[sc := c] == map[sa := a, sb := b, sc := c];
  }

  /** The class with three fields, "-a", "-b" and "-ab". */
  function AmbiguousDecl(a: FieldRef, b: FieldRef, ab: FieldRef): ClassDecl {
    ClassDecl([], ShortFields(a, b, ab, "a", "b", "ab"))
  }

  /** Building that class yields the three bindings for sanityChecks to judge. */
  lemma AmbiguousBuild(allow: bool, a: FieldRef, b: FieldRef, ab: FieldRef)
    requires a != b && b != ab && a != ab
    ensures var r := AllowShortNamesMerging(Empty(), allow).(shortOpts := map["a" := a, "b" := b, "ab" := ab]);
      Build(AmbiguousDecl(a, b, ab), allow) == if SanityChecks(r).Fail? then Err(DefinitionError) else Ok(r)
  {
    EmptyIsValid();
    assert ValidName("a") && ValidName("b") && ValidName("ab");
    ThreeShortNameFields(AllowShortNamesMerging(Empty(), allow), a, b, ab, "a", "b", "ab");
  }

  /** The three fields "-a", "-b" and "-ab" are refused while short names may
      be merged, and accepted once merging is disabled. */
  lemma AmbiguousClass(a: FieldRef, b: FieldRef, ab: FieldRef)
    requires a != b && b != ab && a != ab
    ensures Build(AmbiguousDecl(a, b, ab), true) == Err(DefinitionError)
    ensures Build(AmbiguousDecl(a, b, ab), false).Ok?
  {
    AmbiguousBuild(true, a, b, ab);
    AmbiguousBuild(false, a, b, ab);
    var r3 := Empty().(shortOpts := map["a" := a, "b" := b, "ab" := ab]);
    MergeAmbiguityExamples(a, b, ab);
    assert r3.shortOpts.Values == {a, b, ab} by {
      assert r3.shortOpts["a"] == a && r3.shortOpts["b"] == b && r3.shortOpts["ab"] == ab;
    }
    assert SanityChecks(r3) == Fail(DefinitionError);
    assert SanityChecks(r3.(allowMerging := false)) == Pass;
  }

  /** A class-level `@Params` with a well-formed pattern, on a fresh catalogue. */
  lemma ParamsClass(allow: bool, pattern: string)
    requires Parse(pattern).Ok?
    ensures ClassDecls(AllowShortNamesMerging(Empty(), allow), [Params(pattern)])
      == Ok(AllowShortNamesMerging(Empty(), allow).(paramMultiplicity := Some(Parse(pattern).value)))
  {
    EmptyIsValid();
    var r := AllowShortNamesMerging(Empty(), allow);
    assert [Params(pattern)][..0] == [];
    assert ClassDecls(r, [Params(pattern)]) == ClassStep(r, Params(pattern));
    ParamsStep(r, pattern);
  }

  /** `@Args(-1)` on a field aborts its declarations with a definition error,
      whatever follows and whatever foreign declarations precede it. */
  lemma NegativeArgsField(r: Registry, f: FieldRef, before: seq<Annotation>, after: seq<Annotation>)
    requires Registries.Valid(r)
    requires forall i :: 0 <= i < |before| ==> !FieldHasForClass(TypeOf(before[i]))
    ensures FieldDecls(r, f, before + [Args(-1)] + after) == Err(DefinitionError)
  {
    ForeignFieldDeclsSkipped(r, f, before);
    NoLibraryDecls(before);
    assert FieldDecls(r, f, []) == Ok(r);
    assert (before + [Args(-1)])[..|before|] == before;
    FieldForClassIff(ArgsType);
    assert FieldDecls(r, f, before + [Args(-1)]) == Err(DefinitionError);
    FirstErrorAbortsField(r, f, before + [Args(-1)], after);
  }

  /** A class whose field carries `@Args(-1)` is refused with a definition error. */
  lemma NegativeArgsRefused(f: FieldRef, pattern: string, before: seq<Annotation>, after: seq<Annotation>)
    requires Parse(pattern).Ok?
    requires forall i :: 0 <= i < |before| ==> !FieldHasForClass(TypeOf(before[i]))
    ensures Build(ClassDecl([Params(pattern)], [FieldDecl(f, StringClass, before + [Args(-1)] + after)]), true)
      == Err(DefinitionError)
  {
    ParamsClass(true, pattern);
    var r1 := Empty().(paramMultiplicity := Some(Parse(pattern).value));
    EmptyIsValid();
    NegativeArgsField(r1, f, before, after);
    var fd := FieldDecl(f, StringClass, before + [Args(-1)] + after);
    FieldsSnoc(r1, [], fd);
    assert [] + [fd] == [fd];
  }

  /** The sample class: `@Params("1..1")` and a foreign class declaration;
      a field `-f,--field` taking one argument with a foreign declaration, and
      a `@Param` field. */
  function SampleDecl(f: FieldRef, p: FieldRef): ClassDecl {
    ClassDecl([Params("1..1"), Other("NoOpForClass")],
              [FieldDecl(f, StringClass, SampleFieldDecls()),
               FieldDecl(p, StringClass, [Param(0)])])
  }

  /** One more class declaration runs on the catalogue so far. */
  lemma ClassDeclsNext(r: Registry, anns: seq<Annotation>, i: nat, prev: Registry)
    requires Registries.Valid(r) && i < |anns| && ClassDecls(r, anns[..i]) == Ok(prev)
    ensures Registries.Valid(prev)
    ensures ClassDecls(r, anns[..i + 1]) == ClassStep(prev, anns[i])
  {
    assert anns[..i + 1][..i] == anns[..i];
  }

  /** One more field runs its declarations on the catalogue so far. */
  lemma FieldsNext(r: Registry, fields: seq<FieldDecl>, j: nat, prev: Registry)
    requires Registries.Valid(r) && j < |fields| && Fields(r, fields[..j]) == Ok(prev)
    ensures Registries.Valid(prev)
    ensures Fields(r, fields[..j + 1]) == FieldDecls(prev, fields[j].ref, fields[j].annotations)
  {
    assert fields[..j + 1][..j] == fields[..j];
  }

  /** A failure at position i is the result of the whole list. */
  lemma ClassDeclsAbortAt(r: Registry, anns: seq<Annotation>, i: nat)
    requires Registries.Valid(r) && i < |anns| && ClassDecls(r, anns[..i + 1]).Err?
    ensures ClassDecls(r, anns) == ClassDecls(r, anns[..i + 1])
  {
    FirstErrorAbortsClass(r, anns[..i + 1], anns[i + 1..]);
    assert anns[..i + 1] + anns[i + 1..] == anns;
  }

  lemma FieldDeclsAbortAt(r: Registry, f: FieldRef, anns: seq<Annotation>, i: nat)
    requires Registries.Valid(r) && i < |anns| && FieldDecls(r, f, anns[..i + 1]).Err?
    ensures FieldDecls(r, f, anns) == FieldDecls(r, f, anns[..i + 1])
  {
    FirstErrorAbortsField(r, f, anns[..i + 1], anns[i + 1..]);
    assert anns[..i + 1] + anns[i + 1..] == anns;
  }

  lemma FieldsAbortAt(r: Registry, fields: seq<FieldDecl>, j: nat)
    requires Registries.Valid(r) && j < |fields| && Fields(r, fields[..j + 1]).Err?
    ensures Fields(r, fields) == Fields(r, fields[..j + 1])
  {
    FirstErrorAbortsFields(r, fields[..j + 1], fields[j + 1..]);
    assert fields[..j + 1] + fields[j + 1..] == fields;
  }

  /** One more declaration of the field runs on the catalogue so far. */
  lemma FieldDeclsNext(r: Registry, f: FieldRef, anns: seq<Annotation>, i: nat, prev: Registry)
    requires Registries.Valid(r) && i < |anns| && FieldDecls(r, f, anns[..i]) == Ok(prev)
    ensures Registries.Valid(prev)
    ensures FieldDecls(r, f, anns[..i + 1]) == FieldStep(prev, f, anns[i])
  {
    assert anns[..i + 1][..i] == anns[..i];
  }

  /** Appending a declaration runs it on the field's catalogue so far. */
  lemma FieldDeclsSnoc(r: Registry, f: FieldRef, anns: seq<Annotation>, a: Annotation)
    requires Registries.Valid(r)
    ensures FieldDecls(r, f, anns + [a]) ==
      if FieldDecls(r, f, anns).Err? then FieldDecls(r, f, anns)
      else FieldStep(FieldDecls(r, f, anns).value, f, a)
  {
    assert (anns + [a])[..|anns|] == anns;
  }

  lemma SampleShortStep(r: Registry, f: FieldRef)
    requires Registries.Valid(r) && r.shortOpts == map[]
    ensures FieldStep(r, f, ShortName("f")) == Ok(r.(shortOpts := map["f" := f]))
  {
    assert ValidName("f");
    FieldForClassIff(ShortNameType);
  }

  lemma SampleLongStep(r: Registry, f: FieldRef)
    requires Registries.Valid(r) && r.longOpts == map[]
    ensures FieldStep(r, f, LongName("field")) == Ok(r.(longOpts := map["field" := f]))
  {
    assert ValidName("field");
    FieldForClassIff(LongNameType);
  }

  lemma SampleArgsStep(r: Registry, f: FieldRef)
    requires Registries.Valid(r) && r.multiplicities == map[]
    ensures FieldStep(r, f, Args(1)) == Ok(r.(multiplicities := map[f := 1]))
  {
    FieldForClassIff(ArgsType);
  }

  lemma SampleFirstTwo(r: Registry, f: FieldRef)
    requires Registries.Valid(r) && r.shortOpts == map[] && r.longOpts == map[]
    ensures FieldDecls(r, f, [ShortName("f"), LongName("field")])
      == Ok(r.(shortOpts := map["f" := f], longOpts := map["field" := f]))
  {
    var r1 := r.(shortOpts := map["f" := f]);
    SampleShortStep(r, f);
    assert OneDecl(r, f, ShortName("f")) == Ok(r1);
    FieldDeclsSnoc(r, f, [ShortName("f")], LongName("field"));
    assert [ShortName("f")] + [LongName("field")] == [ShortName("f"), LongName("field")];
    SampleLongStep(r1, f);
  }

  lemma SampleFirstThree(r: Registry, f: FieldRef)
    requires Registries.Valid(r) && r.shortOpts == map[] && r.longOpts == map[] && r.multiplicities == map[]
    ensures FieldDecls(r, f, [ShortName("f"), LongName("field"), Args(1)])
      == Ok(r.(shortOpts := map["f" := f], longOpts := map["field" := f], multiplicities := map[f := 1]))
  {
    var r2 := r.(shortOpts := map["f" := f], longOpts := map["field" := f]);
    SampleFirstTwo(r, f);
    FieldDeclsSnoc(r, f, [ShortName("f"), LongName("field")], Args(1));
    assert [ShortName("f"), LongName("field")] + [Args(1)] == [ShortName("f"), LongName("field"), Args(1)];
    SampleArgsStep(r2, f);
  }

  /** A field declaration of a foreign kind changes nothing. */
  lemma ForeignFieldStep(r: Registry, f: FieldRef, kind: string)
    requires Registries.Valid(r)
    ensures FieldStep(r, f, Other(kind)) == Ok(r)
  {
    FieldForClassIff(OtherType(kind));
  }

  /** The named field's declarations. */
  function SampleFieldDecls(): seq<Annotation> {
    [ShortName("f"), LongName("field"), Args(1), Other("NoOpForField")]
  }

  /** What the named field's declarations build. */
  lemma SampleNamedField(r: Registry, f: FieldRef)
    requires Registries.Valid(r) && r.shortOpts == map[] && r.longOpts == map[] && r.multiplicities == map[]
    ensures FieldDecls(r, f, SampleFieldDecls())
      == Ok(r.(shortOpts := map["f" := f], longOpts := map["field" := f], multiplicities := map[f := 1]))
  {
    var s3 := [ShortName("f"), LongName("field"), Args(1)];
    SampleFirstThree(r, f);
    var r3 := r.(shortOpts := map["f" := f], longOpts := map["field" := f], multiplicities := map[f := 1]);
    FieldDeclsSnoc(r, f, s3, Other("NoOpForField"));
    assert FieldDecls(r, f, s3) == Ok(r3);
    ForeignFieldStep(r3, f, "NoOpForField");
    assert s3 + [Other("NoOpForField")] == SampleFieldDecls();
  }

  /** "1..1" reads as exactly one. */
  lemma ExactlyOneParses()
    ensures Parse("1..1") == Ok(Bounds(1, 1))
  {
    assert "1" + ".." + "1" == "1..1";
    ParseInt32Small(1);
    assert IntToString(1) == "1" by { assert DigitChar(1) == '1'; }
    ParseTwo("1", 1, "1", 1);
  }

  /** The sample class's own declarations set the wanted parameter count. */
  lemma SampleClassDecls()
    ensures ClassDecls(Empty(), [Params("1..1"), Other("NoOpForClass")])
      == Ok(Empty().(paramMultiplicity := Some(Bounds(1, 1))))
  {
    ExactlyOneParses();
    ParamsThenForeign("1..1", "NoOpForClass", Bounds(1, 1));
  }

  /** A parameter pattern followed by a foreign class declaration. */
  lemma ParamsThenForeign(pattern: string, kind: string, m: Multiplicity)
    requires Parse(pattern) == Ok(m)
    ensures ClassDecls(Empty(), [Params(pattern), Other(kind)]) == Ok(Empty().(paramMultiplicity := Some(m)))
  {
    EmptyIsValid();
    assert AllowShortNamesMerging(Empty(), true) == Empty();
    ParamsClass(true, pattern);
    ForeignClassDeclSkipped(Empty(), [Params(pattern)], kind);
    assert [Params(pattern)] + [Other(kind)] == [Params(pattern), Other(kind)];
  }

  /** The `@Param` field claims slot 0 of an empty parameter list. */
  lemma SampleParamField(r: Registry, p: FieldRef)
    requires Registries.Valid(r) && r.parameters == []
    ensures FieldDecls(r, p, [Param(0)]) == Ok(r.(parameters := [Some(p)]))
  {
    assert SetParam(r, p, 0) == Ok(r.(parameters := [Some(p)])) by {
      assert Add32(0, 1) == 1;
      assert Padded([], 1) == [None];
      assert [None][0 := Some(p)] == [Some(p)];
    }
    ParamStep(r, p, 0);
    assert OneDecl(r, p, Param(0)) == FieldStep(r, p, Param(0));
  }

  /** A field-level `@Param` goes to `setParam`. */
  lemma ParamStep(r: Registry, f: FieldRef, index: Int32)
    requires Registries.Valid(r)
    ensures FieldStep(r, f, Param(index)) == SetParam(r, f, index)
  {
    FieldForClassIff(ParamType);
  }

  /** The catalogue the sample fields build. */
  function SampleRegistry(f: FieldRef, p: FieldRef): Registry {
    Empty().(paramMultiplicity := Some(Bounds(1, 1)),
             shortOpts := map["f" := f], longOpts := map["field" := f], multiplicities := map[f := 1],
             parameters := [Some(p)])
  }

  lemma SampleFields(f: FieldRef, p: FieldRef)
    ensures Registries.Valid(Empty().(paramMultiplicity := Some(Bounds(1, 1))))
    ensures Fields(Empty().(paramMultiplicity := Some(Bounds(1, 1))), SampleDecl(f, p).fields)
      == Ok(SampleRegistry(f, p))
  {
    var r1 := Empty().(paramMultiplicity := Some(Bounds(1, 1)));
    var fd := SampleDecl(f, p).fields[0];
    var pd := SampleDecl(f, p).fields[1];
    var r2 := r1.(shortOpts := map["f" := f], longOpts := map["field" := f], multiplicities := map[f := 1]);
    SampleFirstField(f, p);
    FieldsSnoc(r1, [fd], pd);
    assert [fd] + [pd] == SampleDecl(f, p).fields;
    SampleParamField(r2, p);
  }

  /** The named field comes first and builds its names and count. */
  lemma SampleFirstField(f: FieldRef, p: FieldRef)
    ensures Registries.Valid(Empty().(paramMultiplicity := Some(Bounds(1, 1))))
    ensures Fields(Empty().(paramMultiplicity := Some(Bounds(1, 1))), [SampleDecl(f, p).fields[0]])
      == Ok(Empty().(paramMultiplicity := Some(Bounds(1, 1)),
                     shortOpts := map["f" := f], longOpts := map["field" := f], multiplicities := map[f := 1]))
  {
    EmptyIsValid();
    var r1 := Empty().(paramMultiplicity := Some(Bounds(1, 1)));
    var fd := SampleDecl(f, p).fields[0];
    SampleNamedField(r1, f);
    FieldsSnoc(r1, [], fd);
    assert [] + [fd] == [fd];
  }

  lemma SampleSane(f: FieldRef, p: FieldRef)
    requires f != p
    ensures SanityChecks(SampleRegistry(f, p)) == Pass
  {
    var r3 := SampleRegistry(f, p);
    assert f in r3.shortOpts.Values by { assert r3.shortOpts["f"] == f; }
    assert !IsNamed(r3, p);
    assert !SomeNamedSlot(r3);
    assert !MergeAmbiguous(r3) by {
      forall s | s in r3.shortOpts ensures |s| <= 1 {
        assert s == "f";
      }
    }
  }

  /** The sample class builds: one parameter slot held by the `@Param`
      field, exactly one parameter wanted, and the named field reachable by
      both names with one argument. */
  lemma SampleClassOk(f: FieldRef, p: FieldRef)
    requires f != p
    ensures var r := Build(SampleDecl(f, p), true);
      r.Ok? && ParamMultiplicity(r.value) == Bounds(1, 1) && NParams(r.value) == 1
      && GetParamField(r.value, 0) == Ok(Some(p))
      && GetFieldByShortName(r.value, "f") == Ok(f) && GetFieldByLongName(r.value, "field") == Ok(f)
      && ArgMultiplicity(r.value, f) == 1
  {
    assert AllowShortNamesMerging(Empty(), true) == Empty();
    SampleClassDecls();
    SampleFields(f, p);
    SampleSane(f, p);
    assert Build(SampleDecl(f, p), true) == Ok(SampleRegistry(f, p));
  }

  lemma {:induction false} NoLibraryDecls(anns: seq<Annotation>)
    requires forall i :: 0 <= i < |anns| ==> !FieldHasForClass(TypeOf(anns[i]))
    ensures LibraryFieldDecls(anns) == []
    decreases |anns|
  {
    if anns != [] {
      NoLibraryDecls(anns[..|anns| - 1]);
    }
  }
}
