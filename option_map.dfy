/** `OptionMap`: the mutable catalogue the class parser fills in, one setter
    call per annotation. Each setter is proved against the matching function
    of `Registries`: on success the catalogue becomes that function's result,
    on failure it is left as it was. */
module OptionMaps {
  import opened Results
  import opened Decimal
  import opened Multiplicities
  import opened Registries

  class OptionMap {
    var shortOpts: map<string, FieldRef>
    var longOpts: map<string, FieldRef>
    var multiplicities: map<FieldRef, Count>
    var required: map<FieldRef, bool>
    var descriptions: map<FieldRef, string>
    var parameters: seq<Option<FieldRef>>
    var paramMultiplicity: Option<Multiplicity>
    var allowMerging: bool

    /** The catalogue these fields hold. */
    function Model(): Registry
      reads this
    {
      Registry(shortOpts, longOpts, multiplicities, required, descriptions,
               parameters, paramMultiplicity, allowMerging)
    }

    ghost predicate Valid()
      reads this
    {
      Registries.Valid(Model())
    }

    constructor()
      ensures Model() == Empty() && Valid()
    {
      shortOpts := map[];
      longOpts := map[];
      multiplicities := map[];
      required := map[];
      descriptions := map[];
      parameters := [];
      paramMultiplicity := None;
      allowMerging := true;
    }

    method SetShortName(f: FieldRef, name: string) returns (o: Outcome)
      requires Valid()
      modifies this
      ensures Valid()
      ensures o == OutcomeOf(Registries.SetShortName(old(Model()), f, name))
      ensures Model() == After(Registries.SetShortName(old(Model()), f, name), old(Model()))
    {
      if !ValidName(name) || name in shortOpts || f in shortOpts.Values {
        return Fail(DefinitionError);
      }
      SetShortNameSpec(Model(), f, name);
      shortOpts := shortOpts[name := f];
      o := Pass;
    }

    method SetLongName(f: FieldRef, name: string) returns (o: Outcome)
      requires Valid()
      modifies this
      ensures Valid()
      ensures o == OutcomeOf(Registries.SetLongName(old(Model()), f, name))
      ensures Model() == After(Registries.SetLongName(old(Model()), f, name), old(Model()))
    {
      if !ValidName(name) || name in longOpts || f in longOpts.Values {
        return Fail(DefinitionError);
      }
      SetLongNameSpec(Model(), f, name);
      longOpts := longOpts[name := f];
      o := Pass;
    }

    method SetMultiplicity(f: FieldRef, n: Int32) returns (o: Outcome)
      requires Valid()
      modifies this
      ensures Valid()
      ensures o == OutcomeOf(Registries.SetMultiplicity(old(Model()), f, n))
      ensures Model() == After(Registries.SetMultiplicity(old(Model()), f, n), old(Model()))
    {
      if n < 0 || f in multiplicities {
        return Fail(DefinitionError);
      }
      multiplicities := multiplicities[f := n];
      o := Pass;
    }

    method SetRequired(f: FieldRef, value: bool) returns (o: Outcome)
      requires Valid()
      modifies this
      ensures Valid()
      ensures o == OutcomeOf(Registries.SetRequired(old(Model()), f, value))
      ensures Model() == After(Registries.SetRequired(old(Model()), f, value), old(Model()))
    {
      if f in required {
        return Fail(DefinitionError);
      }
      required := required[f := value];
      o := Pass;
    }

    method SetDescription(f: FieldRef, text: string) returns (o: Outcome)
      requires Valid()
      modifies this
      ensures Valid()
      ensures o == OutcomeOf(Registries.SetDescription(old(Model()), f, text))
      ensures Model() == After(Registries.SetDescription(old(Model()), f, text), old(Model()))
    {
      if text == "" || f in descriptions {
        return Fail(DefinitionError);
      }
      descriptions := descriptions[f := text];
      o := Pass;
    }

    /** Grows the slot list with empty slots up to `paramIndex + 1` (32-bit
        arithmetic), then claims slot `paramIndex`. A failing call never
        grows the list. */
    method SetParam(f: FieldRef, paramIndex: Int32) returns (o: Outcome)
      requires Valid()
      modifies this
      ensures Valid()
      ensures o == OutcomeOf(Registries.SetParam(old(Model()), f, paramIndex))
      ensures Model() == After(Registries.SetParam(old(Model()), f, paramIndex), old(Model()))
    {
      var bound := Add32(paramIndex, 1);
      while |parameters| < bound
        invariant Model().(parameters := old(parameters)) == old(Model())
        invariant |old(parameters)| <= |parameters|
        invariant |parameters| <= if |old(parameters)| < bound then bound else |old(parameters)|
        invariant parameters == Padded(old(parameters), |parameters|)
        decreases bound - |parameters|
      {
        parameters := parameters + [None];
      }
      assert parameters == Padded(old(parameters), bound);
      if paramIndex < 0 || paramIndex >= |parameters| {
        return Fail(IndexError);
      }
      if parameters[paramIndex].Some? {
        return Fail(DefinitionError);
      }
      parameters := parameters[paramIndex := Some(f)];
      o := Pass;
    }

    /** A malformed pattern makes the multiplicity constructor throw before
        the field is assigned. */
    method SetParamMultiplicity(pattern: string) returns (o: Outcome)
      requires Valid()
      modifies this
      ensures Valid()
      ensures o == OutcomeOf(Registries.SetParamMultiplicity(old(Model()), pattern))
      ensures Model() == After(Registries.SetParamMultiplicity(old(Model()), pattern), old(Model()))
    {
      if paramMultiplicity.Some? {
        return Fail(DefinitionError);
      }
      var m := Parse(pattern);
      if m.Err? {
        return Fail(m.error);
      }
      paramMultiplicity := Some(m.value);
      o := Pass;
    }

    method AllowShortNamesMerging(allow: bool)
      requires Valid()
      modifies this
      ensures Valid()
      ensures Model() == Registries.AllowShortNamesMerging(old(Model()), allow)
    {
      allowMerging := allow;
    }
  }
}
