/** `CliArgsParser`: builds the catalogue with its `ClassParser`, then
    consumes the argument vector from a queue, writing option values into the
    target object and collecting positional arguments. Every method is proved
    to do what the matching function of `Matching` says. */
module ArgsParsing {
  import opened Results
  import opened Decimal
  import opened Multiplicities
  import opened FieldTypes
  import opened Registries
  import opened OptionMaps
  import opened ClassParsing
  import opened Matching

  /** The object whose fields the parse writes. */
  class Target {
    var values: map<FieldRef, Value>

    constructor(values: map<FieldRef, Value>)
      ensures this.values == values
    {
      this.values := values;
    }
  }

  class CliArgsParser {
    const optParser: ClassParser
    var parameters: seq<string>
    var seen: seq<FieldRef>
    var allowMerging: bool

    constructor(optParser: ClassParser)
      ensures this.optParser == optParser && parameters == [] && seen == [] && allowMerging
    {
      this.optParser := optParser;
      parameters := [];
      seen := [];
      allowMerging := true;
    }

    /** What a parse has written so far. */
    function StateOf(target: Target): St
      reads this, target
    {
      St(target.values, parameters, seen)
    }

    /** `getParameters`: the positional list of the last parse. */
    function GetParameters(): seq<string>
      reads this
    {
      parameters
    }

    /** The context the parse works in: the built catalogue, the declared
        fields, the boolean spellings and the merging flag. */
    ghost predicate InCtx(ctx: Ctx, options: OptionMap, lits: BooleanConstants)
      reads this, options, lits
    {
      ctx == Ctx(options.Model(), optParser.decl.fields, lits.Literals(), allowMerging)
    }

    /** `allowShortNamesMerging`: for the matcher and for the class parser's
        ambiguity check. */
    method AllowShortNamesMerging(allow: bool)
      modifies this`allowMerging, optParser`allowMerging
      ensures allowMerging == allow && optParser.allowMerging == allow
    {
      allowMerging := allow;
      optParser.AllowShortNamesMerging(allow);
    }

    /** `readFieldParams`: polls the option's arguments off the queue. */
    method ReadFieldParams(options: OptionMap, lits: BooleanConstants, target: Target, ghost ctx: Ctx,
                           f: FieldRef, optName: string, queue: seq<string>) returns (o: Outcome, others: seq<string>)
      requires InCtx(ctx, options, lits)
      modifies this`seen, target`values
      ensures Step(StateOf(target), o, others) == Matching.ReadFieldParams(ctx, old(StateOf(target)), f, optName, queue)
    {
      var multiplicity := ArgMultiplicity(options.Model(), f);
      var optParams: seq<string> := [];
      others := queue;
      for i := 0 to multiplicity
        invariant i <= |queue| && optParams == queue[..i] && others == queue[i..]
      {
        if others == [] {
          return Fail(UsageError(NotEnoughArgs(optName, multiplicity))), [];
        }
        optParams := optParams + [others[0]];
        others := others[1..];
      }
      var t := ForClass(FieldClass(optParser.decl.fields, f), multiplicity);
      if t.Err? {
        return Fail(t.error), others;
      }
      var v := Apply(t.value, lits.Literals(), Some(optParams));
      if v.Err? {
        return Fail(v.error), others;
      }
      target.values := target.values[f := v.value];
      seen := seen + [f];
      o := Pass;
    }

    /** `parseShortNamedOptAux`. */
    method ShortAux(options: OptionMap, lits: BooleanConstants, target: Target, ghost ctx: Ctx,
                    name: string, queue: seq<string>) returns (o: Outcome, others: seq<string>)
      requires InCtx(ctx, options, lits)
      modifies this`seen, target`values
      ensures Step(StateOf(target), o, others) == Matching.ShortAux(ctx, old(StateOf(target)), name, queue)
    {
      var field := GetFieldByShortName(options.Model(), name);
      if field.Err? {
        return Fail(field.error), queue;
      }
      o, others := ReadFieldParams(options, lits, target, ctx, field.value, name, queue);
    }

    /** The merge loop of `parseShortNamedOpt`: one short option per character,
        each with an empty queue. */
    method Merge(options: OptionMap, lits: BooleanConstants, target: Target, ghost ctx: Ctx,
                 cur: string) returns (o: Outcome)
      requires InCtx(ctx, options, lits)
      modifies this`seen, target`values
      ensures Run(StateOf(target), o) == MergeFrom(ctx, old(StateOf(target)), cur, 0)
    {
      for i := 0 to |cur|
        invariant MergeFrom(ctx, StateOf(target), cur, i) == MergeFrom(ctx, old(StateOf(target)), cur, 0)
      {
        var r, _ := ShortAux(options, lits, target, ctx, [cur[i]], []);
        if r.Fail? {
          return Fail(MergeError(cur, r.error));
        }
      }
      o := Pass;
    }

    /** `parseShortNamedOpt`, given the token without its '-'. */
    method ShortOpt(options: OptionMap, lits: BooleanConstants, target: Target, ghost ctx: Ctx,
                    cur: string, queue: seq<string>) returns (o: Outcome, others: seq<string>)
      requires InCtx(ctx, options, lits)
      modifies this`seen, target`values
      ensures Step(StateOf(target), o, others) == Matching.ShortOpt(ctx, old(StateOf(target)), cur, queue)
    {
      if |cur| == 0 {
        return Fail(UsageError(EmptyOption)), queue;
      }
      if |cur| == 1 || HasShortName(options.Model(), cur) {
        o, others := ShortAux(options, lits, target, ctx, cur, queue);
        return;
      }
      if allowMerging {
        o := Merge(options, lits, target, ctx, cur);
        return o, queue;
      }
      return Fail(UsageError(NoShortOption(cur))), queue;
    }

    /** `parseLongNamedOpt`, given the token without its "--". */
    method LongOpt(options: OptionMap, lits: BooleanConstants, target: Target, ghost ctx: Ctx,
                   cur: string, queue: seq<string>) returns (o: Outcome, others: seq<string>)
      requires InCtx(ctx, options, lits)
      modifies this`seen, target`values
      ensures Step(StateOf(target), o, others) == Matching.LongOpt(ctx, old(StateOf(target)), cur, queue)
    {
      var field := GetFieldByLongName(options.Model(), cur);
      if field.Err? {
        return Fail(field.error), queue;
      }
      o, others := ReadFieldParams(options, lits, target, ctx, field.value, cur, queue);
    }

    /** `parseParams`: the positional count check, then the binding loop. */
    method ParseParams(options: OptionMap, lits: BooleanConstants, target: Target, ghost ctx: Ctx) returns (o: Outcome)
      requires InCtx(ctx, options, lits)
      modifies target`values
      ensures Run(StateOf(target), o) == Matching.ParseParams(ctx, old(StateOf(target)))
    {
      var nAdditional := |parameters|;
      var paramMult := ParamMultiplicity(options.Model());
      if nAdditional < paramMult.min || nAdditional > paramMult.max {
        return Fail(UsageError(WrongParamCount(ToHumanReadable(paramMult))));
      }
      var bound := Min(nAdditional, NParams(options.Model()));
      for i := 0 to bound
        invariant BindFrom(ctx, StateOf(target), i, bound) == BindFrom(ctx, old(StateOf(target)), 0, bound)
      {
        var field := options.parameters[i];
        if field.None? {
          continue;
        }
        var t := ForClass(FieldClass(optParser.decl.fields, field.value), 1);
        if t.Err? {
          return Fail(t.error);
        }
        var v := Apply(t.value, lits.Literals(), Some([parameters[i]]));
        if v.Err? {
          return Fail(v.error);
        }
        target.values := target.values[field.value := v.value];
      }
      o := Pass;
    }

    /** The token loop of `parse`, up to "--", then `addAll` of the rest. */
    method ScanTokens(options: OptionMap, lits: BooleanConstants, target: Target, ghost ctx: Ctx,
                      args: seq<string>) returns (o: Outcome)
      requires InCtx(ctx, options, lits)
      modifies this`parameters, this`seen, target`values
      ensures Run(StateOf(target), o) == Scan(ctx, old(StateOf(target)), args)
    {
      var queue := args;
      while queue != []
        invariant Scan(ctx, StateOf(target), queue) == Scan(ctx, old(StateOf(target)), args)
        decreases |queue|
      {
        var arg := queue[0];
        queue := queue[1..];
        if arg == "--" {
          break;
        }
        if StartsWith(arg, "--") {
          var r, rest := LongOpt(options, lits, target, ctx, arg[2..], queue);
          if r.Fail? {
            return r;
          }
          queue := rest;
        } else if StartsWith(arg, "-") {
          var r, rest := ShortOpt(options, lits, target, ctx, arg[1..], queue);
          if r.Fail? {
            return r;
          }
          queue := rest;
        } else {
          parameters := parameters + [arg];
        }
      }
      parameters := parameters + queue;
      o := Pass;
    }

    /** `parse`: build the catalogue, clear the lists, consume the queue up to
        "--", keep the rest as positionals, check the required set, bind the
        positionals. A failure keeps whatever was written before it. */
    method Parse(target: Target, args: seq<string>, lits: BooleanConstants) returns (o: Outcome)
      modifies this`parameters, this`seen, target`values
      ensures var b := Build(optParser.decl, optParser.allowMerging);
        (b.Err? ==> o == Fail(b.error) && StateOf(target) == old(StateOf(target)))
        && (b.Ok? ==>
              var run := ParseArgs(Ctx(b.value, optParser.decl.fields, lits.Literals(), allowMerging),
                                   old(StateOf(target)), args);
              o == run.out && StateOf(target) == run.st)
    {
      var built := optParser.Parse();
      if built.Err? {
        return Fail(built.error);
      }
      var options := built.value;
      parameters := [];
      seen := [];
      ghost var ctx := Ctx(options.Model(), optParser.decl.fields, lits.Literals(), allowMerging);
      o := ScanTokens(options, lits, target, ctx, args);
      if o.Fail? {
        return;
      }
      var required := CheckRequired(options.Model(), seen);
      if required.Fail? {
        return required;
      }
      o := ParseParams(options, lits, target, ctx);
    }
  }
}
