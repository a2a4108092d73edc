/** The matcher of `CliArgsParser` as functions: how the argument vector is
    consumed token by token, which fields receive which values, what ends up
    in the positional list, and which error stops the parse.

    A parse is not transactional: the state reached when an error is raised
    (values written, tokens collected, fields seen) is part of the result. */
module Matching {
  import opened Results
  import opened Decimal
  import opened Multiplicities
  import opened FieldTypes
  import opened Registries
  import opened ClassParsing

  /** What a parse reads: the catalogue, the declared field types, the boolean
      spellings in force and whether short names may be merged. */
  datatype Ctx = Ctx(reg: Registry, fields: seq<FieldDecl>, lits: BoolLiterals, merging: bool)

  /** What a parse writes: the target's field values, the positional list and
      the fields given on the command line. */
  datatype St = St(values: map<FieldRef, Value>, params: seq<string>, seen: seq<FieldRef>)

  /** After one option: the state, the outcome and the rest of the queue. */
  datatype Step = Step(st: St, out: Outcome, rest: seq<string>)

  /** A whole phase: the state and the outcome. */
  datatype Run = Run(st: St, out: Outcome)

  predicate StartsWith(s: string, p: string) {
    |p| <= |s| && s[..|p|] == p
  }

  /** `EFieldType.forClass(type, n).apply(...)`: the value an option's tokens
      convert to. */
  function Convert(ctx: Ctx, f: FieldRef, tokens: seq<string>): Result<Value> {
    var t :- ForClass(FieldClass(ctx.fields, f), |tokens|);
    Apply(t, ctx.lits, Some(tokens))
  }

  /** `readFieldParams`: the next n tokens, whatever they look like, become
      the option's arguments; fewer than n is a usage error. */
  function ReadFieldParams(ctx: Ctx, st: St, f: FieldRef, optName: string, queue: seq<string>): (s: Step)
    ensures |s.rest| <= |queue|
    ensures s.st.params == st.params
    ensures s.st == st || s.st.seen == st.seen + [f]
  {
    var n := ArgMultiplicity(ctx.reg, f);
    if |queue| < n then Step(st, Fail(UsageError(NotEnoughArgs(optName, n))), [])
    else
      match Convert(ctx, f, queue[..n])
      case Err(e) => Step(st, Fail(e), queue[n..])
      case Ok(v) => Step(st.(values := st.values[f := v], seen := st.seen + [f]), Pass, queue[n..])
  }

  /** `parseShortNamedOptAux`. */
  function ShortAux(ctx: Ctx, st: St, name: string, queue: seq<string>): (s: Step)
    ensures |s.rest| <= |queue|
    ensures s.st.params == st.params && StartsWithSeq(s.st.seen, st.seen)
  {
    match GetFieldByShortName(ctx.reg, name)
    case Err(e) => Step(st, Fail(e), queue)
    case Ok(f) => ReadFieldParams(ctx, st, f, name, queue)
  }

  /** A usage error inside a merged group names the group; any other error
      passes through. */
  function MergeError(group: string, e: Error): Error {
    if e.UsageError? then UsageError(MergeFailed(group, e.reason)) else e
  }

  /** The merge loop from character `i`: each character is a short option
      with an empty queue. */
  function MergeFrom(ctx: Ctx, st: St, group: string, i: nat): Run
    requires i <= |group|
    decreases |group| - i
  {
    if i == |group| then Run(st, Pass)
    else
      var s := ShortAux(ctx, st, [group[i]], []);
      if s.out.Fail? then Run(s.st, Fail(MergeError(group, s.out.error)))
      else MergeFrom(ctx, s.st, group, i + 1)
  }

  /** `parseShortNamedOpt` on the token without its '-'. */
  function ShortOpt(ctx: Ctx, st: St, cur: string, queue: seq<string>): (s: Step)
    ensures |s.rest| <= |queue|
  {
    if |cur| == 0 then Step(st, Fail(UsageError(EmptyOption)), queue)
    else if |cur| == 1 || HasShortName(ctx.reg, cur) then ShortAux(ctx, st, cur, queue)
    else if ctx.merging then
      var m := MergeFrom(ctx, st, cur, 0);
      Step(m.st, m.out, queue)
    else Step(st, Fail(UsageError(NoShortOption(cur))), queue)
  }

  /** `parseLongNamedOpt` on the token without its "--". */
  function LongOpt(ctx: Ctx, st: St, cur: string, queue: seq<string>): (s: Step)
    ensures |s.rest| <= |queue|
  {
    match GetFieldByLongName(ctx.reg, cur)
    case Err(e) => Step(st, Fail(e), queue)
    case Ok(f) => ReadFieldParams(ctx, st, f, cur, queue)
  }

  /** The token loop of `parse`, then `addAll` of what is left after "--". */
  function Scan(ctx: Ctx, st: St, queue: seq<string>): Run
    decreases |queue|
  {
    if queue == [] then Run(st, Pass)
    else
      var arg := queue[0];
      var rest := queue[1..];
      if arg == "--" then Run(st.(params := st.params + rest), Pass)
      else if StartsWith(arg, "--") then
        var s := LongOpt(ctx, st, arg[2..], rest);
        if s.out.Fail? then Run(s.st, s.out) else Scan(ctx, s.st, s.rest)
      else if StartsWith(arg, "-") then
        var s := ShortOpt(ctx, st, arg[1..], rest);
        if s.out.Fail? then Run(s.st, s.out) else Scan(ctx, s.st, s.rest)
      else Scan(ctx, st.(params := st.params + [arg]), rest)
  }

  /** The fields of the required set (every field `setRequired` was called
      on) not given on the command line. */
  function Missing(reg: Registry, seen: seq<FieldRef>): set<FieldRef> {
    set f | f in RequiredFields(reg) && f !in seen
  }

  /** `checkRequired`: every missing field, rendered by `fieldToString`, in one
      usage error. */
  function CheckRequired(reg: Registry, seen: seq<FieldRef>): (o: Outcome)
    requires Registries.Valid(reg)
    ensures o.Pass? <==> Missing(reg, seen) == {}
  {
    var missing := Missing(reg, seen);
    if missing == {} then Pass
    else if exists f :: f in missing && FieldToString(reg, f).Err? then Fail(ArgumentError)
    else Fail(UsageError(MissingRequired(set f | f in missing && FieldToString(reg, f).Ok? :: FieldToString(reg, f).value)))
  }

  /** The binding loop of `parseParams` from slot `i` up to `bound`: slot i
      receives token i; empty slots are skipped. */
  function BindFrom(ctx: Ctx, st: St, i: nat, bound: nat): Run
    requires bound <= |st.params| && bound <= NParams(ctx.reg)
    decreases bound - i
  {
    if i >= bound then Run(st, Pass)
    else
      match ctx.reg.parameters[i]
      case None => BindFrom(ctx, st, i + 1, bound)
      case Some(f) =>
        match Convert(ctx, f, [st.params[i]])
        case Err(e) => Run(st, Fail(e))
        case Ok(v) => BindFrom(ctx, st.(values := st.values[f := v]), i + 1, bound)
  }

  function Min(a: nat, b: nat): nat {
    if a < b then a else b
  }

  /** `parseParams`: the positional count must lie in the parameter
      multiplicity, then the declared slots are bound. */
  function ParseParams(ctx: Ctx, st: St): Run {
    var n := |st.params|;
    var m := ParamMultiplicity(ctx.reg);
    if n < m.min || n > m.max then Run(st, Fail(UsageError(WrongParamCount(ToHumanReadable(m)))))
    else BindFrom(ctx, st, 0, Min(n, NParams(ctx.reg)))
  }

  /** `parse` once the catalogue is built: clear the positional and seen
      lists, scan the tokens, check the required set, bind the positionals. */
  function ParseArgs(ctx: Ctx, st: St, args: seq<string>): Run
    requires Registries.Valid(ctx.reg)
  {
    var s := Scan(ctx, st.(params := [], seen := []), args);
    if s.out.Fail? then s
    else
      var c := CheckRequired(ctx.reg, s.st.seen);
      if c.Fail? then Run(s.st, c)
      else ParseParams(ctx, s.st)
  }

  // ---------------------------------------------------------------------
  // Properties of the matcher

  /** A token that is not an option. */
  predicate Positional(t: string) {
    !StartsWith(t, "-")
  }

  /** Tokens that are not options are collected in order; after "--" every
      token is collected, even one that looks like an option. */
  lemma {:induction false} PositionalsCollected(ctx: Ctx, st: St, pre: seq<string>, post: seq<string>)
    requires forall i :: 0 <= i < |pre| ==> Positional(pre[i])
    ensures Scan(ctx, st, pre) == Run(st.(params := st.params + pre), Pass)
    ensures Scan(ctx, st, pre + ["--"] + post) == Run(st.(params := st.params + pre + post), Pass)
    decreases |pre|
  {
    if pre == [] {
      assert st.params + pre == st.params;
      assert pre + ["--"] + post == ["--"] + post;
      assert (["--"] + post)[1..] == post;
    } else {
      var st' := st.(params := st.params + [pre[0]]);
      assert pre[0] != "--" by { assert !StartsWith(pre[0], "-"); }
      assert !StartsWith(pre[0], "--") by { assert !StartsWith(pre[0], "-"); }
      PositionalsCollected(ctx, st', pre[1..], post);
      assert (pre + ["--"] + post)[0] == pre[0];
      assert (pre + ["--"] + post)[1..] == pre[1..] + ["--"] + post;
      assert st'.params + pre[1..] == st.params + pre;
      assert st'.params + pre[1..] + post == st.params + pre + post;
    }
  }

  /** A long option takes exactly its argument count of tokens, whatever
      they look like, and scanning goes on after them. */
  lemma LongOptionConsumes(ctx: Ctx, st: St, name: string, tokens: seq<string>, rest: seq<string>)
    requires Registries.Valid(ctx.reg) && name in ctx.reg.longOpts
    requires |tokens| == ArgMultiplicity(ctx.reg, ctx.reg.longOpts[name])
    ensures var f := ctx.reg.longOpts[name];
      var c := Convert(ctx, f, tokens);
      Scan(ctx, st, ["--" + name] + tokens + rest)
      == if c.Err? then Run(st, Fail(c.error))
         else Scan(ctx, st.(values := st.values[f := c.value], seen := st.seen + [f]), rest)
  {
    var f := ctx.reg.longOpts[name];
    assert ValidName(name);
    assert ["--" + name] + tokens + rest == ["--" + name] + (tokens + rest);
    LongTokenScan(ctx, st, name, tokens + rest);
    LongOptFound(ctx, st, name, tokens + rest);
    ReadExactly(ctx, st, f, name, tokens, rest);
  }

  /** A known long name reads its field's arguments. */
  lemma LongOptFound(ctx: Ctx, st: St, name: string, queue: seq<string>)
    requires name in ctx.reg.longOpts
    ensures LongOpt(ctx, st, name, queue) == ReadFieldParams(ctx, st, ctx.reg.longOpts[name], name, queue)
  {
  }

  /** A token "--name" hands the rest of the queue to `parseLongNamedOpt`. */
  lemma LongTokenScan(ctx: Ctx, st: St, name: string, queue: seq<string>)
    requires name != ""
    ensures Scan(ctx, st, ["--" + name] + queue)
      == var s := LongOpt(ctx, st, name, queue);
         if s.out.Fail? then Run(s.st, s.out) else Scan(ctx, s.st, s.rest)
  {
    var q := ["--" + name] + queue;
    assert q[0] == "--" + name && q[0] != "--";
    assert StartsWith(q[0], "--") && q[0][2..] == name;
    assert q[1..] == queue;
  }

  /** With exactly enough tokens, the option reads them all and leaves the rest. */
  lemma ReadExactly(ctx: Ctx, st: St, f: FieldRef, name: string, tokens: seq<string>, rest: seq<string>)
    requires |tokens| == ArgMultiplicity(ctx.reg, f)
    ensures var c := Convert(ctx, f, tokens);
      ReadFieldParams(ctx, st, f, name, tokens + rest)
      == if c.Err? then Step(st, Fail(c.error), rest)
         else Step(st.(values := st.values[f := c.value], seen := st.seen + [f]), Pass, rest)
  {
    assert (tokens + rest)[..|tokens|] == tokens && (tokens + rest)[|tokens|..] == rest;
  }

  /** Reading an option's parameters: with too few tokens, a usage error
      naming the option and its count and nothing written; otherwise exactly
      the next `n` tokens are consumed and, when they convert, their value is
      stored and the field marked seen. */
  lemma ReadFieldParamsSpec(ctx: Ctx, st: St, f: FieldRef, name: string, queue: seq<string>)
    ensures var n := ArgMultiplicity(ctx.reg, f);
      |queue| < n ==> ReadFieldParams(ctx, st, f, name, queue)
                      == Step(st, Fail(UsageError(NotEnoughArgs(name, n))), [])
    ensures var n := ArgMultiplicity(ctx.reg, f);
      var s := ReadFieldParams(ctx, st, f, name, queue);
      |queue| >= n ==> (
        s.rest == queue[n..]
        && var c := Convert(ctx, f, queue[..n]);
           if c.Err? then s.st == st && s.out == Fail(c.error)
           else s.out == Pass && s.st.values == st.values[f := c.value] && s.st.seen == st.seen + [f])
  {
    var n := ArgMultiplicity(ctx.reg, f);
    if |queue| >= n {
      assert queue == queue[..n] + queue[n..];
      ReadExactly(ctx, st, f, name, queue[..n], queue[n..]);
    }
  }

  /** Too few tokens left for a long option is a usage error naming the
      option and its count; nothing is written. */
  lemma LongOptionStarved(ctx: Ctx, st: St, name: string, tokens: seq<string>)
    requires Registries.Valid(ctx.reg) && name in ctx.reg.longOpts
    requires |tokens| < ArgMultiplicity(ctx.reg, ctx.reg.longOpts[name])
    ensures Scan(ctx, st, ["--" + name] + tokens)
         == Run(st, Fail(UsageError(NotEnoughArgs(name, ArgMultiplicity(ctx.reg, ctx.reg.longOpts[name])))))
  {
    var q := ["--" + name] + tokens;
    assert ValidName(name);
    assert q[0] == "--" + name && q[0] != "--";
    assert StartsWith(q[0], "--") && q[0][2..] == name;
    assert q[1..] == tokens;
  }

  /** Unknown names and a bare "-" stop the scan with a usage error, before
      anything is written. */
  lemma BadOptionTokens(ctx: Ctx, st: St, name: string, rest: seq<string>)
    requires name != "" && name !in ctx.reg.longOpts
    ensures Scan(ctx, st, ["--" + name] + rest) == Run(st, Fail(UsageError(UnknownLongName(name))))
    ensures Scan(ctx, st, ["-"] + rest) == Run(st, Fail(UsageError(EmptyOption)))
    ensures |name| == 1 && name != "-" && name !in ctx.reg.shortOpts
        ==> Scan(ctx, st, ["-" + name] + rest) == Run(st, Fail(UsageError(UnknownShortName(name))))
  {
    var q := ["--" + name] + rest;
    assert q[0] == "--" + name && q[0] != "--" && StartsWith(q[0], "--") && q[0][2..] == name;
    assert (["-"] + rest)[0] == "-" && !StartsWith("-", "--") && StartsWith("-", "-");
    assert "-"[1..] == "";
    if |name| == 1 && name != "-" {
      var q' := ["-" + name] + rest;
      assert name == [name[0]] && name[0] != '-';
      assert q'[0] == "-" + name && q'[0][1] == name[0] && q'[0][1..] == name;
      assert q'[0] != "--" && !StartsWith(q'[0], "--");
    }
  }

  /** Every character of a group names a short option that takes no
      argument and converts. */
  predicate FlagGroup(ctx: Ctx, group: string) {
    forall i :: 0 <= i < |group| ==>
      [group[i]] in ctx.reg.shortOpts
      && ArgMultiplicity(ctx.reg, ctx.reg.shortOpts[[group[i]]]) == 0
      && Convert(ctx, ctx.reg.shortOpts[[group[i]]], []).Ok?
  }

  /** The characters of a group from `i` on, each as its own "-c" token. */
  function Separated(group: string, i: nat): (ts: seq<string>)
    requires i <= |group|
    ensures |ts| == |group| - i
    decreases |group| - i
  {
    if i == |group| then [] else ["-" + [group[i]]] + Separated(group, i + 1)
  }

  /** The state after a flag: its value written and the field seen. */
  function Flagged(ctx: Ctx, st: St, c: string): St
    requires c in ctx.reg.shortOpts
  {
    var f := ctx.reg.shortOpts[c];
    var r := Convert(ctx, f, []);
    if r.Ok? then st.(values := st.values[f := r.value], seen := st.seen + [f]) else st
  }

  /** A flag, with or without tokens after it, consumes none of them. */
  lemma FlagStep(ctx: Ctx, st: St, c: string, queue: seq<string>)
    requires c in ctx.reg.shortOpts && ArgMultiplicity(ctx.reg, ctx.reg.shortOpts[c]) == 0
    requires Convert(ctx, ctx.reg.shortOpts[c], []).Ok?
    ensures ShortAux(ctx, st, c, queue) == Step(Flagged(ctx, st, c), Pass, queue)
  {
    assert queue[..0] == [] && queue[0..] == queue;
  }

  /** A separate "-c" token for a flag. */
  lemma FlagToken(ctx: Ctx, st: St, c: string, tail: seq<string>)
    requires Registries.Valid(ctx.reg) && |c| == 1
    requires c in ctx.reg.shortOpts && ArgMultiplicity(ctx.reg, ctx.reg.shortOpts[c]) == 0
    requires Convert(ctx, ctx.reg.shortOpts[c], []).Ok?
    ensures Scan(ctx, st, ["-" + c] + tail) == Scan(ctx, Flagged(ctx, st, c), tail)
  {
    assert ValidName(c);
    var q := ["-" + c] + tail;
    assert q[0] == "-" + c && q[1..] == tail;
    assert q[0][1] == c[0] && c[0] != '-';
    assert q[0] != "--" && !StartsWith(q[0], "--") && StartsWith(q[0], "-") && q[0][1..] == c;
    FlagStep(ctx, st, c, tail);
  }

  lemma MergeStep(ctx: Ctx, st: St, group: string, i: nat)
    requires FlagGroup(ctx, group) && i < |group|
    ensures [group[i]] in ctx.reg.shortOpts && ArgMultiplicity(ctx.reg, ctx.reg.shortOpts[[group[i]]]) == 0
    ensures Convert(ctx, ctx.reg.shortOpts[[group[i]]], []).Ok?
    ensures MergeFrom(ctx, st, group, i) == MergeFrom(ctx, Flagged(ctx, st, [group[i]]), group, i + 1)
  {
    FlagStep(ctx, st, [group[i]], []);
  }

  /** The merge loop accepts a group of flags. */
  lemma {:induction false} MergePasses(ctx: Ctx, st: St, group: string, i: nat)
    requires FlagGroup(ctx, group) && i <= |group|
    ensures MergeFrom(ctx, st, group, i).out.Pass?
    decreases |group| - i
  {
    if i < |group| {
      MergeStep(ctx, st, group, i);
      MergePasses(ctx, Flagged(ctx, st, [group[i]]), group, i + 1);
    }
  }

  /** A one-character short name that the merge loop can take: bound, with
      no arguments, and convertible from none. */
  predicate IsFlag(ctx: Ctx, c: string) {
    c in ctx.reg.shortOpts
    && ArgMultiplicity(ctx.reg, ctx.reg.shortOpts[c]) == 0
    && Convert(ctx, ctx.reg.shortOpts[c], []).Ok?
  }

  /** A character that is not a flag fails on the empty queue. */
  lemma NonFlagFails(ctx: Ctx, st: St, c: string)
    requires !IsFlag(ctx, c)
    ensures ShortAux(ctx, st, c, []).out.Fail?
    ensures c !in ctx.reg.shortOpts
      ==> ShortAux(ctx, st, c, []).out == Fail(UsageError(UnknownShortName(c)))
    ensures c in ctx.reg.shortOpts && ArgMultiplicity(ctx.reg, ctx.reg.shortOpts[c]) > 0
      ==> ShortAux(ctx, st, c, []).out == Fail(UsageError(NotEnoughArgs(c, ArgMultiplicity(ctx.reg, ctx.reg.shortOpts[c]))))
  {
    if c in ctx.reg.shortOpts && ArgMultiplicity(ctx.reg, ctx.reg.shortOpts[c]) == 0 {
      var q: seq<string> := [];
      assert q[..0] == [];
    }
  }

  /** The merge loop passes exactly when every remaining character is a flag. */
  lemma {:induction false} MergePassesIff(ctx: Ctx, st: St, group: string, i: nat)
    requires i <= |group|
    ensures MergeFrom(ctx, st, group, i).out.Pass? <==> forall j :: i <= j < |group| ==> IsFlag(ctx, [group[j]])
    decreases |group| - i
  {
    if i < |group| {
      var c := [group[i]];
      if IsFlag(ctx, c) {
        FlagStep(ctx, st, c, []);
        MergePassesIff(ctx, Flagged(ctx, st, c), group, i + 1);
      } else {
        NonFlagFails(ctx, st, c);
      }
    }
  }

  /** After flags only, a character that is unknown or takes arguments makes
      the merge fail with that character's usage error, named by the group. */
  lemma {:induction false} MergeFailsAt(ctx: Ctx, st: St, group: string, i: nat, k: nat)
    requires i <= k < |group|
    requires forall j :: i <= j < k ==> IsFlag(ctx, [group[j]])
    ensures var c := [group[k]];
      c !in ctx.reg.shortOpts
      ==> MergeFrom(ctx, st, group, i).out == Fail(UsageError(MergeFailed(group, UnknownShortName(c))))
    ensures var c := [group[k]];
      c in ctx.reg.shortOpts && ArgMultiplicity(ctx.reg, ctx.reg.shortOpts[c]) > 0
      ==> MergeFrom(ctx, st, group, i).out
          == Fail(UsageError(MergeFailed(group, NotEnoughArgs(c, ArgMultiplicity(ctx.reg, ctx.reg.shortOpts[c])))))
    decreases k - i
  {
    var c := [group[i]];
    if i < k {
      FlagStep(ctx, st, c, []);
      MergeFailsAt(ctx, Flagged(ctx, st, c), group, i + 1, k);
    } else if !IsFlag(ctx, c) {
      NonFlagFails(ctx, st, c);
    }
  }

  /** `-mfb foobar` where `m` takes one argument: the merged group fails
      before the next token is read, whatever follows. */
  lemma MergedWithArg(ctx: Ctx, st: St, rest: seq<string>)
    requires Registries.Valid(ctx.reg) && ctx.merging && "mfb" !in ctx.reg.shortOpts
    requires "m" in ctx.reg.shortOpts && ArgMultiplicity(ctx.reg, ctx.reg.shortOpts["m"]) == 1
    ensures Scan(ctx, st, ["-mfb"] + rest).out == Fail(UsageError(MergeFailed("mfb", NotEnoughArgs("m", 1))))
  {
    var group := "mfb";
    assert [group[0]] == "m" && "-" + group == "-mfb";
    MergeFailsAt(ctx, st, group, 0, 0);
    MergedGroup(ctx, st, group, rest);
  }

  /** The merge loop reads a group of flags as the separate options. */
  lemma {:induction false} MergeLikeSeparate(ctx: Ctx, st: St, group: string, i: nat, rest: seq<string>)
    requires Registries.Valid(ctx.reg) && FlagGroup(ctx, group) && i <= |group|
    ensures Scan(ctx, st, Separated(group, i) + rest) == Scan(ctx, MergeFrom(ctx, st, group, i).st, rest)
    decreases |group| - i
  {
    if i == |group| {
      assert Separated(group, i) + rest == rest;
    } else {
      var c := [group[i]];
      MergeStep(ctx, st, group, i);
      SeparatedCons(group, i, rest);
      FlagToken(ctx, st, c, Separated(group, i + 1) + rest);
      MergeLikeSeparate(ctx, Flagged(ctx, st, c), group, i + 1, rest);
    }
  }

  lemma SeparatedCons(group: string, i: nat, rest: seq<string>)
    requires i < |group|
    ensures Separated(group, i) + rest == ["-" + [group[i]]] + (Separated(group, i + 1) + rest)
  {
    assert Separated(group, i) == ["-" + [group[i]]] + Separated(group, i + 1);
  }

  /** With merging on, "-abc" that is not itself a short name means
      "-a -b -c"; with merging off it is a usage error. A short name of
      several characters is always matched whole. */
  lemma MergedGroup(ctx: Ctx, st: St, group: string, rest: seq<string>)
    requires Registries.Valid(ctx.reg) && |group| >= 2 && group[0] != '-'
    ensures group in ctx.reg.shortOpts
        ==> Scan(ctx, st, ["-" + group] + rest) == (
              var s := ShortAux(ctx, st, group, rest);
              if s.out.Fail? then Run(s.st, s.out) else Scan(ctx, s.st, s.rest))
    ensures group !in ctx.reg.shortOpts && !ctx.merging
        ==> Scan(ctx, st, ["-" + group] + rest) == Run(st, Fail(UsageError(NoShortOption(group))))
    ensures group !in ctx.reg.shortOpts && ctx.merging && FlagGroup(ctx, group)
        ==> Scan(ctx, st, ["-" + group] + rest) == Scan(ctx, st, Separated(group, 0) + rest)
    ensures group !in ctx.reg.shortOpts && ctx.merging && !FlagGroup(ctx, group)
        ==> var m := MergeFrom(ctx, st, group, 0);
            m.out.Fail? && Scan(ctx, st, ["-" + group] + rest) == Run(m.st, m.out)
  {
    var q := ["-" + group] + rest;
    assert q[0] == "-" + group && q[1..] == rest;
    assert q[0][1] == group[0];
    assert q[0] != "--" && !StartsWith(q[0], "--") && StartsWith(q[0], "-") && q[0][1..] == group;
    if group !in ctx.reg.shortOpts && ctx.merging {
      if FlagGroup(ctx, group) {
        MergePasses(ctx, st, group, 0);
        MergeLikeSeparate(ctx, st, group, 0, rest);
      } else {
        MergePassesIff(ctx, st, group, 0);
      }
    }
  }

  /** The scan only adds: positional tokens and seen fields are appended to
      what was there. */
  lemma {:induction false} ScanExtends(ctx: Ctx, st: St, queue: seq<string>)
    ensures var r := Scan(ctx, st, queue);
      StartsWithSeq(r.st.params, st.params) && StartsWithSeq(r.st.seen, st.seen)
    decreases |queue|
  {
    if queue != [] {
      var arg := queue[0];
      var rest := queue[1..];
      if arg == "--" {
      } else if StartsWith(arg, "--") {
        var s := LongOpt(ctx, st, arg[2..], rest);
        if s.out.Pass? {
          ScanExtends(ctx, s.st, s.rest);
          ExtendsTransitive(Scan(ctx, s.st, s.rest).st, s.st, st);
        }
      } else if StartsWith(arg, "-") {
        var s := ShortOpt(ctx, st, arg[1..], rest);
        MergeExtends(ctx, st, arg[1..], 0);
        if s.out.Pass? {
          ScanExtends(ctx, s.st, s.rest);
          ExtendsTransitive(Scan(ctx, s.st, s.rest).st, s.st, st);
        }
      } else {
        var st' := st.(params := st.params + [arg]);
        ScanExtends(ctx, st', rest);
        ExtendsTransitive(Scan(ctx, st', rest).st, st', st);
      }
    }
  }

  predicate StartsWithSeq<T(==)>(s: seq<T>, p: seq<T>) {
    |p| <= |s| && s[..|p|] == p
  }

  lemma ExtendsTransitive(a: St, b: St, c: St)
    requires StartsWithSeq(a.params, b.params) && StartsWithSeq(a.seen, b.seen)
    requires StartsWithSeq(b.params, c.params) && StartsWithSeq(b.seen, c.seen)
    ensures StartsWithSeq(a.params, c.params) && StartsWithSeq(a.seen, c.seen)
  {
    assert a.params[..|c.params|] == b.params[..|c.params|];
    assert a.seen[..|c.seen|] == b.seen[..|c.seen|];
  }

  /** One character of the merge loop. */
  lemma MergeFromUnfold(ctx: Ctx, st: St, group: string, i: nat)
    requires i < |group|
    ensures var s := ShortAux(ctx, st, [group[i]], []);
      s.st.params == st.params && StartsWithSeq(s.st.seen, st.seen)
      && MergeFrom(ctx, st, group, i)
         == if s.out.Fail? then Run(s.st, Fail(MergeError(group, s.out.error))) else MergeFrom(ctx, s.st, group, i + 1)
  {
  }

  lemma {:induction false} MergeExtends(ctx: Ctx, st: St, group: string, i: nat)
    requires i <= |group|
    ensures var r := MergeFrom(ctx, st, group, i);
      r.st.params == st.params && StartsWithSeq(r.st.seen, st.seen)
    decreases |group| - i
  {
    if i < |group| {
      var s := ShortAux(ctx, st, [group[i]], []);
      MergeFromUnfold(ctx, st, group, i);
      if s.out.Pass? {
        MergeExtends(ctx, s.st, group, i + 1);
        ExtendsTransitive(MergeFrom(ctx, s.st, group, i + 1).st, s.st, st);
      }
    }
  }

  /** `checkRequired` reports every missing field at once, each by its
      `fieldToString` rendering. */
  lemma RequiredReportedTogether(reg: Registry, seen: seq<FieldRef>)
    requires Registries.Valid(reg)
    requires forall f :: f in RequiredFields(reg) ==> IsNamed(reg, f)
    ensures Missing(reg, seen) != {} ==> (
      var o := CheckRequired(reg, seen);
      o.Fail? && o.error.UsageError? && o.error.reason.MissingRequired?
      && (forall f :: f in Missing(reg, seen) ==> FieldToString(reg, f).Ok?)
      && o.error.reason.options == set f | f in Missing(reg, seen) :: FieldToString(reg, f).value)
  {
    var missing := Missing(reg, seen);
    if missing != {} {
      assert forall f :: f in missing ==> FieldToString(reg, f).Ok?;
    }
  }

  /** The order of the checks after a clean scan: missing required fields
      first, then the positional count, then the binding of the slots. */
  lemma CheckOrder(ctx: Ctx, st: St, args: seq<string>)
    requires Registries.Valid(ctx.reg)
    ensures var s := Scan(ctx, st.(params := [], seen := []), args);
      var m := ParamMultiplicity(ctx.reg);
      s.out.Pass? ==>
        (Missing(ctx.reg, s.st.seen) != {} ==> ParseArgs(ctx, st, args) == Run(s.st, CheckRequired(ctx.reg, s.st.seen)))
        && (Missing(ctx.reg, s.st.seen) == {} && (|s.st.params| < m.min || |s.st.params| > m.max)
            ==> ParseArgs(ctx, st, args) == Run(s.st, Fail(UsageError(WrongParamCount(ToHumanReadable(m))))))
  {
  }

  /** Binding the positionals changes no list and leaves every field that
      owns no slot from `i` to the bound as it was, present or absent. */
  lemma {:induction false} BindFrame(ctx: Ctx, st: St, i: nat, bound: nat, g: FieldRef)
    requires bound <= |st.params| && bound <= NParams(ctx.reg)
    requires i <= bound && Some(g) !in ctx.reg.parameters[i..bound]
    ensures var r := BindFrom(ctx, st, i, bound);
      r.st.params == st.params && r.st.seen == st.seen
      && (g in r.st.values <==> g in st.values) && (g in st.values ==> r.st.values[g] == st.values[g])
    decreases bound - i
  {
    if i < bound {
      BindFromUnfold(ctx, st, i, bound);
      var p := ctx.reg.parameters[i];
      assert ctx.reg.parameters[i..bound] == [p] + ctx.reg.parameters[i + 1..bound];
      if p.None? {
        BindFrame(ctx, st, i + 1, bound, g);
      } else {
        var c := Convert(ctx, p.value, [st.params[i]]);
        if c.Ok? {
          var st' := st.(values := st.values[p.value := c.value]);
          assert p.value != g;
          BindFrame(ctx, st', i + 1, bound, g);
        }
      }
    }
  }

  /** A slot receives the token at its own position. */
  lemma {:induction false} SlotGetsItsToken(ctx: Ctx, st: St, i: nat, bound: nat, k: nat, f: FieldRef)
    requires bound <= |st.params| && bound <= NParams(ctx.reg)
    requires i <= k < bound && ctx.reg.parameters[k] == Some(f)
    requires forall j :: i <= j < bound && j != k ==> ctx.reg.parameters[j] != Some(f)
    requires BindFrom(ctx, st, i, bound).out.Pass?
    ensures Convert(ctx, f, [st.params[k]]).Ok?
    ensures var r := BindFrom(ctx, st, i, bound);
      f in r.st.values && r.st.values[f] == Convert(ctx, f, [st.params[k]]).value
    decreases bound - i
  {
    match ctx.reg.parameters[i]
    case None => SlotGetsItsToken(ctx, st, i + 1, bound, k, f);
    case Some(g) =>
      match Convert(ctx, g, [st.params[i]])
      case Err(e) =>
      case Ok(v) =>
        var st' := st.(values := st.values[g := v]);
        if i == k {
          BindKeeps(ctx, st', i + 1, bound, f);
        } else {
          SlotGetsItsToken(ctx, st', i + 1, bound, k, f);
        }
  }

  /** A field owning none of the slots still to bind keeps its value. */
  lemma BindKeeps(ctx: Ctx, st: St, i: nat, bound: nat, f: FieldRef)
    requires bound <= |st.params| && bound <= NParams(ctx.reg)
    requires forall j :: i <= j < bound ==> ctx.reg.parameters[j] != Some(f)
    requires f in st.values
    ensures var r := BindFrom(ctx, st, i, bound);
      f in r.st.values && r.st.values[f] == st.values[f]
  {
    if i <= bound {
      assert Some(f) !in ctx.reg.parameters[i..bound];
      BindFrame(ctx, st, i, bound, f);
    }
  }

  /** One slot of the binding loop. */
  lemma BindFromUnfold(ctx: Ctx, st: St, i: nat, bound: nat)
    requires bound <= |st.params| && bound <= NParams(ctx.reg) && i < bound
    ensures ctx.reg.parameters[i].None? ==> BindFrom(ctx, st, i, bound) == BindFrom(ctx, st, i + 1, bound)
    ensures ctx.reg.parameters[i].Some? ==>
      var f := ctx.reg.parameters[i].value;
      var c := Convert(ctx, f, [st.params[i]]);
      BindFrom(ctx, st, i, bound)
      == if c.Err? then Run(st, Fail(c.error)) else BindFrom(ctx, st.(values := st.values[f := c.value]), i + 1, bound)
  {
  }

  // ---------------------------------------------------------------------
  // Repeated parses

  /** State `a` is state `b` laid over the values `under`: a parse writes
      values, it never reads them, so what the target held before only shows
      where the parse writes nothing. */
  predicate Over(a: St, b: St, under: map<FieldRef, Value>) {
    a == b.(values := under + b.values)
  }

  lemma OverUpdate(a: St, b: St, under: map<FieldRef, Value>, f: FieldRef, v: Value)
    requires Over(a, b, under)
    ensures Over(a.(values := a.values[f := v]), b.(values := b.values[f := v]), under)
  {
    assert (under + b.values)[f := v] == under + b.values[f := v];
  }

  lemma OverSeen(a: St, b: St, under: map<FieldRef, Value>, f: FieldRef, v: Value)
    requires Over(a, b, under)
    ensures Over(a.(values := a.values[f := v], seen := a.seen + [f]),
                 b.(values := b.values[f := v], seen := b.seen + [f]), under)
  {
    OverUpdate(a, b, under, f, v);
  }

  lemma ReadFieldParamsOver(ctx: Ctx, a: St, b: St, under: map<FieldRef, Value>,
                            f: FieldRef, optName: string, queue: seq<string>)
    requires Over(a, b, under)
    ensures var sa := ReadFieldParams(ctx, a, f, optName, queue);
      var sb := ReadFieldParams(ctx, b, f, optName, queue);
      sa.out == sb.out && sa.rest == sb.rest && Over(sa.st, sb.st, under)
  {
    var n := ArgMultiplicity(ctx.reg, f);
    if |queue| >= n {
      var c := Convert(ctx, f, queue[..n]);
      if c.Ok? {
        OverSeen(a, b, under, f, c.value);
      }
    }
  }

  lemma ShortAuxOver(ctx: Ctx, a: St, b: St, under: map<FieldRef, Value>, name: string, queue: seq<string>)
    requires Over(a, b, under)
    ensures var sa := ShortAux(ctx, a, name, queue);
      var sb := ShortAux(ctx, b, name, queue);
      sa.out == sb.out && sa.rest == sb.rest && Over(sa.st, sb.st, under)
  {
    var g := GetFieldByShortName(ctx.reg, name);
    if g.Ok? {
      ReadFieldParamsOver(ctx, a, b, under, g.value, name, queue);
    }
  }

  lemma {:induction false} MergeFromOver(ctx: Ctx, a: St, b: St, under: map<FieldRef, Value>, group: string, i: nat)
    requires i <= |group|
    requires Over(a, b, under)
    ensures var ra := MergeFrom(ctx, a, group, i);
      var rb := MergeFrom(ctx, b, group, i);
      ra.out == rb.out && Over(ra.st, rb.st, under)
    decreases |group| - i
  {
    if i < |group| {
      var sa := ShortAux(ctx, a, [group[i]], []);
      var sb := ShortAux(ctx, b, [group[i]], []);
      ShortAuxOver(ctx, a, b, under, [group[i]], []);
      if sa.out.Pass? {
        MergeFromOver(ctx, sa.st, sb.st, under, group, i + 1);
      }
    }
  }

  lemma ShortOptOver(ctx: Ctx, a: St, b: St, under: map<FieldRef, Value>, cur: string, queue: seq<string>)
    requires Over(a, b, under)
    ensures var sa := ShortOpt(ctx, a, cur, queue);
      var sb := ShortOpt(ctx, b, cur, queue);
      sa.out == sb.out && sa.rest == sb.rest && Over(sa.st, sb.st, under)
  {
    if |cur| == 1 || (|cur| > 1 && HasShortName(ctx.reg, cur)) {
      ShortAuxOver(ctx, a, b, under, cur, queue);
    } else if |cur| > 1 && ctx.merging {
      MergeFromOver(ctx, a, b, under, cur, 0);
    }
  }

  lemma LongOptOver(ctx: Ctx, a: St, b: St, under: map<FieldRef, Value>, cur: string, queue: seq<string>)
    requires Over(a, b, under)
    ensures var sa := LongOpt(ctx, a, cur, queue);
      var sb := LongOpt(ctx, b, cur, queue);
      sa.out == sb.out && sa.rest == sb.rest && Over(sa.st, sb.st, under)
  {
    var g := GetFieldByLongName(ctx.reg, cur);
    if g.Ok? {
      ReadFieldParamsOver(ctx, a, b, under, g.value, cur, queue);
    }
  }

  lemma {:induction false} ScanOver(ctx: Ctx, a: St, b: St, under: map<FieldRef, Value>, queue: seq<string>)
    requires Over(a, b, under)
    ensures var ra := Scan(ctx, a, queue);
      var rb := Scan(ctx, b, queue);
      ra.out == rb.out && Over(ra.st, rb.st, under)
    decreases |queue|
  {
    if queue != [] {
      var arg := queue[0];
      var rest := queue[1..];
      if arg == "--" {
      } else if StartsWith(arg, "--") {
        var sa := LongOpt(ctx, a, arg[2..], rest);
        var sb := LongOpt(ctx, b, arg[2..], rest);
        LongOptOver(ctx, a, b, under, arg[2..], rest);
        if sa.out.Pass? {
          ScanOver(ctx, sa.st, sb.st, under, sa.rest);
        }
      } else if StartsWith(arg, "-") {
        var sa := ShortOpt(ctx, a, arg[1..], rest);
        var sb := ShortOpt(ctx, b, arg[1..], rest);
        ShortOptOver(ctx, a, b, under, arg[1..], rest);
        if sa.out.Pass? {
          ScanOver(ctx, sa.st, sb.st, under, sa.rest);
        }
      } else {
        ScanOver(ctx, a.(params := a.params + [arg]), b.(params := b.params + [arg]), under, rest);
      }
    }
  }

  lemma {:induction false} BindFromOver(ctx: Ctx, a: St, b: St, under: map<FieldRef, Value>, i: nat, bound: nat)
    requires Over(a, b, under)
    requires bound <= |b.params| && bound <= NParams(ctx.reg)
    ensures var ra := BindFrom(ctx, a, i, bound);
      var rb := BindFrom(ctx, b, i, bound);
      ra.out == rb.out && Over(ra.st, rb.st, under)
    decreases bound - i
  {
    if i < bound {
      assert a.params == b.params;
      BindFromUnfold(ctx, a, i, bound);
      BindFromUnfold(ctx, b, i, bound);
      var p := ctx.reg.parameters[i];
      if p.None? {
        BindFromOver(ctx, a, b, under, i + 1, bound);
      } else {
        var c := Convert(ctx, p.value, [b.params[i]]);
        if c.Ok? {
          var f := p.value;
          OverUpdate(a, b, under, f, c.value);
          BindFromOver(ctx, a.(values := a.values[f := c.value]), b.(values := b.values[f := c.value]), under, i + 1, bound);
        }
      }
    }
  }

  /** A parse's outcome, positional list and seen list do not depend on the
      values the target held; those values survive only where the parse
      writes nothing. */
  lemma ParseArgsOver(ctx: Ctx, st: St, args: seq<string>)
    requires Registries.Valid(ctx.reg)
    ensures var e := ParseArgs(ctx, St(map[], [], []), args);
      var r := ParseArgs(ctx, st, args);
      r.out == e.out && Over(r.st, e.st, st.values)
  {
    var a := st.(params := [], seen := []);
    var b := St(map[], [], []);
    assert st.values + map[] == st.values;
    assert Over(a, b, st.values);
    ScanOver(ctx, a, b, st.values, args);
    var sa := Scan(ctx, a, args);
    var sb := Scan(ctx, b, args);
    if sa.out.Pass? {
      var n := |sb.st.params|;
      var m := ParamMultiplicity(ctx.reg);
      if m.min <= n <= m.max {
        BindFromOver(ctx, sa.st, sb.st, st.values, 0, Min(n, NParams(ctx.reg)));
      }
    }
  }

  /** Parsing the same tokens again, on the state the first parse left, gives
      the same outcome, bindings, positional list and seen list, whether the
      first parse succeeded or failed. */
  lemma ParseTwice(ctx: Ctx, st: St, args: seq<string>)
    requires Registries.Valid(ctx.reg)
    ensures var r1 := ParseArgs(ctx, st, args);
      ParseArgs(ctx, r1.st, args) == r1
  {
    var e := ParseArgs(ctx, St(map[], [], []), args);
    var r1 := ParseArgs(ctx, st, args);
    ParseArgsOver(ctx, st, args);
    ParseArgsOver(ctx, r1.st, args);
    assert (st.values + e.st.values) + e.st.values == st.values + e.st.values;
  }
}
