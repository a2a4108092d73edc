/** Conversion of option arguments to field values, keyed by the declared
    Java type of the field and the option's argument count.

    The reflective write into the object is not modelled: a converter returns
    the `Value` it would store. */
module FieldTypes {
  import opened Results
  import opened Decimal
  import opened Multiplicities

  /** The declared type of a target field. */
  datatype JavaClass =
    | BooleanClass     // java.lang.Boolean
    | BooleanPrimitive // boolean
    | StringClass      // java.lang.String
    | IntegerClass     // java.lang.Integer
    | IntPrimitive     // int
    | LongClass        // java.lang.Long
    | LongPrimitive    // long
    | OtherClass(name: string)

  /** What a converter stores into a field. */
  datatype Value = BoolVal(b: bool) | StringVal(s: string) | IntVal(i: Int32) | LongVal(l: Int64)

  /** The nine constants, each a (class, argument count) pair with a converter. */
  datatype FieldType = Boolean | Bool | BooleanArg | BoolArg | Str | Integer | Int | Long | Lg {
    function Cl(): JavaClass {
      match this
      case Boolean | BooleanArg => BooleanClass
      case Bool | BoolArg => BooleanPrimitive
      case Str => StringClass
      case Integer => IntegerClass
      case Int => IntPrimitive
      case Long => LongClass
      case Lg => LongPrimitive
    }

    function Arity(): nat {
      if this == Boolean || this == Bool then 0 else 1
    }
  }

  /** `EFieldType.values()`, in declaration order. */
  const Table: seq<FieldType> := [Boolean, Bool, BooleanArg, BoolArg, Str, Integer, Int, Long, Lg]

  /** The (class, count) pairs the table serves. */
  predicate Supported(cl: JavaClass, n: int) {
    ((cl == BooleanClass || cl == BooleanPrimitive) && (n == 0 || n == 1))
    || ((cl == StringClass || cl == IntegerClass || cl == IntPrimitive || cl == LongClass || cl == LongPrimitive) && n == 1)
  }

  /** The search loop of `forClass`, from position `i` of the table. */
  function FindFrom(cl: JavaClass, n: int, i: nat): (r: Result<FieldType>)
    requires i <= |Table|
    ensures r.Ok? ==> r.value.Cl() == cl && r.value.Arity() == n
    ensures r.Ok? <==> exists j :: i <= j < |Table| && Table[j].Cl() == cl && Table[j].Arity() == n
    ensures r.Err? ==> r.error == ArgumentError
    decreases |Table| - i
  {
    if i == |Table| then Err(ArgumentError)
    else if Table[i].Cl() == cl && Table[i].Arity() == n then Ok(Table[i])
    else FindFrom(cl, n, i + 1)
  }

  /** `forClass`: the first constant serving (cl, n), else an IllegalArgumentException. */
  function ForClass(cl: JavaClass, n: int): (r: Result<FieldType>)
    ensures r.Ok? ==> r.value.Cl() == cl && r.value.Arity() == n
    ensures r.Err? ==> r.error == ArgumentError
  {
    FindFrom(cl, n, 0)
  }

  /** `forClass` succeeds exactly on the nine pairs of the table. */
  lemma ForClassIff(cl: JavaClass, n: int)
    ensures ForClass(cl, n).Ok? <==> Supported(cl, n)
  {
    if Supported(cl, n) {
      var j := if cl == BooleanClass then (if n == 0 then 0 else 2)
        else if cl == BooleanPrimitive then (if n == 0 then 1 else 3)
        else if cl == StringClass then 4
        else if cl == IntegerClass then 5
        else if cl == IntPrimitive then 6
        else if cl == LongClass then 7
        else 8;
      assert Table[j].Cl() == cl && Table[j].Arity() == n;
    }
  }

  /** The search is unambiguous: no two constants serve the same pair. */
  lemma TablePairsDistinct(t: FieldType, u: FieldType)
    requires t.Cl() == u.Cl() && t.Arity() == u.Arity()
    ensures t == u
  {
  }

  // ---------------------------------------------------------------------
  // Boolean literals

  /** The accepted spellings of false and true. An entry may be `None`: the
      true array is copied to the length of the false array. */
  datatype BoolLiterals = BoolLiterals(falses: seq<Option<string>>, trues: seq<Option<string>>)

  const DefaultLiterals := BoolLiterals([Some("false")], [Some("true")])

  /** `Arrays.copyOf(a, n)`: truncated, or padded with null. */
  function CopyOf(a: seq<Option<string>>, n: nat): (r: seq<Option<string>>)
    ensures |r| == n
    ensures forall i :: 0 <= i < n ==> r[i] == if i < |a| then a[i] else None
  {
    if n <= |a| then a[..n] else a + seq(n - |a|, _ => None)
  }

  /** The validity test of `setBooleanConstants`: both arrays present and
      non-empty, no null or empty entry, and no string in both. */
  predicate LiteralsAcceptable(falseValues: Option<seq<Option<string>>>, trueValues: Option<seq<Option<string>>>) {
    falseValues.Some? && trueValues.Some? && |falseValues.value| > 0 && |trueValues.value| > 0
    && (forall x :: x in falseValues.value ==> x.Some? && x.value != "")
    && (forall x :: x in trueValues.value ==> x.Some? && x.value != "")
    && (forall x :: x in falseValues.value ==> x !in trueValues.value)
  }

  /** The literal sets `setBooleanConstants` installs. */
  function SetLiterals(falseValues: Option<seq<Option<string>>>, trueValues: Option<seq<Option<string>>>): (r: Result<BoolLiterals>)
    ensures r.Ok? <==> LiteralsAcceptable(falseValues, trueValues)
    ensures r.Ok? ==> r.value.falses == falseValues.value
    ensures r.Ok? ==> r.value.trues == CopyOf(trueValues.value, |falseValues.value|)
    ensures r.Err? ==> r.error == ArgumentError
  {
    if !LiteralsAcceptable(falseValues, trueValues) then Err(ArgumentError)
    else Ok(BoolLiterals(falseValues.value, CopyOf(trueValues.value, |falseValues.value|)))
  }

  /** The process-wide literal arrays `boolFalseStr` / `boolTrueStr`. */
  class BooleanConstants {
    var falseStr: seq<Option<string>>
    var trueStr: seq<Option<string>>

    function Literals(): BoolLiterals
      reads this
    {
      BoolLiterals(falseStr, trueStr)
    }

    constructor ()
      ensures Literals() == DefaultLiterals
    {
      falseStr := [Some("false")];
      trueStr := [Some("true")];
    }

    /** `setBooleanConstants`: installs the new arrays, or fails and leaves the
        current ones in place. */
    method SetBooleanConstants(falseValues: Option<seq<Option<string>>>, trueValues: Option<seq<Option<string>>>) returns (o: Outcome)
      modifies this
      ensures o == OutcomeOf(SetLiterals(falseValues, trueValues))
      ensures o.Pass? ==> Literals() == SetLiterals(falseValues, trueValues).value
      ensures o.Fail? ==> Literals() == old(Literals())
    {
      if !LiteralsAcceptable(falseValues, trueValues) {
        return Fail(ArgumentError);
      }
      falseStr := falseValues.value;
      trueStr := CopyOf(trueValues.value, |falseValues.value|);
      return Pass;
    }

    /** `resetBooleanConstants`: back to {"false"} and {"true"}. */
    method ResetBooleanConstants()
      modifies this
      ensures Literals() == DefaultLiterals
    {
      falseStr := [Some("false")];
      trueStr := [Some("true")];
    }
  }

  // ---------------------------------------------------------------------
  // Converters

  /** `computeValue`'s guard: a null list, or one whose size lies outside the
      expected multiplicity, is an IllegalArgumentException. */
  function ComputeValue(expected: Multiplicity, params: Option<seq<string>>): (r: Result<seq<string>>)
    ensures r.Ok? <==> params.Some? && expected.min <= |params.value| <= expected.max
    ensures r.Ok? ==> r.value == params.value
    ensures r.Err? ==> r.error == ArgumentError
  {
    if params.None? || |params.value| < expected.min || |params.value| > expected.max then Err(ArgumentError)
    else Ok(params.value)
  }

  /** `applyBool`: no argument, always true. */
  function ApplyBool(params: Option<seq<string>>): Result<Value> {
    var l :- ComputeValue(Bounds(0, 0), params);
    Ok(BoolVal(true))
  }

  /** `applyBoolArg`: the false spellings are tried first, then the true ones. */
  function ApplyBoolArg(lits: BoolLiterals, params: Option<seq<string>>): Result<Value> {
    var l :- ComputeValue(Bounds(1, 1), params);
    if Some(l[0]) in lits.falses then Ok(BoolVal(false))
    else if Some(l[0]) in lits.trues then Ok(BoolVal(true))
    else Err(UsageError(NotBoolean(l[0])))
  }

  /** `applyString`: the argument itself. */
  function ApplyString(params: Option<seq<string>>): Result<Value> {
    var l :- ComputeValue(Bounds(1, 1), params);
    Ok(StringVal(l[0]))
  }

  /** `applyInt`: `Integer.parseInt`, a malformed number being a usage error. */
  function ApplyInt(params: Option<seq<string>>): Result<Value> {
    var l :- ComputeValue(Bounds(1, 1), params);
    match ParseInt32(l[0])
    case None => Err(UsageError(NotInteger(l[0])))
    case Some(v) => Ok(IntVal(v))
  }

  /** `applyLong`: `Long.parseLong`, a malformed number being a usage error. */
  function ApplyLong(params: Option<seq<string>>): Result<Value> {
    var l :- ComputeValue(Bounds(1, 1), params);
    match ParseInt64(l[0])
    case None => Err(UsageError(NotInteger(l[0])))
    case Some(v) => Ok(LongVal(v))
  }

  /** `apply` of a constant: its converter on the argument list. */
  function Apply(t: FieldType, lits: BoolLiterals, params: Option<seq<string>>): (r: Result<Value>)
    ensures params.None? || |params.value| != t.Arity() ==> r == Err(ArgumentError)
    ensures r.Err? && r.error != ArgumentError ==> r.error.UsageError?
    ensures t.Arity() == 0 && params == Some([]) ==> r == Ok(BoolVal(true))
    ensures t == Str && params.Some? && |params.value| == 1 ==> r == Ok(StringVal(params.value[0]))
  {
    match t
    case Boolean | Bool => ApplyBool(params)
    case BooleanArg | BoolArg => ApplyBoolArg(lits, params)
    case Str => ApplyString(params)
    case Integer | Int => ApplyInt(params)
    case Long | Lg => ApplyLong(params)
  }

  // ---------------------------------------------------------------------
  // Lemmas

  /** A boolean argument reads false when it is a false spelling (checked
      first), true when it is only a true spelling, and is refused otherwise. */
  lemma BoolArgReading(t: FieldType, lits: BoolLiterals, token: string)
    requires t == BooleanArg || t == BoolArg
    ensures Apply(t, lits, Some([token])) == Ok(BoolVal(false)) <==> Some(token) in lits.falses
    ensures Apply(t, lits, Some([token])) == Ok(BoolVal(true)) <==> Some(token) !in lits.falses && Some(token) in lits.trues
    ensures Apply(t, lits, Some([token])).Err? <==> Some(token) !in lits.falses && Some(token) !in lits.trues
    ensures Apply(t, lits, Some([token])).Err? ==> Apply(t, lits, Some([token])).error == UsageError(NotBoolean(token))
  {
  }

  /** An int field reads back the printed value of every int; a token that is
      not an int is a usage error. */
  lemma IntReading(t: FieldType, lits: BoolLiterals, n: Int32, token: string)
    requires t == Integer || t == Int
    ensures Apply(t, lits, Some([IntToString(n)])) == Ok(IntVal(n))
    ensures ParseInt32(token).None? <==> Apply(t, lits, Some([token])) == Err(UsageError(NotInteger(token)))
  {
    IntToStringRoundTrip(n, MinInt32, MaxInt32);
  }

  /** A long field reads back the printed value of every long. */
  lemma LongReading(t: FieldType, lits: BoolLiterals, n: Int64, token: string)
    requires t == Long || t == Lg
    ensures Apply(t, lits, Some([IntToString(n)])) == Ok(LongVal(n))
    ensures ParseInt64(token).None? <==> Apply(t, lits, Some([token])) == Err(UsageError(NotInteger(token)))
  {
    IntToStringRoundTrip(n, MinInt64, MaxInt64);
  }

  /** Int is range-checked at 32 bits: a long outside the int range is
      refused by an int field and read by a long field. */
  lemma IntRangeIsNarrower(n: Int64)
    requires n < MinInt32 || n > MaxInt32
    ensures Apply(Int, DefaultLiterals, Some([IntToString(n)])) == Err(UsageError(NotInteger(IntToString(n))))
    ensures Apply(Lg, DefaultLiterals, Some([IntToString(n)])) == Ok(LongVal(n))
  {
    IntToStringRoundTrip(n, MinInt64, MaxInt64);
    IntToStringRoundTrip(n, n, n);
    ParseSignedRange(IntToString(n), n, n, n, MinInt32, MaxInt32);
  }

  /** The default spellings are exactly "false" and "true". */
  lemma DefaultReading(token: string)
    ensures Apply(BoolArg, DefaultLiterals, Some([token])) ==
      if token == "false" then Ok(BoolVal(false))
      else if token == "true" then Ok(BoolVal(true))
      else Err(UsageError(NotBoolean(token)))
  {
  }

  /** The true array is cut to the false array's length: a second true
      spelling is lost when only one false spelling is given, and a longer
      false array pads the true one with null entries. */
  lemma SetLiteralsCopiesWithFalseLength()
    ensures SetLiterals(Some([Some("no")]), Some([Some("yes"), Some("ok")])) == Ok(BoolLiterals([Some("no")], [Some("yes")]))
    ensures Apply(BoolArg, BoolLiterals([Some("no")], [Some("yes")]), Some(["ok"])).Err?
    ensures SetLiterals(Some([Some("no"), Some("off")]), Some([Some("yes")])) == Ok(BoolLiterals([Some("no"), Some("off")], [Some("yes"), None]))
  {
    assert CopyOf([Some("yes"), Some("ok")], 1) == [Some("yes")];
    assert CopyOf([Some("yes")], 2) == [Some("yes"), None];
  }

  /** The refused argument pairs of the library's tests. */
  lemma SetLiteralsRejects()
    ensures SetLiterals(None, None).Err?
    ensures SetLiterals(Some([Some("a")]), None).Err?
    ensures SetLiterals(None, Some([Some("a")])).Err?
    ensures SetLiterals(Some([Some("")]), Some([Some("")])).Err?
    ensures SetLiterals(Some([Some("")]), Some([Some("a")])).Err?
    ensures SetLiterals(Some([Some("a")]), Some([Some("")])).Err?
    ensures SetLiterals(Some([Some("a")]), Some([Some("a")])).Err?
    ensures SetLiterals(Some([]), Some([])).Err?
    ensures SetLiterals(Some([Some("a")]), Some([])).Err?
    ensures SetLiterals(Some([]), Some([Some("a")])).Err?
    ensures SetLiterals(Some([None]), Some([None])).Err?
    ensures SetLiterals(Some([Some("a")]), Some([None])).Err?
    ensures SetLiterals(Some([None]), Some([Some("a")])).Err?
  {
    assert Some("") in [Some("")];
    assert Some("a") in [Some("a")];
    var none: Option<string> := None;
    assert none in [none];
  }

  /** With {"no"}/{"yes"} installed, "yes" reads true and "no" reads false. */
  lemma CustomLiterals()
    ensures SetLiterals(Some([Some("no")]), Some([Some("yes")])) == Ok(BoolLiterals([Some("no")], [Some("yes")]))
    ensures Apply(BoolArg, BoolLiterals([Some("no")], [Some("yes")]), Some(["yes"])) == Ok(BoolVal(true))
    ensures Apply(BoolArg, BoolLiterals([Some("no")], [Some("yes")]), Some(["no"])) == Ok(BoolVal(false))
  {
    assert CopyOf([Some("yes")], 1) == [Some("yes")];
  }
}
