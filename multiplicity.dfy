/** The number of arguments an option or the positional list accepts: an
    inclusive integer interval [min..max] with max >= min and max >= 0. */
module Multiplicities {
  import opened Results
  import opened Decimal

  datatype Bounds = Bounds(min: Int32, max: Int32)

  /** A value that passed `checkBounds`. */
  type Multiplicity = b: Bounds | b.max >= b.min && b.max >= 0 witness Bounds(0, 0)

  /** `checkBounds`: the interval is refused when max < min or max < 0. */
  predicate WellFormed(min: int, max: int) {
    !(max < min || max < 0)
  }

  /** `new Multiplicity(min, max)`. */
  function Of(min: Int32, max: Int32): (r: Result<Multiplicity>)
    ensures r.Ok? <==> max >= min && max >= 0
    ensures r.Ok? ==> r.value.min == min && r.value.max == max
    ensures r.Err? ==> r.error == ArgumentError
  {
    if !WellFormed(min, max) then Err(ArgumentError) else Ok(Bounds(min, max))
  }

  /** `new Multiplicity(exactly)`. */
  function Exactly(n: Int32): (r: Result<Multiplicity>)
    ensures r == Of(n, n)
    ensures r.Ok? <==> n >= 0
  {
    if n < 0 then Err(ArgumentError) else Ok(Bounds(n, n))
  }

  // ---------------------------------------------------------------------
  // Java's String.split("\\.\\.")

  /** The first index at or after `i` where ".." starts, scanning left to right. */
  function FindDots(s: string, i: nat): (r: Option<nat>)
    requires i <= |s|
    ensures r.Some? ==> i <= r.value && r.value + 2 <= |s| && s[r.value] == '.' && s[r.value + 1] == '.'
    ensures r.Some? ==> forall j :: i <= j < r.value ==> !(s[j] == '.' && s[j + 1] == '.')
    ensures r.None? ==> forall j :: i <= j < |s| - 1 ==> !(s[j] == '.' && s[j + 1] == '.')
    decreases |s| - i
  {
    if i + 1 >= |s| then None
    else if s[i] == '.' && s[i + 1] == '.' then Some(i)
    else FindDots(s, i + 1)
  }

  /** Every piece between non-overlapping ".." separators, trailing empty ones included. */
  function Pieces(s: string): (r: seq<string>)
    ensures |r| >= 1
    decreases |s|
  {
    match FindDots(s, 0)
    case None => [s]
    case Some(i) => [s[..i]] + Pieces(s[i + 2..])
  }

  function DropTrailingEmpty(p: seq<string>): (r: seq<string>)
    ensures |r| <= |p| && r == p[..|r|]
    ensures |r| > 0 ==> r[|r| - 1] != ""
  {
    if |p| > 0 && p[|p| - 1] == "" then DropTrailingEmpty(p[..|p| - 1]) else p
  }

  /** `s.split("\\.\\.")`: the whole text when no separator occurs, otherwise
      the pieces with trailing empty pieces removed. */
  function JavaSplit(s: string): seq<string> {
    if FindDots(s, 0).None? then [s] else DropTrailingEmpty(Pieces(s))
  }

  /** `new Multiplicity(interval)`: split on "..", parse the first piece as an
      int, the second as an int or "*", ignore the rest, then check the bounds.
      Any failure is an IllegalArgumentException. */
  function Parse(interval: string): (r: Result<Multiplicity>)
    ensures r.Ok? ==> |JavaSplit(interval)| >= 2
    ensures r.Ok? ==> ParseInt32(JavaSplit(interval)[0]) == Some(r.value.min)
    ensures r.Err? ==> r.error == ArgumentError
  {
    var bounds := JavaSplit(interval);
    if |bounds| < 1 then Err(ArgumentError)
    else match ParseInt32(bounds[0])
      case None => Err(ArgumentError)
      case Some(min) =>
        if |bounds| < 2 then Err(ArgumentError)
        else
          var max := if bounds[1] == "*" then Some(MaxInt32 as Int32) else ParseInt32(bounds[1]);
          match max
          case None => Err(ArgumentError)
          case Some(mx) => Of(min, mx)
  }

  // ---------------------------------------------------------------------
  // equals, hashCode, toString

  /** `equals`: same max and same min. */
  predicate Equals(a: Multiplicity, b: Multiplicity) {
    a.max == b.max && a.min == b.min
  }

  /** `Objects.hash(max, min)` in 32-bit arithmetic: 31 * (31 * 1 + max) + min. */
  function HashCode(m: Multiplicity): Int32 {
    Wrap32(31 * (31 + m.max) + m.min)
  }

  /** Reduction of an integer to Java's `int` range, two's complement. */
  function Wrap32(x: int): (r: Int32)
    ensures (r - x) % 0x1_0000_0000 == 0
  {
    var m := x % 0x1_0000_0000;
    if m > MaxInt32 then m - 0x1_0000_0000 else m
  }

  /** Text of the upper bound, "*" standing for Integer.MAX_VALUE. */
  function MaxText(m: Multiplicity): string {
    if m.max == MaxInt32 then "*" else IntToString(m.max)
  }

  /** The interval without brackets, as the constructor reads it. */
  function Pattern(m: Multiplicity): string {
    IntToString(m.min) + ".." + MaxText(m)
  }

  /** `toString`: "[min..max]". */
  function ToString(m: Multiplicity): (s: string)
    ensures s == "[" + Pattern(m) + "]"
    ensures |s| >= 6 && s[0] == '[' && s[|s| - 1] == ']'
  {
    "[" + IntToString(m.min) + ".." + MaxText(m) + "]"
  }

  /** `toHumanReadableString`, the wording used in the wrong-parameter-count
      message: the first matching case of exactly, any, at least, at most,
      between. */
  function ToHumanReadable(m: Multiplicity): string {
    if m.min == m.max then "exactly " + IntToString(m.min)
    else if m.min == 0 && m.max == MaxInt32 then "any"
    else if m.max == MaxInt32 then "at least " + IntToString(m.min)
    else if m.min == 0 then "at most " + IntToString(m.max)
    else "between " + IntToString(m.min) + " and " + IntToString(m.max)
  }

  // ---------------------------------------------------------------------
  // Lemmas

  /** A text with no '.' holds no separator: it splits to itself. */
  lemma PiecesNoDot(a: string)
    requires '.' !in a
    ensures FindDots(a, 0).None?
    ensures Pieces(a) == [a]
  {
    assert forall j :: 0 <= j < |a| ==> a[j] != '.';
  }

  /** A separator after a dot-free prefix ends the first piece. */
  lemma {:induction false} PiecesCons(a: string, rest: string)
    requires '.' !in a
    ensures FindDots(a + ".." + rest, 0) == Some(|a|)
    ensures Pieces(a + ".." + rest) == [a] + Pieces(rest)
  {
    var s := a + ".." + rest;
    FindDotsSkips(s, 0, |a|);
    assert s[..|a|] == a;
    assert s[|a| + 2..] == rest;
  }

  lemma {:induction false} FindDotsSkips(s: string, i: nat, k: nat)
    requires i <= k && k + 2 <= |s| && s[k] == '.' && s[k + 1] == '.'
    requires forall j :: i <= j < k ==> s[j] != '.'
    ensures FindDots(s, i) == Some(k)
    decreases k - i
  {
    if i < k {
      assert s[i] != '.';
      FindDotsSkips(s, i + 1, k);
    }
  }

  /** "a..b" with dot-free a and non-empty dot-free b splits to [a, b]. */
  lemma SplitTwo(a: string, b: string)
    requires '.' !in a && '.' !in b && b != ""
    ensures JavaSplit(a + ".." + b) == [a, b]
  {
    PiecesCons(a, b);
    PiecesNoDot(b);
  }

  lemma IntToStringInjective(x: int, y: int)
    requires IntToString(x) == IntToString(y)
    ensures x == y
  {
    var lo := if x < y then x else y;
    var hi := if x < y then y else x;
    IntToStringRoundTrip(x, lo, hi);
    IntToStringRoundTrip(y, lo, hi);
  }

  /** Printing the interval and parsing the text inside the brackets gives it back. */
  lemma PatternRoundTrip(m: Multiplicity)
    ensures Parse(Pattern(m)) == Ok(m)
    ensures Parse(ToString(m)[1..|ToString(m)| - 1]) == Ok(m)
  {
    PatternParses(m);
    var s := ToString(m);
    assert s[1..|s| - 1] == Pattern(m);
  }

  lemma PatternParses(m: Multiplicity)
    ensures Parse(Pattern(m)) == Ok(m)
  {
    IntToStringHasNoDot(m.min);
    IntToStringHasNoDot(m.max);
    SplitTwo(IntToString(m.min), MaxText(m));
    IntToStringRoundTrip(m.min, MinInt32, MaxInt32);
    if m.max != MaxInt32 {
      IntToStringRoundTrip(m.max, MinInt32, MaxInt32);
      assert MaxText(m) != "*" by {
        assert MaxText(m)[0] != '*';
      }
    }
  }

  /** "*" appears in the printed form exactly when max is Integer.MAX_VALUE. */
  lemma StarIffMaxValue(m: Multiplicity)
    ensures '*' in ToString(m) <==> m.max == MaxInt32
  {
    var a := IntToString(m.min);
    var s := ToString(m);
    assert s == "[" + a + ".." + MaxText(m) + "]";
    if m.max == MaxInt32 {
      assert s[|a| + 3] == '*';
    } else {
      forall i | 0 <= i < |s| ensures s[i] != '*' {
        if 1 <= i < |a| + 1 {
          assert s[i] == a[i - 1];
        } else if |a| + 3 <= i < |s| - 1 {
          assert s[i] == MaxText(m)[i - |a| - 3];
        }
      }
    }
  }

  /** "x..*" reads as max = Integer.MAX_VALUE. */
  lemma StarIsMaxValue(x: Int32)
    ensures Parse(IntToString(x) + "..*") == Of(x, MaxInt32)
  {
    IntToStringHasNoDot(x);
    assert IntToString(x) + "..*" == IntToString(x) + ".." + "*";
    assert '.' !in "*";
    SplitTwo(IntToString(x), "*");
    IntToStringRoundTrip(x, MinInt32, MaxInt32);
    assert ParseInt32(IntToString(x)) == Some(x);
  }

  /** Equality is equality of the bounds, and equal values hash alike. */
  lemma EqualsIsValueEquality(a: Multiplicity, b: Multiplicity)
    ensures Equals(a, b) <==> a == b
    ensures Equals(a, b) ==> HashCode(a) == HashCode(b)
  {
  }

  /** Parsing "a..b" when both bounds read as integers. */
  lemma ParseTwo(a: string, x: Int32, b: string, y: Int32)
    requires '.' !in a && '.' !in b && b != "" && b != "*"
    requires ParseInt32(a) == Some(x) && ParseInt32(b) == Some(y)
    ensures Parse(a + ".." + b) == Of(x, y)
  {
    SplitTwo(a, b);
  }

  /** "a..b" is refused when either bound does not read as an integer. */
  lemma ParseTwoBad(a: string, b: string)
    requires '.' !in a && '.' !in b && b != "" && b != "*"
    requires ParseInt32(a).None? || ParseInt32(b).None?
    ensures Parse(a + ".." + b).Err?
  {
    SplitTwo(a, b);
  }

  /** A dot-free text is refused: it yields at most one piece. */
  lemma ParseOnePiece(s: string)
    requires forall j :: 0 <= j < |s| - 1 ==> !(s[j] == '.' && s[j + 1] == '.')
    ensures Parse(s).Err?
  {
    NoSeparator(s);
  }

  lemma ParseInt32Small(n: Int32)
    ensures ParseInt32(IntToString(n)) == Some(n)
  {
    IntToStringRoundTrip(n, MinInt32, MaxInt32);
  }

  /** A text "a..b..c" with dot-free pieces splits to [a, b, c]. */
  lemma SplitThree(a: string, b: string, c: string)
    requires '.' !in a && '.' !in b && '.' !in c && c != ""
    ensures JavaSplit(a + ".." + (b + ".." + c)) == [a, b, c]
  {
    var s := a + ".." + (b + ".." + c);
    PiecesCons(a, b + ".." + c);
    PiecesCons(b, c);
    PiecesNoDot(c);
    assert Pieces(s) == [a, b, c];
    assert FindDots(s, 0).Some?;
    assert DropTrailingEmpty([a, b, c]) == [a, b, c];
  }

  /** Parsing "a..b..c" reads the first two pieces only. */
  lemma ParseThree(a: string, x: Int32, b: string, y: Int32, c: string)
    requires '.' !in a && '.' !in b && '.' !in c && c != "" && b != "*"
    requires ParseInt32(a) == Some(x) && ParseInt32(b) == Some(y)
    ensures Parse(a + ".." + (b + ".." + c)) == Of(x, y)
  {
    SplitThree(a, b, c);
  }

  /** Text after the second separator is ignored. */
  lemma ParseIgnoresThirdPiece()
    ensures Parse("0..1..junk") == Ok(Bounds(0, 1))
  {
    ParseInt32Small(0);
    ParseInt32Small(1);
    assert IntToString(0) == "0" && IntToString(1) == "1";
    assert "0..1..junk" == "0" + ".." + ("1" + ".." + "junk");
    ParseThree("0", 0, "1", 1, "junk");
  }

  /** A sign is accepted and min may be negative. */
  lemma ParseAcceptsSigns()
    ensures Parse("-1..0") == Ok(Bounds(-1, 0))
    ensures Parse("+1..2") == Ok(Bounds(1, 2))
  {
    NegativeMinExample();
    PlusSignExample();
  }

  lemma NegativeMinExample()
    ensures Parse("-1..0") == Ok(Bounds(-1, 0))
  {
    ParseInt32Small(-1);
    ParseInt32Small(0);
    assert IntToString(-1) == "-1" && IntToString(0) == "0";
    assert "-1..0" == "-1" + ".." + "0";
    ParseTwo("-1", -1, "0", 0);
  }

  lemma PlusSignExample()
    ensures Parse("+1..2") == Ok(Bounds(1, 2))
  {
    ParseInt32Small(2);
    assert IntToString(2) == "2";
    assert ParseInt32("+1") == Some(1) by {
      assert "+1"[1..] == "1";
      assert DigitsValue("1") == 1 by { assert "1"[..0] == ""; }
    }
    assert "+1..2" == "+1" + ".." + "2";
    ParseTwo("+1", 1, "2", 2);
  }

  /** Texts with fewer than two pieces are refused. */
  lemma ParseRejectsOnePiece()
    ensures Parse("").Err? && Parse("0").Err? && Parse("0.").Err?
    ensures Parse("1.").Err? && Parse("0.1").Err? && Parse("0. .1").Err?
    ensures Parse("0..").Err?
  {
    ParseOnePiece(""); ParseOnePiece("0"); ParseOnePiece("0."); ParseOnePiece("1.");
    ParseOnePiece("0.1"); ParseOnePiece("0. .1");
    assert "0.." == "0" + ".." + "";
    PiecesCons("0", ""); PiecesNoDot("");
    assert JavaSplit("0..") == ["0"];
  }

  /** Inverted intervals and a negative max are refused. */
  lemma ParseRejectsBadBounds()
    ensures Parse("1..0").Err? && Parse("-2..-1").Err?
  {
    ParseInt32Small(1); ParseInt32Small(0); ParseInt32Small(-2); ParseInt32Small(-1);
    assert IntToString(1) == "1" && IntToString(0) == "0";
    assert IntToString(-2) == "-2" && IntToString(-1) == "-1";
    assert "1..0" == "1" + ".." + "0";
    ParseTwo("1", 1, "0", 0);
    assert "-2..-1" == "-2" + ".." + "-1";
    ParseTwo("-2", -2, "-1", -1);
  }

  /** A missing or alphabetic bound is refused. */
  lemma ParseRejectsLetters()
    ensures Parse("..1").Err? && Parse("0..a").Err? && Parse("a..1").Err?
  {
    assert Parse("..1").Err? by {
      assert "..1" == "" + ".." + "1";
      ParseTwoBad("", "1");
    }
    assert Parse("0..a").Err? by {
      assert !IsDigit("a"[0]);
      assert "0..a" == "0" + ".." + "a";
      ParseTwoBad("0", "a");
    }
    assert Parse("a..1").Err? by {
      assert !IsDigit("a"[0]);
      assert "a..1" == "a" + ".." + "1";
      ParseTwoBad("a", "1");
    }
  }

  /** A blank at either end of the text is refused. */
  lemma ParseRejectsOuterBlanks()
    ensures Parse(" 0..1").Err? && Parse("0..1 ").Err?
  {
    assert Parse(" 0..1").Err? by {
      assert !IsDigit(" 0"[0]);
      assert " 0..1" == " 0" + ".." + "1";
      ParseTwoBad(" 0", "1");
    }
    assert Parse("0..1 ").Err? by {
      assert !IsDigit("1 "[1]);
      assert "0..1 " == "0" + ".." + "1 ";
      ParseTwoBad("0", "1 ");
    }
  }

  /** A blank around the separator is refused. */
  lemma ParseRejectsInnerBlanks()
    ensures Parse("0 .. 1").Err? && Parse("0 ..1").Err? && Parse("0.. 1").Err?
  {
    BlanksBothSidesExample();
    BlankBeforeExample();
    BlankAfterExample();
  }

  lemma BlanksBothSidesExample()
    ensures Parse("0 .. 1").Err?
  {
    assert !IsDigit("0 "[1]);
    assert "0 .. 1" == "0 " + ".." + " 1";
    ParseTwoBad("0 ", " 1");
  }

  lemma BlankBeforeExample()
    ensures Parse("0 ..1").Err?
  {
    assert !IsDigit("0 "[1]);
    assert "0 ..1" == "0 " + ".." + "1";
    ParseTwoBad("0 ", "1");
  }

  lemma BlankAfterExample()
    ensures Parse("0.. 1").Err?
  {
    assert !IsDigit(" 1"[0]);
    assert "0.. 1" == "0" + ".." + " 1";
    ParseTwoBad("0", " 1");
  }

  lemma NoSeparator(s: string)
    requires forall j :: 0 <= j < |s| - 1 ==> !(s[j] == '.' && s[j + 1] == '.')
    ensures JavaSplit(s) == [s]
  {
  }

  /** The human-readable forms pinned by the library's tests. */
  lemma HumanReadableExamples()
    ensures ToHumanReadable(Bounds(2, 2)) == "exactly 2"
    ensures ToHumanReadable(Bounds(1, 3)) == "between 1 and 3"
    ensures ToHumanReadable(Bounds(0, 2)) == "at most 2"
    ensures ToHumanReadable(Bounds(1, MaxInt32)) == "at least 1"
    ensures ToHumanReadable(Bounds(0, MaxInt32)) == "any"
  {
  }

  lemma {:induction false} UpToSpaceCons(a: string, b: string)
    requires ' ' !in a
    ensures UpToSpace(a + " " + b) == a
  {
    if a != [] {
      assert (a + " " + b)[1..] == a[1..] + " " + b;
      UpToSpaceCons(a[1..], b);
    }
  }

  /** The prefix of a text before its first blank. */
  function UpToSpace(s: string): string {
    if s == [] || s[0] == ' ' then [] else [s[0]] + UpToSpace(s[1..])
  }

  /** Distinct intervals get distinct wordings. */
  lemma HumanReadableInjective(a: Multiplicity, b: Multiplicity)
    requires ToHumanReadable(a) == ToHumanReadable(b)
    ensures a == b
  {
    var s := ToHumanReadable(a);
    var ka := HumanKind(a);
    var kb := HumanKind(b);
    HumanKindPrefix(a);
    HumanKindPrefix(b);
    assert ka == kb;
    if ka == 0 {
      assert s[8..] == IntToString(a.min) == IntToString(b.min);
      IntToStringInjective(a.min, b.min);
    } else if ka == 2 {
      assert s[9..] == IntToString(a.min) == IntToString(b.min);
      IntToStringInjective(a.min, b.min);
    } else if ka == 3 {
      assert s[8..] == IntToString(a.max) == IntToString(b.max);
      IntToStringInjective(a.max, b.max);
    } else if ka == 1 {
    } else {
      BetweenParts(a);
      BetweenParts(b);
      IntToStringInjective(a.min, b.min);
      IntToStringInjective(a.max, b.max);
    }
  }

  /** Which of the five wordings applies, in order. */
  function HumanKind(m: Multiplicity): nat {
    if m.min == m.max then 0
    else if m.min == 0 && m.max == MaxInt32 then 1
    else if m.max == MaxInt32 then 2
    else if m.min == 0 then 3
    else 4
  }

  lemma HumanKindPrefix(m: Multiplicity)
    ensures var s := ToHumanReadable(m);
      |s| >= 3 &&
      (HumanKind(m) == 0 <==> s[0] == 'e') &&
      (HumanKind(m) == 1 <==> (s[0] == 'a' && s[1] == 'n')) &&
      (HumanKind(m) == 2 <==> (s[0] == 'a' && s[1] == 't' && s[3] == 'l')) &&
      (HumanKind(m) == 3 <==> (s[0] == 'a' && s[1] == 't' && s[3] == 'm')) &&
      (HumanKind(m) == 4 <==> s[0] == 'b')
  {
  }

  lemma BetweenParts(m: Multiplicity)
    requires HumanKind(m) == 4
    ensures var s := ToHumanReadable(m);
      var a := IntToString(m.min);
      UpToSpace(s[8..]) == a && |s| >= 13 + |a| && s[13 + |a|..] == IntToString(m.max)
  {
    var s := ToHumanReadable(m);
    var a := IntToString(m.min);
    assert ' ' !in a;
    assert s[8..] == a + " " + ("and " + IntToString(m.max));
    UpToSpaceCons(a, "and " + IntToString(m.max));
  }
}
