/** `OptionUsagePrinter`: the option summary of a catalogue, one line per
    named field, sorted by name, in aligned columns (short name, long name,
    argument placeholders, description).

    The text the `PrintWriter` would receive is returned as a string. */
module UsagePrinting {
  import opened Results
  import opened Decimal
  import opened Registries
  import opened OptionMaps

  // ---------------------------------------------------------------------
  // Sort order

  /** `String.compareTo(...) < 0`: lexicographic on characters, a proper
      prefix coming first. */
  predicate LexLess(a: string, b: string)
    decreases |a|
  {
    if a == [] then b != []
    else if b == [] then false
    else if a[0] != b[0] then a[0] < b[0]
    else LexLess(a[1..], b[1..])
  }

  /** The name a row is sorted by: the short name, else the long name. */
  function SortName(reg: Registry, f: FieldRef): string
    requires Registries.Valid(reg)
  {
    match GetShortName(reg, f)
    case Some(s) => s
    case None => match GetLongName(reg, f) case Some(l) => l case None => ""
  }

  /** The comparator of `print`: names compared ignoring case, then with case.
      Fields with the same name keep the order of `namedFields`, taken here as
      the order of their identities. */
  predicate Before(reg: Registry, f: FieldRef, g: FieldRef)
    requires Registries.Valid(reg)
  {
    var a := SortName(reg, f);
    var b := SortName(reg, g);
    LexLess(LowerCase(a), LowerCase(b))
    || (LowerCase(a) == LowerCase(b) && (LexLess(a, b) || (a == b && f.id < g.id)))
  }

  predicate IsFirst(reg: Registry, m: FieldRef, s: set<FieldRef>)
    requires Registries.Valid(reg)
  {
    m in s && forall y :: y in s ==> !Before(reg, y, m)
  }

  /** `namedFields().stream().sorted(...)`: every field of `s`, once, in
      comparator order. */
  function SortFields(reg: Registry, s: set<FieldRef>): (r: seq<FieldRef>)
    requires Registries.Valid(reg)
    ensures |r| == |s| && forall f :: f in r <==> f in s
    ensures forall i, j :: 0 <= i < j < |r| ==> Before(reg, r[i], r[j])
    decreases |s|
  {
    if s == {} then []
    else
      FirstExists(reg, s);
      FirstUnique(reg, s);
      var m :| IsFirst(reg, m, s);
      var rest := SortFields(reg, s - {m});
      SortedCons(reg, m, s, rest);
      [m] + rest
  }

  lemma {:induction false} LexIrreflexive(a: string)
    ensures !LexLess(a, a)
    decreases |a|
  {
    if a != [] {
      LexIrreflexive(a[1..]);
    }
  }

  lemma {:induction false} LexTotal(a: string, b: string)
    ensures a == b || LexLess(a, b) || LexLess(b, a)
    ensures !(LexLess(a, b) && LexLess(b, a))
    decreases |a|
  {
    if a != [] && b != [] && a[0] == b[0] {
      LexTotal(a[1..], b[1..]);
      if a[1..] == b[1..] {
        assert a == [a[0]] + a[1..] && b == [b[0]] + b[1..];
      }
    }
  }

  lemma {:induction false} LexTransitive(a: string, b: string, c: string)
    requires LexLess(a, b) && LexLess(b, c)
    ensures LexLess(a, c)
    decreases |a|
  {
    if a != [] && a[0] == b[0] && b[0] == c[0] {
      LexTransitive(a[1..], b[1..], c[1..]);
    }
  }

  /** The comparator is a strict total order on distinct fields. */
  lemma BeforeIsStrictTotal(reg: Registry, f: FieldRef, g: FieldRef, h: FieldRef)
    requires Registries.Valid(reg)
    ensures !Before(reg, f, f)
    ensures f != g ==> Before(reg, f, g) || Before(reg, g, f)
    ensures !(Before(reg, f, g) && Before(reg, g, f))
    ensures Before(reg, f, g) && Before(reg, g, h) ==> Before(reg, f, h)
  {
    var a, b, c := SortName(reg, f), SortName(reg, g), SortName(reg, h);
    LexIrreflexive(a);
    LexIrreflexive(LowerCase(a));
    LexTotal(a, b);
    LexTotal(LowerCase(a), LowerCase(b));
    if Before(reg, f, g) && Before(reg, g, h) {
      if LexLess(LowerCase(a), LowerCase(b)) && LexLess(LowerCase(b), LowerCase(c)) {
        LexTransitive(LowerCase(a), LowerCase(b), LowerCase(c));
      }
      if LexLess(a, b) && LexLess(b, c) {
        LexTransitive(a, b, c);
      }
    }
  }

  lemma {:induction false} FirstExists(reg: Registry, s: set<FieldRef>)
    requires Registries.Valid(reg) && s != {}
    ensures exists m :: IsFirst(reg, m, s)
    decreases |s|
  {
    var z :| z in s;
    if s == {z} {
      BeforeIsStrictTotal(reg, z, z, z);
      assert IsFirst(reg, z, s);
    } else {
      FirstExists(reg, s - {z});
      var m :| IsFirst(reg, m, s - {z});
      if Before(reg, z, m) {
        forall y | y in s ensures !Before(reg, y, z) {
          BeforeIsStrictTotal(reg, y, z, m);
          BeforeIsStrictTotal(reg, z, z, z);
        }
        assert IsFirst(reg, z, s);
      } else {
        assert IsFirst(reg, m, s);
      }
    }
  }

  lemma FirstUnique(reg: Registry, s: set<FieldRef>)
    requires Registries.Valid(reg)
    ensures forall m, n :: IsFirst(reg, m, s) && IsFirst(reg, n, s) ==> m == n
  {
    forall m, n | IsFirst(reg, m, s) && IsFirst(reg, n, s) ensures m == n {
      BeforeIsStrictTotal(reg, m, n, n);
    }
  }

  /** The first field followed by the sorted others is sorted. */
  lemma SortedCons(reg: Registry, m: FieldRef, s: set<FieldRef>, rest: seq<FieldRef>)
    requires Registries.Valid(reg) && IsFirst(reg, m, s)
    requires |rest| == |s - {m}| && forall f :: f in rest <==> f in s - {m}
    requires forall i, j :: 0 <= i < j < |rest| ==> Before(reg, rest[i], rest[j])
    ensures |[m] + rest| == |s| && forall f :: f in [m] + rest <==> f in s
    ensures forall i, j :: 0 <= i < j < |[m] + rest| ==> Before(reg, ([m] + rest)[i], ([m] + rest)[j])
  {
    var r := [m] + rest;
    forall y | y in s - {m} ensures Before(reg, m, y) {
      BeforeIsStrictTotal(reg, m, y, y);
    }
    forall i, j | 0 <= i < j < |r| ensures Before(reg, r[i], r[j]) {
      if i == 0 {
        assert r[j] == rest[j - 1] && r[j] in rest;
      } else {
        assert r[i] == rest[i - 1] && r[j] == rest[j - 1];
      }
    }
  }

  // ---------------------------------------------------------------------
  // The word matrix

  /** One row of `buildWordMatrix`: "-short", "--long", the argument
      placeholders and the description; the first three may be null. */
  datatype Row = Row(shortOpt: Option<string>, longOpt: Option<string>, args: Option<string>, descr: string)

  function Prefixed(p: string, o: Option<string>): Option<string> {
    match o
    case None => None
    case Some(s) => Some(p + s)
  }

  /** The placeholders "<arg0> <arg1> ...", joined by single spaces. */
  function JoinArgs(names: seq<string>): string
    requires |names| > 0
    decreases |names|
  {
    var last := "<" + names[|names| - 1] + ">";
    if |names| == 1 then last else JoinArgs(names[..|names| - 1]) + " " + last
  }

  function ArgsCell(names: seq<string>): Option<string> {
    if names == [] then None else Some(JoinArgs(names))
  }

  /** The description, with the " [required]" tag when the flag is true. */
  function DescrCell(reg: Registry, f: FieldRef): string {
    var d := GetDescription(reg, f);
    if IsRequired(reg, f) then (if d == "" then "[required]" else d + " [required]") else d
  }

  function RowOf(reg: Registry, f: FieldRef): Row
    requires Registries.Valid(reg)
  {
    Row(Prefixed("-", GetShortName(reg, f)), Prefixed("--", GetLongName(reg, f)),
        ArgsCell(ArgNames(reg, f)), DescrCell(reg, f))
  }

  function Rows(reg: Registry, fields: seq<FieldRef>): (rows: seq<Row>)
    requires Registries.Valid(reg)
    ensures |rows| == |fields| && forall i :: 0 <= i < |fields| ==> rows[i] == RowOf(reg, fields[i])
  {
    seq(|fields|, i requires 0 <= i < |fields| => RowOf(reg, fields[i]))
  }

  // ---------------------------------------------------------------------
  // Column widths and layout

  /** The widest non-null cell, 0 if there is none. */
  function MaxLen(cells: seq<Option<string>>): (w: nat)
    ensures forall i :: 0 <= i < |cells| && cells[i].Some? ==> |cells[i].value| <= w
    ensures w > 0 ==> exists i :: 0 <= i < |cells| && cells[i].Some? && |cells[i].value| == w
    decreases |cells|
  {
    if cells == [] then 0
    else
      var w := MaxLen(cells[..|cells| - 1]);
      var last := cells[|cells| - 1];
      if last.Some? && |last.value| > w then |last.value| else w
  }

  function ShortCol(rows: seq<Row>): seq<Option<string>> {
    seq(|rows|, i requires 0 <= i < |rows| => rows[i].shortOpt)
  }

  function LongCol(rows: seq<Row>): seq<Option<string>> {
    seq(|rows|, i requires 0 <= i < |rows| => rows[i].longOpt)
  }

  function ArgsCol(rows: seq<Row>): seq<Option<string>> {
    seq(|rows|, i requires 0 <= i < |rows| => rows[i].args)
  }

  function Spaces(n: nat): (s: string)
    ensures |s| == n && forall i :: 0 <= i < n ==> s[i] == ' '
  {
    seq(n, _ => ' ')
  }

  /** `String.format("%ws", s)`: right-aligned in at least w characters. */
  function PadLeft(s: string, w: nat): string {
    if |s| < w then Spaces(w - |s|) + s else s
  }

  /** `String.format("%-ws", s)`: left-aligned in at least w characters. */
  function PadRight(s: string, w: nat): string {
    if |s| < w then s + Spaces(w - |s|) else s
  }

  /** What `%s` prints for a cell: "null" for a null one. */
  function Show(o: Option<string>): string {
    match o
    case None => "null"
    case Some(s) => s
  }

  /** `printArgs`: nothing when no option takes arguments, blanks for a row
      without arguments, else the placeholders left-aligned. */
  function ArgsText(row: Row, wa: nat): string {
    if wa == 0 then ""
    else if row.args.None? then Spaces(1 + wa)
    else " " + PadRight(row.args.value, wa)
  }

  /** `printDescr`: three spaces and the description if there is one, then
      the end of the line. */
  function DescrText(row: Row): string {
    (if row.descr != "" then "   " + row.descr else "") + "\n"
  }

  /** Which of the three printers `printMatrix` picks, and its name widths. */
  datatype Layout = BothNames(ws: nat, wl: nat) | ShortOnly(ws: nat) | LongOnly(wl: nat)

  /** The name columns of a line: both names (blanks for a missing one,
      separated by ',' when there are two), the short name right-aligned, or
      the long name left-aligned. */
  function Columns(layout: Layout, row: Row): string {
    match layout
    case BothNames(ws, wl) =>
      (if row.shortOpt.None? then Spaces(ws) else PadLeft(row.shortOpt.value, ws))
      + (if row.shortOpt.Some? && row.longOpt.Some? then "," else " ")
      + (if row.longOpt.None? then Spaces(wl) else PadRight(row.longOpt.value, wl))
    case ShortOnly(ws) => PadLeft(Show(row.shortOpt), ws)
    case LongOnly(wl) => PadRight(Show(row.longOpt), wl)
  }

  /** One line of `printMatrixBothShortAndLongOpts`, `printMatrixShortOptsOnly`
      or `printMatrixLongOptsOnly`. */
  function Line(layout: Layout, row: Row, wa: nat): string {
    " " + Columns(layout, row) + ArgsText(row, wa) + DescrText(row)
  }

  /** The lines of the rows, in order. */
  function Lines(layout: Layout, rows: seq<Row>, wa: nat): string
    decreases |rows|
  {
    if rows == [] then "" else Lines(layout, rows[..|rows| - 1], wa) + Line(layout, rows[|rows| - 1], wa)
  }

  /** The printer `printMatrix` dispatches to, if any. */
  function LayoutOf(rows: seq<Row>): Option<Layout> {
    var ws := MaxLen(ShortCol(rows));
    var wl := MaxLen(LongCol(rows));
    if ws != 0 then Some(if wl != 0 then BothNames(ws, wl) else ShortOnly(ws))
    else if wl != 0 then Some(LongOnly(wl))
    else None
  }

  /** `printMatrix`. */
  function MatrixText(rows: seq<Row>): string {
    match LayoutOf(rows)
    case None => ""
    case Some(layout) => Lines(layout, rows, MaxLen(ArgsCol(rows)))
  }

  /** `print`: the summary of a catalogue. */
  function UsageText(reg: Registry): string
    requires Registries.Valid(reg)
  {
    MatrixText(Rows(reg, SortFields(reg, NamedFields(reg))))
  }

  // ---------------------------------------------------------------------
  // Properties of the summary

  /** The number of line ends in a text. */
  function NewLines(s: string): nat
    decreases |s|
  {
    if s == [] then 0 else NewLines(s[..|s| - 1]) + (if s[|s| - 1] == '\n' then 1 else 0)
  }

  lemma {:induction false} NewLinesAppend(a: string, b: string)
    ensures NewLines(a + b) == NewLines(a) + NewLines(b)
    decreases |b|
  {
    if b == [] {
      assert a + b == a;
    } else {
      assert (a + b)[..|a + b| - 1] == a + b[..|b| - 1];
      NewLinesAppend(a, b[..|b| - 1]);
    }
  }

  lemma {:induction false} NoNewLines(s: string)
    requires '\n' !in s
    ensures NewLines(s) == 0
    decreases |s|
  {
    if s != [] {
      NoNewLines(s[..|s| - 1]);
    }
  }

  /** No cell of a row holds a line end. */
  predicate OneLineRow(row: Row) {
    (row.shortOpt.Some? ==> '\n' !in row.shortOpt.value)
    && (row.longOpt.Some? ==> '\n' !in row.longOpt.value)
    && (row.args.Some? ==> '\n' !in row.args.value)
    && '\n' !in row.descr
  }

  lemma PadsOneLine(s: string, w: nat)
    requires '\n' !in s
    ensures '\n' !in PadLeft(s, w) && '\n' !in PadRight(s, w) && '\n' !in Spaces(w)
  {
  }

  lemma ArgsTextOneLine(row: Row, wa: nat)
    requires OneLineRow(row)
    ensures '\n' !in ArgsText(row, wa)
  {
    if wa > 0 {
      if row.args.Some? {
        PadsOneLine(row.args.value, wa);
      } else {
        PadsOneLine("", 1 + wa);
      }
    }
  }

  /** A text without line ends, then one. */
  lemma EndsOneLine(head: string)
    requires '\n' !in head
    ensures NewLines(head + "\n") == 1
  {
    NoNewLines(head);
    NewLinesAppend(head, "\n");
  }

  /** The name columns of a line hold no line end. */
  lemma ColumnsOneLine(layout: Layout, row: Row)
    requires OneLineRow(row)
    ensures '\n' !in Columns(layout, row)
  {
    match layout {
      case BothNames(ws, wl) =>
        PadsOneLine(Show(row.shortOpt), ws);
        PadsOneLine(Show(row.longOpt), wl);
        var sc := if row.shortOpt.None? then Spaces(ws) else PadLeft(row.shortOpt.value, ws);
        var comma := if row.shortOpt.Some? && row.longOpt.Some? then "," else " ";
        var lc := if row.longOpt.None? then Spaces(wl) else PadRight(row.longOpt.value, wl);
        assert '\n' !in sc && '\n' !in comma && '\n' !in lc;
        assert Columns(layout, row) == sc + comma + lc;
      case ShortOnly(ws) =>
        PadsOneLine(Show(row.shortOpt), ws);
      case LongOnly(wl) =>
        PadsOneLine(Show(row.longOpt), wl);
    }
  }

  /** Every printer writes each row on exactly one line. */
  lemma OneLineEach(layout: Layout, row: Row, wa: nat)
    requires OneLineRow(row)
    ensures NewLines(Line(layout, row, wa)) == 1
  {
    var cols := Columns(layout, row);
    var at := ArgsText(row, wa);
    var dh := if row.descr != "" then "   " + row.descr else "";
    ArgsTextOneLine(row, wa);
    ColumnsOneLine(layout, row);
    var head := " " + cols + at + dh;
    assert '\n' !in head;
    assert Line(layout, row, wa) == head + "\n";
    EndsOneLine(head);
  }

  lemma {:induction false} OneLinePerRow(layout: Layout, rows: seq<Row>, wa: nat)
    requires forall i :: 0 <= i < |rows| ==> OneLineRow(rows[i])
    ensures NewLines(Lines(layout, rows, wa)) == |rows|
    decreases |rows|
  {
    if rows != [] {
      OneLinePerRow(layout, rows[..|rows| - 1], wa);
      OneLineEach(layout, rows[|rows| - 1], wa);
      NewLinesAppend(Lines(layout, rows[..|rows| - 1], wa), Line(layout, rows[|rows| - 1], wa));
    }
  }

  lemma {:induction false} JoinArgsOneLine(names: seq<string>)
    requires |names| > 0 && forall i :: 0 <= i < |names| ==> '\n' !in names[i]
    ensures '\n' !in JoinArgs(names)
    decreases |names|
  {
    if |names| > 1 {
      JoinArgsOneLine(names[..|names| - 1]);
    }
  }

  lemma RowOfOneLine(reg: Registry, f: FieldRef)
    requires Registries.Valid(reg) && '\n' !in GetDescription(reg, f)
    ensures OneLineRow(RowOf(reg, f))
  {
    var sn := GetShortName(reg, f);
    var ln := GetLongName(reg, f);
    assert sn.Some? ==> ValidName(sn.value) by {
      if sn.Some? { assert sn.value in reg.shortOpts; }
    }
    assert ln.Some? ==> ValidName(ln.value) by {
      if ln.Some? { assert ln.value in reg.longOpts; }
    }
    ArgsCellOneLine(ArgNames(reg, f));
    NameCellOneLine("-", sn);
    NameCellOneLine("--", ln);
    DescrCellOneLine(reg, f);
  }

  /** The description cell, tag included, holds no line end. */
  lemma DescrCellOneLine(reg: Registry, f: FieldRef)
    requires '\n' !in GetDescription(reg, f)
    ensures '\n' !in DescrCell(reg, f)
  {
    assert '\n' !in " [required]" && '\n' !in "[required]";
  }

  /** The placeholder cell holds no line end. */
  lemma ArgsCellOneLine(names: seq<string>)
    requires forall i :: 0 <= i < |names| ==> names[i] == "arg" + IntToString(i)
    ensures ArgsCell(names).Some? ==> '\n' !in ArgsCell(names).value
  {
    forall i | 0 <= i < |names| ensures '\n' !in names[i] {
      var d := IntToString(i);
      assert names[i] == "arg" + d;
      assert forall k :: 0 <= k < |d| ==> d[k] != '\n';
    }
    if names != [] {
      JoinArgsOneLine(names);
    }
  }

  /** A name cell, "-" or "--" before a valid name, holds no line end. */
  lemma NameCellOneLine(p: string, o: Option<string>)
    requires '\n' !in p
    requires o.Some? ==> ValidName(o.value)
    ensures Prefixed(p, o).Some? ==> '\n' !in Prefixed(p, o).value
  {
    if o.Some? {
      var n := o.value;
      assert forall k :: 0 <= k < |n| ==> n[k] != '\n' by {
        assert forall k :: 0 <= k < |n| ==> AllowedInName(n[k]);
      }
    }
  }

  /** A named field's row has a name, so the summary of a catalogue with a
      named field uses one of the three printers. */
  lemma NamedRowWidens(rows: seq<Row>, i: int)
    requires 0 <= i < |rows|
    requires (rows[i].shortOpt.Some? && |rows[i].shortOpt.value| > 0)
          || (rows[i].longOpt.Some? && |rows[i].longOpt.value| > 0)
    ensures LayoutOf(rows).Some?
  {
    assert ShortCol(rows)[i] == rows[i].shortOpt;
    assert LongCol(rows)[i] == rows[i].longOpt;
  }

  lemma RowsOneLine(reg: Registry, fields: seq<FieldRef>)
    requires Registries.Valid(reg)
    requires forall i :: 0 <= i < |fields| ==> '\n' !in GetDescription(reg, fields[i])
    ensures forall i :: 0 <= i < |fields| ==> OneLineRow(Rows(reg, fields)[i])
  {
    forall i | 0 <= i < |fields| ensures OneLineRow(Rows(reg, fields)[i]) {
      RowOfOneLine(reg, fields[i]);
    }
  }

  /** A matrix with a name in its first row prints one line per row. */
  lemma MatrixLines(rows: seq<Row>)
    requires forall i :: 0 <= i < |rows| ==> OneLineRow(rows[i])
    requires rows != [] ==> LayoutOf(rows).Some?
    ensures NewLines(MatrixText(rows)) == |rows|
  {
    if rows != [] {
      OneLinePerRow(LayoutOf(rows).value, rows, MaxLen(ArgsCol(rows)));
    }
  }

  /** Rows of named fields all sit on one line and, when there is one, the
      matrix has a layout. */
  lemma NamedRows(reg: Registry, fields: seq<FieldRef>)
    requires Registries.Valid(reg)
    requires forall f :: f in fields ==> IsNamed(reg, f) && '\n' !in GetDescription(reg, f)
    ensures var rows := Rows(reg, fields);
      (forall i :: 0 <= i < |rows| ==> OneLineRow(rows[i])) && (rows != [] ==> LayoutOf(rows).Some?)
  {
    var rows := Rows(reg, fields);
    forall i | 0 <= i < |fields| ensures OneLineRow(rows[i]) {
      assert fields[i] in fields;
      RowOfOneLine(reg, fields[i]);
    }
    if fields != [] {
      assert IsNamed(reg, fields[0]) by { assert fields[0] in fields; }
      NamedRowWidens(rows, 0);
    }
  }

  /** `print` writes one line per named field (when no description holds a
      line end), and nothing when no field is named. */
  lemma LinePerNamedField(reg: Registry)
    requires Registries.Valid(reg)
    requires forall f :: f in NamedFields(reg) ==> '\n' !in GetDescription(reg, f)
    ensures NewLines(UsageText(reg)) == |NamedFields(reg)|
    ensures UsageText(reg) == "" <==> NamedFields(reg) == {}
  {
    var fields := SortFields(reg, NamedFields(reg));
    var rows := Rows(reg, fields);
    NamedRows(reg, fields);
    MatrixLines(rows);
    if rows == [] {
      assert MatrixText(rows) == "";
    }
  }

  /** In the two-name layout every line has its short name right-aligned in
      the first column, a ',' exactly when it has both names, then its long
      name left-aligned: the columns line up across the summary. */
  lemma BothNamesColumns(row: Row, ws: nat, wl: nat, wa: nat)
    requires row.shortOpt.Some? ==> |row.shortOpt.value| <= ws
    requires row.longOpt.Some? ==> |row.longOpt.value| <= wl
    ensures var line := Line(BothNames(ws, wl), row, wa);
      |line| > 2 + ws + wl
      && line[0] == ' '
      && (line[1 + ws] == ',' <==> row.shortOpt.Some? && row.longOpt.Some?)
      && (row.shortOpt.None? ==> line[1..1 + ws] == Spaces(ws))
      && (row.shortOpt.Some? ==> line[1..1 + ws] == Spaces(ws - |row.shortOpt.value|) + row.shortOpt.value)
      && (row.longOpt.None? ==> line[2 + ws..2 + ws + wl] == Spaces(wl))
      && (row.longOpt.Some? ==> line[2 + ws..2 + ws + wl] == row.longOpt.value + Spaces(wl - |row.longOpt.value|))
  {
    var sc := ShortCell(row, ws);
    var comma := if row.shortOpt.Some? && row.longOpt.Some? then "," else " ";
    var lc := LongCell(row, wl);
    var tail := ArgsText(row, wa) + DescrText(row);
    assert Columns(BothNames(ws, wl), row) == sc + comma + lc;
    assert Line(BothNames(ws, wl), row, wa) == " " + sc + comma + lc + tail;
    assert comma[0] == ',' <==> row.shortOpt.Some? && row.longOpt.Some?;
    LineSlices(" ", sc, comma, lc, tail);
  }

  /** The short-name cell of the two-name layout. */
  function ShortCell(row: Row, ws: nat): (c: string)
    requires row.shortOpt.Some? ==> |row.shortOpt.value| <= ws
    ensures |c| == ws
    ensures row.shortOpt.None? ==> c == Spaces(ws)
    ensures row.shortOpt.Some? ==> c == Spaces(ws - |row.shortOpt.value|) + row.shortOpt.value
  {
    if row.shortOpt.None? then Spaces(ws)
    else
      assert Spaces(0) + row.shortOpt.value == row.shortOpt.value;
      PadLeft(row.shortOpt.value, ws)
  }

  /** The long-name cell of the two-name layout. */
  function LongCell(row: Row, wl: nat): (c: string)
    requires row.longOpt.Some? ==> |row.longOpt.value| <= wl
    ensures |c| == wl
    ensures row.longOpt.None? ==> c == Spaces(wl)
    ensures row.longOpt.Some? ==> c == row.longOpt.value + Spaces(wl - |row.longOpt.value|)
  {
    if row.longOpt.None? then Spaces(wl)
    else
      assert row.longOpt.value + Spaces(0) == row.longOpt.value;
      PadRight(row.longOpt.value, wl)
  }

  lemma LineSlices(h: string, sc: string, comma: string, lc: string, tail: string)
    requires |h| == 1 && |comma| == 1 && |tail| > 0
    ensures var line := h + sc + comma + lc + tail;
      |line| > 2 + |sc| + |lc| && line[0] == h[0] && line[1 + |sc|] == comma[0]
      && line[1..1 + |sc|] == sc && line[2 + |sc|..2 + |sc| + |lc|] == lc
  {
  }

  /** The widths `printMatrix` computes fit every cell of their column. */
  lemma WidthsFit(rows: seq<Row>, i: int)
    requires 0 <= i < |rows|
    ensures rows[i].shortOpt.Some? ==> |rows[i].shortOpt.value| <= MaxLen(ShortCol(rows))
    ensures rows[i].longOpt.Some? ==> |rows[i].longOpt.value| <= MaxLen(LongCol(rows))
    ensures rows[i].args.Some? ==> |rows[i].args.value| <= MaxLen(ArgsCol(rows))
  {
    assert ShortCol(rows)[i] == rows[i].shortOpt;
    assert LongCol(rows)[i] == rows[i].longOpt;
    assert ArgsCol(rows)[i] == rows[i].args;
  }

  /** The argument column is printed exactly when some listed field takes
      arguments. */
  lemma ArgsColumnIff(reg: Registry, fields: seq<FieldRef>)
    requires Registries.Valid(reg)
    ensures MaxLen(ArgsCol(Rows(reg, fields))) > 0
        <==> exists i :: 0 <= i < |fields| && ArgMultiplicity(reg, fields[i]) > 0
  {
    var rows := Rows(reg, fields);
    if i :| 0 <= i < |fields| && ArgMultiplicity(reg, fields[i]) > 0 {
      var names := ArgNames(reg, fields[i]);
      assert |JoinArgs(names)| >= 2 by {
        JoinArgsLength(names);
      }
      WidthsFit(rows, i);
    }
    if MaxLen(ArgsCol(rows)) > 0 {
      var i :| 0 <= i < |rows| && ArgsCol(rows)[i].Some?;
      assert ArgMultiplicity(reg, fields[i]) > 0;
    }
  }

  lemma {:induction false} JoinArgsLength(names: seq<string>)
    requires |names| > 0
    ensures |JoinArgs(names)| >= 2
    decreases |names|
  {
    if |names| > 1 {
      JoinArgsLength(names[..|names| - 1]);
    }
  }

  /** Without an argument column, `printArgs` prints nothing; with one, a row
      without arguments gets blanks the width of the column and a space. */
  lemma ArgsTextShape(row: Row, wa: nat)
    requires row.args.Some? ==> |row.args.value| <= wa
    ensures wa == 0 ==> ArgsText(row, wa) == ""
    ensures wa > 0 ==> |ArgsText(row, wa)| == 1 + wa
    ensures wa > 0 && row.args.None? ==> ArgsText(row, wa) == Spaces(1 + wa)
    ensures wa > 0 && row.args.Some? ==> ArgsText(row, wa)[1..1 + |row.args.value|] == row.args.value
  {
    if wa > 0 && row.args.Some? {
      var t := ArgsText(row, wa);
      if |row.args.value| < wa {
        assert t == " " + row.args.value + Spaces(wa - |row.args.value|);
      }
    }
  }

  /** The description column: the text, tagged " [required]" for a required
      field ("[required]" alone when there is no text); false and unset
      flags add nothing. */
  lemma RequiredTag(reg: Registry, f: FieldRef)
    ensures IsRequired(reg, f) && GetDescription(reg, f) != ""
        ==> DescrCell(reg, f) == GetDescription(reg, f) + " [required]"
    ensures IsRequired(reg, f) && GetDescription(reg, f) == "" ==> DescrCell(reg, f) == "[required]"
    ensures !IsRequired(reg, f) ==> DescrCell(reg, f) == GetDescription(reg, f)
  {
  }

  lemma NameOfIs(m: map<string, FieldRef>, f: FieldRef, s: string)
    requires Injective(m) && s in m && m[s] == f
    ensures NameOf(m, f) == Some(s)
  {
  }

  /** The comparator of the case test: "A" before "a" (same name ignoring
      case, 'A' < 'a') and both before "B". */
  lemma CaseOrder(fb: FieldRef, fa: FieldRef, fA: FieldRef)
    requires fb != fa && fa != fA && fb != fA
    ensures var reg := Empty().(shortOpts := map["B" := fb, "a" := fa, "A" := fA]);
      Registries.Valid(reg) && Before(reg, fA, fa) && Before(reg, fa, fb) && Before(reg, fA, fb)
  {
    var reg := Empty().(shortOpts := map["B" := fb, "a" := fa, "A" := fA]);
    assert ValidName("B") && ValidName("a") && ValidName("A");
    assert Registries.Valid(reg);
    NameOfIs(reg.shortOpts, fA, "A");
    NameOfIs(reg.shortOpts, fa, "a");
    NameOfIs(reg.shortOpts, fb, "B");
    assert LowerCase("A") == "a" && LowerCase("a") == "a" && LowerCase("B") == "b";
    assert LexLess("A", "a") && LexLess("a", "b");
  }

  function OneFieldCatalogue(f: FieldRef): Registry {
    Empty().(shortOpts := map["f" := f], longOpts := map["field" := f], multiplicities := map[f := 1])
  }

  lemma OneFieldNames(f: FieldRef)
    ensures Registries.Valid(OneFieldCatalogue(f))
    ensures NamedFields(OneFieldCatalogue(f)) == {f}
    ensures GetShortName(OneFieldCatalogue(f), f) == Some("f")
    ensures GetLongName(OneFieldCatalogue(f), f) == Some("field")
  {
    var reg := OneFieldCatalogue(f);
    assert ValidName("f") && ValidName("field");
    assert Registries.Valid(reg);
    assert reg.shortOpts["f"] == f && reg.longOpts["field"] == f;
    NameOfIs(reg.shortOpts, f, "f");
    NameOfIs(reg.longOpts, f, "field");
  }

  lemma OneFieldArgs(f: FieldRef)
    ensures ArgsCell(ArgNames(OneFieldCatalogue(f), f)) == Some("<arg0>")
  {
    var reg := OneFieldCatalogue(f);
    assert DigitChar(0) == '0';
    assert IntToString(0) == "0";
    assert ArgMultiplicity(reg, f) == 1;
    var names := ArgNames(reg, f);
    assert |names| == 1 && names[0] == "arg" + IntToString(0);
    assert "arg" + IntToString(0) == "arg0";
    assert names == [names[0]];
    assert names[0] == "arg0";
    assert JoinArgs(names) == "<" + names[0] + ">";
    assert "<" + "arg0" + ">" == "<arg0>";
  }

  lemma OneFieldRows(f: FieldRef)
    ensures Registries.Valid(OneFieldCatalogue(f))
    ensures Rows(OneFieldCatalogue(f), SortFields(OneFieldCatalogue(f), NamedFields(OneFieldCatalogue(f))))
         == [Row(Some("-f"), Some("--field"), Some("<arg0>"), "")]
  {
    var reg := OneFieldCatalogue(f);
    OneFieldSorted(f);
    OneFieldRow(f);
    assert Rows(reg, [f]) == [RowOf(reg, f)];
  }

  /** The catalogue names the one field only. */
  lemma OneFieldSorted(f: FieldRef)
    ensures Registries.Valid(OneFieldCatalogue(f))
    ensures SortFields(OneFieldCatalogue(f), NamedFields(OneFieldCatalogue(f))) == [f]
  {
    var reg := OneFieldCatalogue(f);
    OneFieldNames(f);
    var fields := SortFields(reg, {f});
    assert f in fields;
  }

  lemma OneFieldRow(f: FieldRef)
    ensures Registries.Valid(OneFieldCatalogue(f))
    ensures RowOf(OneFieldCatalogue(f), f) == Row(Some("-f"), Some("--field"), Some("<arg0>"), "")
  {
    var reg := OneFieldCatalogue(f);
    OneFieldNames(f);
    OneFieldArgs(f);
    assert DescrCell(reg, f) == "";
    assert "-" + "f" == "-f" && "--" + "field" == "--field";
    assert Prefixed("-", GetShortName(reg, f)) == Some("-f");
    assert Prefixed("--", GetLongName(reg, f)) == Some("--field");
  }

  lemma OneRowWidths(row: Row)
    requires row == Row(Some("-f"), Some("--field"), Some("<arg0>"), "")
    ensures MaxLen(ShortCol([row])) == 2 && MaxLen(LongCol([row])) == 7 && MaxLen(ArgsCol([row])) == 6
  {
    assert ShortCol([row]) == [Some("-f")];
    assert LongCol([row]) == [Some("--field")];
    assert ArgsCol([row]) == [Some("<arg0>")];
    assert [row][..0] == [];
  }

  lemma OneRowLine(row: Row)
    requires row == Row(Some("-f"), Some("--field"), Some("<arg0>"), "")
    ensures Line(BothNames(2, 7), row, 6) == " -f,--field <arg0>\n"
  {
    OneRowCells(row);
    assert " " + "-f,--field" + " <arg0>" + "\n" == " -f,--field <arg0>\n";
  }

  lemma OneRowCells(row: Row)
    requires row == Row(Some("-f"), Some("--field"), Some("<arg0>"), "")
    ensures Columns(BothNames(2, 7), row) == "-f,--field"
    ensures ArgsText(row, 6) == " <arg0>" && DescrText(row) == "\n"
  {
    assert PadLeft("-f", 2) == "-f";
    assert PadRight("--field", 7) == "--field";
    assert "-f" + "," + "--field" == "-f,--field";
    assert PadRight("<arg0>", 6) == "<arg0>";
  }

  lemma OneRowText()
    ensures MatrixText([Row(Some("-f"), Some("--field"), Some("<arg0>"), "")]) == " -f,--field <arg0>\n"
  {
    var row := Row(Some("-f"), Some("--field"), Some("<arg0>"), "");
    OneRowWidths(row);
    OneRowLine(row);
    assert [row][..0] == [];
    assert Lines(BothNames(2, 7), [row], 6) == Lines(BothNames(2, 7), [], 6) + Line(BothNames(2, 7), row, 6);
  }

  /** The summary of one field "f"/"field" taking one argument. */
  lemma OneFieldSummary(f: FieldRef)
    ensures Registries.Valid(OneFieldCatalogue(f))
    ensures UsageText(OneFieldCatalogue(f)) == " -f,--field <arg0>\n"
  {
    OneFieldRows(f);
    OneRowText();
  }

  // ---------------------------------------------------------------------
  // The printer object

  class OptionUsagePrinter {
    const options: OptionMap

    constructor(options: OptionMap)
      ensures this.options == options
    {
      this.options := options;
    }

    /** `buildWordMatrix`: one row of four cells per field. */
    method BuildWordMatrix(fields: seq<FieldRef>) returns (matrix: array<Row>)
      requires options.Valid()
      ensures fresh(matrix) && matrix[..] == Rows(options.Model(), fields)
    {
      var reg := options.Model();
      matrix := new Row[|fields|];
      for i := 0 to |fields|
        invariant forall j :: 0 <= j < i ==> matrix[j] == RowOf(reg, fields[j])
      {
        var f := fields[i];
        var shortOpt: Option<string> := None;
        var s := GetShortName(reg, f);
        if s.Some? {
          shortOpt := Some("-" + s.value);
        }
        var longOpt: Option<string> := None;
        var l := GetLongName(reg, f);
        if l.Some? {
          longOpt := Some("--" + l.value);
        }
        var args := ArgsCell(ArgNames(reg, f));
        var descr := GetDescription(reg, f);
        if IsRequired(reg, f) {
          descr := if descr == "" then "[required]" else descr + " [required]";
        }
        assert shortOpt == Prefixed("-", s) && longOpt == Prefixed("--", l) && descr == DescrCell(reg, f);
        matrix[i] := Row(shortOpt, longOpt, args, descr);
      }
      assert forall j :: 0 <= j < |fields| ==> matrix[..][j] == Rows(reg, fields)[j];
    }

    method PrintMatrixShortOptsOnly(matrix: array<Row>, ws: nat, wa: nat) returns (out: string)
      ensures out == Lines(ShortOnly(ws), matrix[..], wa)
    {
      out := "";
      for i := 0 to matrix.Length
        invariant out == Lines(ShortOnly(ws), matrix[..i], wa)
      {
        assert matrix[..i + 1][..i] == matrix[..i];
        var line := " " + PadLeft(Show(matrix[i].shortOpt), ws) + ArgsText(matrix[i], wa) + DescrText(matrix[i]);
        out := out + line;
      }
      assert matrix[..matrix.Length] == matrix[..];
    }

    method PrintMatrixLongOptsOnly(matrix: array<Row>, wl: nat, wa: nat) returns (out: string)
      ensures out == Lines(LongOnly(wl), matrix[..], wa)
    {
      out := "";
      for i := 0 to matrix.Length
        invariant out == Lines(LongOnly(wl), matrix[..i], wa)
      {
        assert matrix[..i + 1][..i] == matrix[..i];
        var line := " " + PadRight(Show(matrix[i].longOpt), wl) + ArgsText(matrix[i], wa) + DescrText(matrix[i]);
        out := out + line;
      }
      assert matrix[..matrix.Length] == matrix[..];
    }

    method PrintMatrixBothShortAndLongOpts(matrix: array<Row>, ws: nat, wl: nat, wa: nat) returns (out: string)
      ensures out == Lines(BothNames(ws, wl), matrix[..], wa)
    {
      var emptyShortOpt := Spaces(ws);
      var emptyLongOpt := Spaces(wl);
      out := "";
      for i := 0 to matrix.Length
        invariant out == Lines(BothNames(ws, wl), matrix[..i], wa)
      {
        assert matrix[..i + 1][..i] == matrix[..i];
        var shortOpt := matrix[i].shortOpt;
        var longOpt := matrix[i].longOpt;
        var names := (if shortOpt.None? then emptyShortOpt else PadLeft(shortOpt.value, ws))
          + (if shortOpt.Some? && longOpt.Some? then "," else " ")
          + (if longOpt.None? then emptyLongOpt else PadRight(longOpt.value, wl));
        var line := " " + names + ArgsText(matrix[i], wa) + DescrText(matrix[i]);
        out := out + line;
      }
      assert matrix[..matrix.Length] == matrix[..];
    }

    /** `printMatrix`: the widest cell of each column picks the layout. */
    method PrintMatrix(matrix: array<Row>) returns (out: string)
      ensures out == MatrixText(matrix[..])
    {
      var rows := matrix[..];
      var maxShortOptSize := MaxLen(ShortCol(rows));
      var maxLongOptSize := MaxLen(LongCol(rows));
      var maxArgOptSize := MaxLen(ArgsCol(rows));
      if maxShortOptSize != 0 {
        if maxLongOptSize != 0 {
          out := PrintMatrixBothShortAndLongOpts(matrix, maxShortOptSize, maxLongOptSize, maxArgOptSize);
        } else {
          out := PrintMatrixShortOptsOnly(matrix, maxShortOptSize, maxArgOptSize);
        }
      } else if maxLongOptSize != 0 {
        out := PrintMatrixLongOptsOnly(matrix, maxLongOptSize, maxArgOptSize);
      } else {
        out := "";
      }
    }

    /** `print`. */
    method Print() returns (out: string)
      requires options.Valid()
      ensures out == UsageText(options.Model())
    {
      var fields := SortFields(options.Model(), NamedFields(options.Model()));
      var matrix := BuildWordMatrix(fields);
      out := PrintMatrix(matrix);
    }
  }
}
