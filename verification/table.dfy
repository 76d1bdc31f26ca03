/** The fixed-width text table of the reporting tool: columns with a width and an
    optional tally mode, rows rendered as `%-W.Ws` cells joined by single spaces (an
    over-long value is cut from the left behind a `*`), a tally line summing the
    numeric cells of the tallied columns, and a rule/names/rule header. The
    scheduler-aware variant fills its cells from job attributes through a display
    munge. Float text (`%.1f`, `str(float)`) and date text come in as functions. */
module Tables {
  import opened Wrappers
  import opened Text
  import opened Config
  import opened Values
  import opened Tools

  // ---------------------------------------------------------------------------
  // columns and the table

  /** `Column(name, width, tally)`, or a `CondorColumn` that also names the job
      attribute its cells come from. */
  datatype Column =
    | Column(name: string, width: nat, tally: Option<string>)
    | CondorColumn(name: string, varname: string, width: nat, tally: Option<string>)

  /** The table's state: its columns, the stored rows, one list of collected numbers
      per column, the width, and the row format once a column exists. */
  datatype Table = Table(columns: seq<Column>, rows: seq<string>, tallies: seq<seq<real>>,
                         width: int, fmt: Option<string>)

  /** What `add_column` is handed: a column, or any other object. */
  datatype Addable = IsColumn(column: Column) | NotColumn

  datatype Error = TypeError

  /** `Table.max_width`. */
  const MaxWidth: int := 131

  /** A fresh table: no columns, rows or tallies, width 0 and no format yet. */
  const Empty: Table := Table([], [], [], 0, None)

  /** `Column.fmt`: `'%-W.Ws'` for a column of width `W`. */
  function ColumnFormat(c: Column): (r: string)
    ensures ' ' !in r && '\n' !in r
  {
    "%-" + NatToString(c.width) + "." + NatToString(c.width) + "s"
  }

  function ColumnFormats(cols: seq<Column>): (r: seq<string>)
    ensures |r| == |cols| && forall i :: 0 <= i < |cols| ==> r[i] == ColumnFormat(cols[i])
  {
    seq(|cols|, i requires 0 <= i < |cols| => ColumnFormat(cols[i]))
  }

  /** The sum of the column widths. */
  function Widths(cols: seq<Column>): nat
    decreases |cols|
  {
    if |cols| == 0 then 0 else Widths(cols[..|cols| - 1]) + cols[|cols| - 1].width
  }

  /** The consistency `add_column` keeps: one tally list per column, and the width
      and format of the columns added so far (none before the first). */
  predicate Wf(t: Table) {
    && |t.tallies| == |t.columns|
    && (|t.columns| == 0 ==> t.width == 0 && t.fmt.None?)
    && (|t.columns| > 0 ==>
          t.width == Widths(t.columns) + |t.columns| - 1
          && t.fmt == Some(Join(ColumnFormats(t.columns), ' ')))
  }

  lemma EmptyWf()
    ensures Wf(Empty) && |Empty.columns| == 0 && |Empty.rows| == 0
  {
  }

  /** `add_column(column)`: a `TypeError` for anything but a column; otherwise the
      column and an empty tally list are appended, the format becomes the column
      formats joined by single spaces, and the width the sum of the column widths
      plus one separator between each two columns. */
  function AddColumn(t: Table, a: Addable): (r: Result<Table, Error>)
    requires Wf(t)
    ensures r.Failure? <==> a.NotColumn?
    ensures r.Success? ==>
      && Wf(r.value)
      && r.value.columns == t.columns + [a.column]
      && r.value.tallies == t.tallies + [[]]
      && r.value.rows == t.rows
      && r.value.width == Widths(t.columns) + a.column.width + |t.columns|
  {
    match a
    case NotColumn => Failure(TypeError)
    case IsColumn(c) =>
      var cols := t.columns + [c];
      assert cols[..|cols| - 1] == t.columns;
      Success(Table(cols, t.rows, t.tallies + [[]], Widths(cols) + |cols| - 1,
        Some(Join(ColumnFormats(cols), ' '))))
  }

  /** The row format splits back into the column formats, one per column, in order. */
  lemma FormatSplits(t: Table)
    requires Wf(t) && |t.columns| > 0
    ensures Split(t.fmt.value, ' ') == ColumnFormats(t.columns)
  {
    SplitJoin(ColumnFormats(t.columns), ' ');
  }

  // ---------------------------------------------------------------------------
  // rendering a row of cells

  /** Where column `i` starts in a rendered row: the widths before it plus one
      separator for each. */
  function Offset(cols: seq<Column>, i: int): nat
    requires 0 <= i <= |cols|
  {
    Widths(cols[..i]) + i
  }

  /** `fmt % tuple(texts)`: every text cut and padded to its column's width, joined
      by single spaces. */
  function Render(cols: seq<Column>, texts: seq<string>): (r: string)
    requires |cols| >= 1 && |texts| == |cols|
  {
    Join(seq(|cols|, i requires 0 <= i < |cols| => FormatCell(texts[i], cols[i].width)), ' ')
  }

  /** A join of cells of the column widths has the width of the columns. */
  lemma {:induction false} JoinWidth(cols: seq<Column>, xs: seq<string>)
    requires |cols| >= 1 && |xs| == |cols|
    requires forall j :: 0 <= j < |xs| ==> |xs[j]| == cols[j].width
    ensures |Join(xs, ' ')| == Widths(cols) + |cols| - 1
    decreases |cols|
  {
    var n := |cols|;
    if n == 1 {
      assert cols[..0] == [];
    } else {
      var ci := cols[..n - 1];
      var xi := xs[..n - 1];
      JoinWidth(ci, xi);
      assert |Join(xs, ' ')| == |Join(xi, ' ')| + 1 + |xs[n - 1]|;
    }
  }

  /** A join of cells of the column widths has the width of the columns, and each
      cell sits at its column's offset. */
  lemma {:induction false} JoinCells(cols: seq<Column>, xs: seq<string>)
    requires |cols| >= 1 && |xs| == |cols|
    requires forall j :: 0 <= j < |xs| ==> |xs[j]| == cols[j].width
    ensures |Join(xs, ' ')| == Widths(cols) + |cols| - 1
    ensures forall i :: 0 <= i < |cols| ==> CellAt(Join(xs, ' '), Offset(cols, i), xs[i])
    decreases |cols|
  {
    var n := |cols|;
    JoinWidth(cols, xs);
    if n == 1 {
      assert cols[..0] == [];
      assert CellAt(Join(xs, ' '), 0, xs[0]);
    } else {
      var ci := cols[..n - 1];
      var xi := xs[..n - 1];
      JoinCells(ci, xi);
      var s := Join(xs, ' ');
      var p := Join(xi, ' ');
      assert s == p + ([' '] + xs[n - 1]);
      forall i | 0 <= i < n
        ensures CellAt(s, Offset(cols, i), xs[i])
      {
        if i < n - 1 {
          assert cols[..i] == ci[..i];
          assert xi[i] == xs[i];
          assert Offset(cols, i) == Offset(ci, i);
          CellKept(s, p, xs[n - 1], Offset(ci, i), xs[i]);
        } else {
          assert cols[..i] == ci;
          LastCell(s, p, xs[n - 1]);
        }
      }
    }
  }

  /** `x` sits in `s` at offset `o`. */
  predicate CellAt(s: string, o: int, x: string) {
    0 <= o && o + |x| <= |s| && s[o..o + |x|] == x
  }

  /** A cell of the joined prefix is a cell of the whole join. */
  lemma CellKept(s: string, p: string, x: string, o: int, y: string)
    requires s == p + ([' '] + x) && CellAt(p, o, y)
    ensures CellAt(s, o, y)
  {
    assert s[o..o + |y|] == p[o..o + |y|];
  }

  /** The last piece of a join follows the separator. */
  lemma LastCell(s: string, p: string, x: string)
    requires s == p + ([' '] + x)
    ensures CellAt(s, |p| + 1, x)
  {
    assert s[|p| + 1..|p| + 1 + |x|] == x;
  }

  /** A rendered row is exactly as wide as the columns, and column `i` of it is the
      `i`-th text cut and padded to the column's width. */
  lemma RenderShape(cols: seq<Column>, texts: seq<string>)
    requires |cols| >= 1 && |texts| == |cols|
    ensures |Render(cols, texts)| == Widths(cols) + |cols| - 1
    ensures forall i :: 0 <= i < |cols| ==>
      CellAt(Render(cols, texts), Offset(cols, i), FormatCell(texts[i], cols[i].width))
  {
    var xs := seq(|cols|, i requires 0 <= i < |cols| => FormatCell(texts[i], cols[i].width));
    JoinCells(cols, xs);
    assert Render(cols, texts) == Join(xs, ' ');
  }

  lemma RenderWidth(cols: seq<Column>, texts: seq<string>)
    requires |cols| >= 1 && |texts| == |cols|
    ensures |Render(cols, texts)| == Widths(cols) + |cols| - 1
  {
    RenderShape(cols, texts);
  }

  /** Text without a line break keeps none when joined with spaces. */
  lemma {:induction false} JoinNoBreak(xs: seq<string>)
    requires |xs| >= 1 && forall j :: 0 <= j < |xs| ==> '\n' !in xs[j]
    ensures '\n' !in Join(xs, ' ')
    decreases |xs|
  {
    if |xs| > 1 {
      JoinNoBreak(xs[..|xs| - 1]);
    }
  }

  lemma RenderNoBreak(cols: seq<Column>, texts: seq<string>)
    requires |cols| >= 1 && |texts| == |cols|
    requires forall j :: 0 <= j < |texts| ==> '\n' !in texts[j]
    ensures '\n' !in Render(cols, texts)
  {
    var xs := seq(|cols|, i requires 0 <= i < |cols| => FormatCell(texts[i], cols[i].width));
    forall j | 0 <= j < |xs|
      ensures '\n' !in xs[j]
    {
      var t := if |texts[j]| <= cols[j].width then texts[j] else texts[j][..cols[j].width];
      assert xs[j] == t + Repeat(' ', cols[j].width - |t|);
    }
    JoinNoBreak(xs);
  }

  // ---------------------------------------------------------------------------
  // rows

  /** A value longer than its column: a `*` and then as many of its last characters
      as still fit. */
  function Truncate(v: string, w: nat): (r: string)
    ensures |v| <= w ==> r == v
    ensures w >= 1 ==> |r| <= w
    ensures |v| > w ==> 1 <= |r| <= |v| && r[0] == '*' && r[1..] == v[|v| - |r| + 1..]
    ensures |v| > w && w >= 1 ==> |r| == w
  {
    if |v| <= w then v
    else if w == 0 then "*"
    else "*" + v[|v| - w + 1..]
  }

  /** `str(v).strip()` left-truncated to width `w`. */
  function CellText(v: Value, w: nat): string {
    Truncate(Strip(Show(v)), w)
  }

  /** A truncated value already has the column's width, so the format does not cut
      it again: the cell shows the `*` and the value's tail. */
  lemma CellShape(v: Value, w: nat)
    requires w >= 1
    ensures var s := Strip(Show(v));
      && (|s| <= w ==> FormatCell(CellText(v, w), w) == s + Repeat(' ', w - |s|))
      && (|s| > w ==> FormatCell(CellText(v, w), w) == "*" + s[|s| - w + 1..])
  {
  }

  function RowTexts(cols: seq<Column>, values: seq<Value>): (r: seq<string>)
    requires |values| == |cols|
    ensures |r| == |cols| && forall i :: 0 <= i < |cols| ==> r[i] == CellText(values[i], cols[i].width)
  {
    seq(|values|, i requires 0 <= i < |values| => CellText(values[i], cols[i].width))
  }

  /** `values_to_row(values)`. */
  function ValuesToRow(t: Table, values: seq<Value>): (r: string)
    requires |t.columns| >= 1 && |values| == |t.columns|
    ensures |r| == Widths(t.columns) + |t.columns| - 1
  {
    RenderWidth(t.columns, RowTexts(t.columns, values));
    Render(t.columns, RowTexts(t.columns, values))
  }

  /** Column `i` of a row shows value `i`, stripped, and left-truncated behind a `*`
      when it is longer than the column. */
  lemma RowCells(t: Table, values: seq<Value>, i: int)
    requires |t.columns| >= 1 && |values| == |t.columns| && 0 <= i < |values|
    ensures Offset(t.columns, i) + t.columns[i].width <= |ValuesToRow(t, values)|
    ensures ValuesToRow(t, values)[Offset(t.columns, i)..Offset(t.columns, i) + t.columns[i].width]
      == FormatCell(CellText(values[i], t.columns[i].width), t.columns[i].width)
  {
    RenderAt(t.columns, RowTexts(t.columns, values), i);
  }

  lemma RenderAt(cols: seq<Column>, texts: seq<string>, i: int)
    requires |cols| >= 1 && |texts| == |cols| && 0 <= i < |cols|
    ensures Offset(cols, i) + cols[i].width <= |Render(cols, texts)|
    ensures Render(cols, texts)[Offset(cols, i)..Offset(cols, i) + cols[i].width] == FormatCell(texts[i], cols[i].width)
  {
    RenderShape(cols, texts);
    assert CellAt(Render(cols, texts), Offset(cols, i), FormatCell(texts[i], cols[i].width));
  }

  /** The number column `i` collects from `values`, if any: the column has a tally
      mode, there is a value for it, and `float()` accepts the value. */
  function Collected(t: Table, values: seq<Value>, i: int): (r: seq<real>)
    requires 0 <= i < |t.columns|
    ensures |r| <= 1
  {
    if i < |values| && t.columns[i].tally.Some? && FloatOf(values[i]).Some? then [FloatOf(values[i]).value]
    else []
  }

  /** `tally(values)`, one value at a time. */
  function Tally(t: Table, values: seq<Value>): (r: Table)
    requires Wf(t) && |values| <= |t.columns|
    ensures Wf(r)
    ensures r.columns == t.columns && r.rows == t.rows && r.width == t.width && r.fmt == t.fmt
    ensures forall i :: 0 <= i < |t.columns| ==> r.tallies[i] == t.tallies[i] + Collected(t, values, i)
    decreases |values|
  {
    if |values| == 0 then t
    else
      var k := |values| - 1;
      var u := Tally(t, values[..k]);
      CollectedPrefix(t, values);
      u.(tallies := u.tallies[k := u.tallies[k] + Collected(t, values, k)])
  }

  /** Dropping the last value changes only what its own column collects. */
  lemma CollectedPrefix(t: Table, values: seq<Value>)
    requires 1 <= |values| <= |t.columns|
    ensures forall i :: 0 <= i < |t.columns| && i != |values| - 1 ==>
      Collected(t, values[..|values| - 1], i) == Collected(t, values, i)
    ensures Collected(t, values[..|values| - 1], |values| - 1) == []
  {
    var k := |values| - 1;
    forall i | 0 <= i < |t.columns| && i != k
      ensures Collected(t, values[..k], i) == Collected(t, values, i)
    {
      if i < k {
        assert values[..k][i] == values[i];
      }
    }
  }

  /** `add_row(values)`: the rendered row, right-stripped, is stored and the values
      are tallied. */
  function AddRow(t: Table, values: seq<Value>): (r: Table)
    requires Wf(t) && |t.columns| >= 1 && |values| == |t.columns|
    ensures Wf(r) && r.columns == t.columns
    ensures r.rows == t.rows + [RStrip(ValuesToRow(t, values))]
    ensures r.tallies == Tally(t, values).tallies
  {
    Tally(t, values).(rows := t.rows + [RStrip(ValuesToRow(t, values))])
  }

  /** A stored row is a prefix of the full-width row, missing only trailing blanks. */
  lemma StoredRow(t: Table, values: seq<Value>)
    requires Wf(t) && |t.columns| >= 1 && |values| == |t.columns|
    ensures |AddRow(t, values).rows| == |t.rows| + 1
    ensures |AddRow(t, values).rows[|t.rows|]| <= t.width
    ensures AddRow(t, values).rows[|t.rows|] == ValuesToRow(t, values)[..|AddRow(t, values).rows[|t.rows|]|]
    ensures forall j :: |AddRow(t, values).rows[|t.rows|]| <= j < t.width ==> IsSpace(ValuesToRow(t, values)[j])
  {
    var full := ValuesToRow(t, values);
    assert AddRow(t, values).rows[|t.rows|] == RStrip(full);
  }

  // ---------------------------------------------------------------------------
  // the tally line

  /** `int(x)`: truncation toward zero. */
  function Trunc(x: real): (r: int)
    ensures x >= 0.0 ==> r as real <= x < r as real + 1.0
    ensures x < 0.0 ==> r as real - 1.0 < x <= r as real
  {
    if x >= 0.0 then x.Floor else -((-x).Floor)
  }

  /** A cell of the tally line before it is printed. */
  datatype TallyCell = Label | Mean(mean: real) | RawSum(sum: real) | Whole(n: int) | Blank

  /** The cell `get_tallies` puts under a column other than the first. */
  function TallyOf(c: Column, xs: seq<real>): (r: TallyCell)
    ensures r.Blank? <==> c.tally.None? || |xs| == 0
    ensures r.Mean? <==> c.tally == Some("avg") && |xs| > 0 && Sum(xs) > 0.0
    ensures r.Mean? ==> r.mean * |xs| as real == Sum(xs)
    ensures r.RawSum? <==> c.tally == Some("avg") && |xs| > 0 && Sum(xs) <= 0.0
    ensures r.RawSum? ==> r.sum == Sum(xs)
    ensures r.Whole? <==> c.tally.Some? && c.tally != Some("avg") && |xs| > 0
    ensures r.Whole? ==> r.n == Trunc(Sum(xs))
  {
    if c.tally.Some? && |xs| > 0 then
      var s := Sum(xs);
      if c.tally == Some("avg") then
        if s > 0.0 then Mean(s / |xs| as real) else RawSum(s)
      else Whole(Trunc(s))
    else Blank
  }

  /** The cells of the tally line: `tally` first, then one per remaining column. */
  function TallyCells(t: Table): (r: seq<TallyCell>)
    requires Wf(t) && |t.columns| >= 1
    ensures |r| == |t.columns| && r[0] == Label
    ensures forall i :: 1 <= i < |r| ==> r[i] == TallyOf(t.columns[i], t.tallies[i])
  {
    seq(|t.columns|, i requires 0 <= i < |t.columns| =>
      if i == 0 then Label else TallyOf(t.columns[i], t.tallies[i]))
  }

  /** A tally cell as text: `'%.1f'` of a mean through `fixed1`, `str()` of a float
      sum through `showReal`, `str()` of an integer, or the null field. */
  function TallyText(c: TallyCell, fixed1: real -> string, showReal: real -> string): string {
    match c
    case Label => "tally"
    case Mean(m) => fixed1(m)
    case RawSum(s) => showReal(s)
    case Whole(n) => IntToString(n)
    case Blank => NullField
  }

  function TallyTexts(cells: seq<TallyCell>, fixed1: real -> string, showReal: real -> string): (r: seq<string>)
    ensures |r| == |cells| && forall i :: 0 <= i < |cells| ==> r[i] == TallyText(cells[i], fixed1, showReal)
  {
    seq(|cells|, i requires 0 <= i < |cells| => TallyText(cells[i], fixed1, showReal))
  }

  /** `get_tallies()`: the tally cells rendered like a row and right-stripped. */
  function GetTallies(t: Table, fixed1: real -> string, showReal: real -> string): (r: string)
    requires Wf(t) && |t.columns| >= 1
    ensures |r| <= t.width
  {
    var line := Render(t.columns, TallyTexts(TallyCells(t), fixed1, showReal));
    RenderWidth(t.columns, TallyTexts(TallyCells(t), fixed1, showReal));
    RStrip(line)
  }

  /** The tally line opens with the word `tally` when the first column is wide
      enough to hold it. */
  lemma TalliesOpen(t: Table, fixed1: real -> string, showReal: real -> string)
    requires Wf(t) && |t.columns| >= 1 && t.columns[0].width >= 5
    ensures StartsWith(GetTallies(t, fixed1, showReal), "tally")
  {
    var texts := TallyTexts(TallyCells(t), fixed1, showReal);
    var line := Render(t.columns, texts);
    FirstCell(t.columns, texts);
    var w := t.columns[0].width;
    assert line[..5] == FormatCell("tally", w)[..5];
    RStripKeepsPrefix(line, "tally");
  }

  /** The first column of a rendered row starts it. */
  lemma FirstCell(cols: seq<Column>, texts: seq<string>)
    requires |cols| >= 1 && |texts| == |cols|
    ensures cols[0].width <= |Render(cols, texts)|
    ensures Render(cols, texts)[..cols[0].width] == FormatCell(texts[0], cols[0].width)
  {
    RenderShape(cols, texts);
    assert cols[..0] == [];
    assert Offset(cols, 0) == 0;
    assert CellAt(Render(cols, texts), 0, FormatCell(texts[0], cols[0].width));
  }

  /** Right-stripping keeps a prefix that ends in a non-blank. */
  lemma RStripKeepsPrefix(s: string, p: string)
    requires |p| >= 1 && |p| <= |s| && s[..|p|] == p && !IsSpace(p[|p| - 1])
    ensures StartsWith(RStrip(s), p)
  {
    var r := RStrip(s);
    assert s[|p| - 1] == p[|p| - 1];
    assert |r| >= |p|;
    assert r[..|p|] == s[..|p|];
  }

  // ---------------------------------------------------------------------------
  // header and the whole table

  /** `''.ljust(min(max_width, width), null_field)`. */
  function Rule(t: Table): (r: string)
    ensures |r| == if t.width < MaxWidth then (if t.width < 0 then 0 else t.width) else MaxWidth
    ensures forall i :: 0 <= i < |r| ==> r[i] == NullField[0]
  {
    Repeat(NullField[0], if t.width < MaxWidth then t.width else MaxWidth)
  }

  function Names(cols: seq<Column>): (r: seq<string>)
    ensures |r| == |cols| && forall i :: 0 <= i < |cols| ==> r[i] == cols[i].name
  {
    seq(|cols|, i requires 0 <= i < |cols| => cols[i].name)
  }

  /** The three header lines: the rule, the column names rendered and right-stripped,
      and the rule again. */
  function HeaderLines(t: Table): (r: seq<string>)
    requires Wf(t) && |t.columns| >= 1
    ensures |r| == 3 && r[0] == Rule(t) && r[2] == Rule(t)
  {
    [Rule(t), RStrip(Render(t.columns, Names(t.columns))), Rule(t)]
  }

  /** `get_header()`. */
  function GetHeader(t: Table): string
    requires Wf(t) && |t.columns| >= 1
  {
    Join(HeaderLines(t), '\n')
  }

  /** `str(table)`: header, rows, tally line and header again, one per line. */
  function Printed(t: Table, fixed1: real -> string, showReal: real -> string): string
    requires Wf(t) && |t.columns| >= 1
  {
    Join([GetHeader(t)] + t.rows + [GetTallies(t, fixed1, showReal), GetHeader(t)], '\n')
  }

  /** Nothing the table prints breaks a line of its own. */
  predicate OneLine(t: Table, fixed1: real -> string, showReal: real -> string)
    requires Wf(t) && |t.columns| >= 1
  {
    && (forall i :: 0 <= i < |t.columns| ==> '\n' !in t.columns[i].name)
    && (forall i :: 0 <= i < |t.rows| ==> '\n' !in t.rows[i])
    && (forall i :: 0 <= i < |t.columns| ==> '\n' !in TallyText(TallyCells(t)[i], fixed1, showReal))
  }

  lemma RStripKeeps(s: string)
    requires '\n' !in s
    ensures '\n' !in RStrip(s)
  {
    var r := RStrip(s);
    assert forall k :: 0 <= k < |r| ==> r[k] == s[k];
  }

  lemma HeaderNoBreak(t: Table)
    requires Wf(t) && |t.columns| >= 1
    requires forall i :: 0 <= i < |t.columns| ==> '\n' !in t.columns[i].name
    ensures forall j :: 0 <= j < 3 ==> '\n' !in HeaderLines(t)[j]
  {
    RenderNoBreak(t.columns, Names(t.columns));
    RStripKeeps(Render(t.columns, Names(t.columns)));
  }

  lemma TalliesNoBreak(t: Table, fixed1: real -> string, showReal: real -> string)
    requires Wf(t) && |t.columns| >= 1 && OneLine(t, fixed1, showReal)
    ensures '\n' !in GetTallies(t, fixed1, showReal)
  {
    var texts := TallyTexts(TallyCells(t), fixed1, showReal);
    RenderNoBreak(t.columns, texts);
    RStripKeeps(Render(t.columns, texts));
  }

  /** The printed table is the header's three lines, the stored rows, the tally line
      and the header's three lines again: splitting it at line breaks gives those
      lines back, and there are seven more of them than rows. */
  lemma ShowLines(t: Table, fixed1: real -> string, showReal: real -> string)
    requires Wf(t) && |t.columns| >= 1 && OneLine(t, fixed1, showReal)
    ensures Split(Printed(t, fixed1, showReal), '\n')
      == HeaderLines(t) + t.rows + [GetTallies(t, fixed1, showReal)] + HeaderLines(t)
    ensures |Split(Printed(t, fixed1, showReal), '\n')| == |t.rows| + 7
  {
    var h := HeaderLines(t);
    var x := GetTallies(t, fixed1, showReal);
    var all := h + t.rows + [x] + h;
    HeaderNoBreak(t);
    TalliesNoBreak(t, fixed1, showReal);
    var n := |t.rows|;
    assert forall j :: 0 <= j < |all| ==> '\n' !in all[j] by {
      forall j | 0 <= j < |all|
        ensures '\n' !in all[j]
      {
        if j < 3 {
          assert all[j] == h[j];
        } else if j < 3 + n {
          assert all[j] == t.rows[j - 3];
        } else if j == 3 + n {
          assert all[j] == x;
        } else {
          assert all[j] == h[j - 4 - n];
        }
      }
    }
    SplitJoin(all, '\n');
    var mid := [Join(h, '\n')] + t.rows + [x, Join(h, '\n')];
    assert Printed(t, fixed1, showReal) == Join(mid, '\n');
    JoinBlocks(h, t.rows, x);
  }

  /** Joining with the header written out as one text is joining its lines. */
  lemma JoinBlocks(h: seq<string>, rows: seq<string>, x: string)
    requires |h| == 3
    ensures Join([Join(h, '\n')] + rows + [x, Join(h, '\n')], '\n') == Join(h + rows + [x] + h, '\n')
  {
    var mid := [Join(h, '\n')] + rows + [x, Join(h, '\n')];
    var all := h + rows + [x] + h;
    var n := |rows|;
    JoinSplitAt(mid, '\n', 1);
    JoinSplitAt(all, '\n', 3);
    assert mid[..1] == [Join(h, '\n')] && all[..3] == h;
    var m1 := mid[1..];
    var a1 := all[3..];
    assert m1 == rows + [x, Join(h, '\n')];
    assert a1 == rows + [x] + h;
    JoinSplitAt(m1, '\n', n + 1);
    JoinSplitAt(a1, '\n', n + 1);
    assert m1[..n + 1] == a1[..n + 1];
    assert m1[n + 1..] == [Join(h, '\n')];
    assert a1[n + 1..] == h;
  }

  // ---------------------------------------------------------------------------
  // the scheduler-aware table

  /** `CondorTable.add_column(name, varname, width, tally)`. */
  function AddCondorColumn(t: Table, name: string, varname: string, width: nat, tally: Option<string>): (r: Table)
    requires Wf(t)
    ensures Wf(r)
    ensures r.columns == t.columns + [CondorColumn(name, varname, width, tally)]
    ensures r.rows == t.rows
  {
    AddColumn(t, IsColumn(CondorColumn(name, varname, width, tally))).value
  }

  /** The value `{True: 'Y', False: 'N'}[value]` can look up (`1` and `0` hash as
      `True` and `False`). */
  function SignalFlag(v: Value): Option<string> {
    match v
    case VBool(b) => Some(if b then "Y" else "N")
    case VInt(i) => if i == 1 then Some("Y") else if i == 0 then Some("N") else None
    case _ => None
  }

  /** The integer key `job_states[value]` can look up: an integer, or a boolean. */
  function StateKey(v: Value): Option<int> {
    match v
    case VBool(b) => Some(if b then 1 else 0)
    case VInt(i) => Some(i)
    case _ => None
  }

  predicate Missing(v: Value) {
    v == VNone || v == VStr("undefined")
  }

  /** `munge` raises only on an `ExitBySignal` value that is not a flag. */
  predicate MungeDefined(name: string, v: Value) {
    name == "ExitBySignal" && !Missing(v) ==> SignalFlag(v).Some?
  }

  /** `CondorTable.munge(name, value)`: what a cell shows for an attribute value.
      `showDate` stands for `fromtimestamp(...).strftime('%m/%d %H:%M')`. */
  function Munge(name: string, v: Value, showDate: int -> string): (r: Value)
    requires MungeDefined(name, v)
    ensures Missing(v) ==> r == VStr(NullField)
    ensures r != v ==> r.VStr?
    ensures !Missing(v) && name == "JobStatus" && v.VInt? && ValidStatus(v.i) ==>
      r == VStr(Letter(StatusOfValid(v.i)))
    ensures name == "JobStatus" && !Missing(v) && (StateKey(v).None? || !ValidStatus(StateKey(v).value)) ==> r == v
    ensures name == "NumJobStarts" && !Missing(v) ==> (if IsZero(v) then r == VStr(NullField) else r == v)
    ensures name == "ExitBySignal" && !Missing(v) ==> r == VStr(if IntOf(v) == Some(1) then "Y" else "N")
    ensures EndsWith(name, "Date") && (v == VStr("0") || IsZero(v)) ==> r == VStr(NullField)
    ensures EndsWith(name, "Date") && !Missing(v) && v != VStr("0") && !IsZero(v) ==>
      r == (if IntOf(v).Some? then VStr(showDate(IntOf(v).value)) else v)
    ensures !Missing(v) && name !in {"NumJobStarts", "ExitBySignal", "JobStatus"} && !EndsWith(name, "Date") ==> r == v
  {
    if Missing(v) then VStr(NullField)
    else if name == "NumJobStarts" then
      if IsZero(v) then VStr(NullField) else v
    else if name == "ExitBySignal" then VStr(SignalFlag(v).value)
    else if name == "JobStatus" then
      match StateKey(v)
      case Some(k) => if k in JobStates then VStr(JobStates[k]) else v
      case None => v
    else if EndsWith(name, "Date") then
      if v == VStr("0") || IsZero(v) then VStr(NullField)
      else
        match IntOf(v)
        case Some(i) => VStr(showDate(i))
        case None => v
    else v
  }

  /** A cell never shows a missing value as such. */
  lemma MungeNeverMissing(name: string, v: Value, showDate: int -> string)
    requires MungeDefined(name, v)
    requires forall i :: showDate(i) != "undefined"
    ensures !Missing(Munge(name, v, showDate))
  {
  }

  /** The status letter a cell shows identifies the job's state code. */
  lemma MungeStatusInjective(a: int, b: int, showDate: int -> string)
    requires ValidStatus(a) && ValidStatus(b)
    requires Munge("JobStatus", VInt(a), showDate) == Munge("JobStatus", VInt(b), showDate)
    ensures a == b
  {
    JobStatesShape();
  }

  /** Showing an already shown status leaves it alone: a letter is not a state code. */
  lemma MungeStatusIdempotent(v: Value, showDate: int -> string)
    ensures var once := Munge("JobStatus", v, showDate);
      Munge("JobStatus", once, showDate) == once
  {
  }

  /** `job.get(varname)` on a job given as its attribute map. */
  function Attr(job: map<string, Value>, k: string): Value {
    if k in job then job[k] else VNone
  }

  /** Every column of a scheduler-aware table names an attribute. */
  predicate CondorColumns(t: Table) {
    forall i :: 0 <= i < |t.columns| ==> t.columns[i].CondorColumn?
  }

  /** The job's attributes can all be shown. */
  predicate JobShowable(t: Table, job: map<string, Value>)
    requires CondorColumns(t)
  {
    forall i :: 0 <= i < |t.columns| ==> MungeDefined(t.columns[i].varname, Attr(job, t.columns[i].varname))
  }

  /** `job_to_values(job)`: each column's attribute, munged for display. */
  function JobToValues(t: Table, job: map<string, Value>, showDate: int -> string): (r: seq<Value>)
    requires CondorColumns(t) && JobShowable(t, job)
    ensures |r| == |t.columns|
    ensures forall i :: 0 <= i < |t.columns| ==>
      r[i] == Munge(t.columns[i].varname, Attr(job, t.columns[i].varname), showDate)
  {
    seq(|t.columns|, i requires 0 <= i < |t.columns| =>
      Munge(t.columns[i].varname, Attr(job, t.columns[i].varname), showDate))
  }

  /** The stored row of a job: its munged attributes rendered and right-stripped. */
  function JobRow(t: Table, job: map<string, Value>, showDate: int -> string): string
    requires Wf(t) && |t.columns| >= 1 && CondorColumns(t) && JobShowable(t, job)
  {
    RStrip(ValuesToRow(t, JobToValues(t, job, showDate)))
  }

  /** `add_job(job)`. */
  function AddJob(t: Table, job: map<string, Value>, showDate: int -> string): (r: Table)
    requires Wf(t) && |t.columns| >= 1 && CondorColumns(t) && JobShowable(t, job)
    ensures Wf(r) && r.columns == t.columns && CondorColumns(r)
    ensures r.rows == t.rows + [JobRow(t, job, showDate)]
  {
    AddRow(t, JobToValues(t, job, showDate))
  }

  predicate AllShowable(t: Table, jobs: seq<(string, map<string, Value>)>)
    requires CondorColumns(t)
  {
    forall k :: 0 <= k < |jobs| ==> JobShowable(t, jobs[k].1)
  }

  /** `add_jobs(jobs)`: every job of the map, in its order. */
  function AddJobs(t: Table, jobs: seq<(string, map<string, Value>)>, showDate: int -> string): (r: Table)
    requires Wf(t) && |t.columns| >= 1 && CondorColumns(t) && AllShowable(t, jobs)
    ensures Wf(r) && r.columns == t.columns && CondorColumns(r)
    decreases |jobs|
  {
    if |jobs| == 0 then t
    else
      var u := AddJobs(t, jobs[..|jobs| - 1], showDate);
      AddJob(u, jobs[|jobs| - 1].1, showDate)
  }

  /** A job's row depends only on the table's columns. */
  lemma JobRowSame(t: Table, u: Table, job: map<string, Value>, showDate: int -> string)
    requires Wf(t) && Wf(u) && |t.columns| >= 1 && t.columns == u.columns
    requires CondorColumns(t) && JobShowable(t, job)
    ensures CondorColumns(u) && JobShowable(u, job)
    ensures JobRow(t, job, showDate) == JobRow(u, job, showDate)
  {
    assert JobToValues(t, job, showDate) == JobToValues(u, job, showDate);
  }

  /** `add_jobs` over one more job adds that job's row. */
  lemma {:induction false} AddJobsSnoc(t: Table, jobs: seq<(string, map<string, Value>)>, showDate: int -> string)
    requires Wf(t) && |t.columns| >= 1 && CondorColumns(t) && AllShowable(t, jobs) && |jobs| > 0
    ensures AllShowable(t, jobs[..|jobs| - 1])
    ensures AddJobs(t, jobs, showDate).rows
      == AddJobs(t, jobs[..|jobs| - 1], showDate).rows + [JobRow(t, jobs[|jobs| - 1].1, showDate)]
  {
    var u := AddJobs(t, jobs[..|jobs| - 1], showDate);
    var last := jobs[|jobs| - 1].1;
    JobRowSame(t, u, last, showDate);
    assert AddJobs(t, jobs, showDate) == AddJob(u, last, showDate);
  }

  /** `f` over the second components, in order. */
  function MapSeconds<K, X, Y>(xs: seq<(K, X)>, f: X -> Y): (r: seq<Y>)
    ensures |r| == |xs| && forall k :: 0 <= k < |xs| ==> r[k] == f(xs[k].1)
  {
    seq(|xs|, k requires 0 <= k < |xs| => f(xs[k].1))
  }

  lemma MapSecondsSnoc<K, X, Y>(xs: seq<(K, X)>, f: X -> Y)
    requires |xs| > 0
    ensures MapSeconds(xs, f) == MapSeconds(xs[..|xs| - 1], f) + [f(xs[|xs| - 1].1)]
  {
  }

  /** A job's row, for a table and job that can show it. */
  function RowFor(t: Table, showDate: int -> string): map<string, Value> -> string {
    job => if Wf(t) && |t.columns| >= 1 && CondorColumns(t) && JobShowable(t, job) then JobRow(t, job, showDate) else ""
  }

  lemma SnocAppend<T>(rows: seq<T>, prev: seq<T>, base: seq<T>, mid: seq<T>, x: T, whole: seq<T>)
    requires rows == prev + [x] && prev == base + mid && whole == mid + [x]
    ensures rows == base + whole
  {
  }

  lemma IndexAppend<T>(rows: seq<T>, base: seq<T>, m: seq<T>, k: int)
    requires rows == base + m && 0 <= k < |m|
    ensures rows[|base| + k] == m[k]
  {
  }

  /** After `add_jobs`, the table holds its old rows and then one row per job, in the
      map's order, each the job's munged attributes rendered and right-stripped. */
  lemma {:induction false} AddJobsRows(t: Table, jobs: seq<(string, map<string, Value>)>, showDate: int -> string)
    requires Wf(t) && |t.columns| >= 1 && CondorColumns(t) && AllShowable(t, jobs)
    ensures AddJobs(t, jobs, showDate).rows == t.rows + MapSeconds(jobs, RowFor(t, showDate))
    decreases |jobs|
  {
    var f := RowFor(t, showDate);
    if |jobs| > 0 {
      var init := jobs[..|jobs| - 1];
      var last := jobs[|jobs| - 1].1;
      AddJobsSnoc(t, jobs, showDate);
      AddJobsRows(t, init, showDate);
      MapSecondsSnoc(jobs, f);
      assert f(last) == JobRow(t, last, showDate);
      SnocAppend(AddJobs(t, jobs, showDate).rows, AddJobs(t, init, showDate).rows, t.rows,
        MapSeconds(init, f), JobRow(t, last, showDate), MapSeconds(jobs, f));
    }
  }

  /** Row `k` after the old ones is the row of job `k`. */
  lemma AddJobsRow(t: Table, jobs: seq<(string, map<string, Value>)>, showDate: int -> string, k: int)
    requires Wf(t) && |t.columns| >= 1 && CondorColumns(t) && AllShowable(t, jobs) && 0 <= k < |jobs|
    ensures |t.rows| + k < |AddJobs(t, jobs, showDate).rows|
    ensures AddJobs(t, jobs, showDate).rows[|t.rows| + k] == JobRow(t, jobs[k].1, showDate)
  {
    var f := RowFor(t, showDate);
    AddJobsRows(t, jobs, showDate);
    IndexAppend(AddJobs(t, jobs, showDate).rows, t.rows, MapSeconds(jobs, f), k);
    assert f(jobs[k].1) == JobRow(t, jobs[k].1, showDate);
  }
}
