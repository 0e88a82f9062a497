/** The tables of src/printer.js: `printTable` lays rows of cells out in
    columns, and `comparison` turns the result of a comparison into one
    such table per scenario. `writeln` is modelled by returning the lines in
    the order they are written. */
module Table {
  import opened Text
  import opened Dict
  import opened Printer
  import opened Compute
  import opened Judgement
  import opened Comparison

  // ---- visible text ----

  /** Text whose colour codes are stripped apart from whatever follows it,
      and whose visible part holds no variation selector. Plain text and
      painted plain text are tidy, and so is any concatenation of tidy
      pieces; the width of tidy text is the length of its visible part. */
  ghost predicate Tidy(s: string) {
    && (forall rest: string :: StripsApart(s, rest))
    && NoSelector(StripColors(s))
  }

  /** Stripping `s + rest` strips `s` and `rest` each on its own. */
  predicate StripsApart(s: string, rest: string) {
    StripColors(s + rest) == StripColors(s) + StripColors(rest)
  }

  predicate Plain(s: string) {
    NoEsc(s) && NoSelector(s)
  }

  lemma PlainIsTidy(s: string)
    requires Plain(s)
    ensures Tidy(s) && StripColors(s) == s
  {
    PlainUnstripped(s);
    forall rest: string
      ensures StripsApart(s, rest)
    {
      PlainPrefixKept(s, rest);
    }
  }

  lemma PaintedIsTidy(colour: string, text: string)
    requires colour == Green || colour == Red
    requires Plain(text)
    ensures Tidy(Paint(colour, text)) && StripColors(Paint(colour, text)) == text
  {
    var p := Paint(colour, text);
    PaintedIsStripped(colour, text, "");
    assert p + "" == p && text + "" == text;
    assert StripColors(p) == text by {
      assert StripColors("") == "";
    }
    forall rest: string
      ensures StripsApart(p, rest)
    {
      PaintedIsStripped(colour, text, rest);
    }
  }

  lemma ConcatIsTidy(a: string, b: string)
    requires Tidy(a) && Tidy(b)
    ensures Tidy(a + b) && StripColors(a + b) == StripColors(a) + StripColors(b)
  {
    assert StripsApart(a, b);
    forall rest: string
      ensures StripsApart(a + b, rest)
    {
      Associative(a, b, rest);
      assert StripsApart(a, b + rest);
      assert StripsApart(b, rest);
      Associative(StripColors(a), StripColors(b), StripColors(rest));
    }
    NoSelectorConcat(StripColors(a), StripColors(b));
  }

  lemma Associative(a: string, b: string, c: string)
    ensures (a + b) + c == a + (b + c)
  {
  }

  lemma NoSelectorConcat(x: string, y: string)
    requires NoSelector(x) && NoSelector(y)
    ensures NoSelector(x + y)
  {
    forall i | 0 <= i < |x + y|
      ensures !IsSelector((x + y)[i])
    {
      if i < |x| {
        assert (x + y)[i] == x[i];
      } else {
        assert (x + y)[i] == y[i - |x|];
      }
    }
  }

  /** Tidy text is as wide as its visible part is long. */
  lemma TidyWidth(s: string)
    requires Tidy(s)
    ensures Width(s) == |StripColors(s)|
  {
  }

  lemma TidyConcatWidth(a: string, b: string)
    requires Tidy(a) && Tidy(b)
    ensures Tidy(a + b) && Width(a + b) == Width(a) + Width(b)
  {
    ConcatIsTidy(a, b);
  }

  /** Widths add up over a join of tidy parts with a tidy separator. */
  function SumWidths(parts: seq<string>): nat {
    if |parts| == 0 then 0 else SumWidths(parts[..|parts| - 1]) + Width(parts[|parts| - 1])
  }

  lemma {:induction false} JoinWidth(parts: seq<string>, sep: string)
    requires forall i | 0 <= i < |parts| :: Tidy(parts[i])
    requires Tidy(sep)
    ensures Tidy(Join(parts, sep))
    ensures Width(Join(parts, sep)) == if |parts| == 0 then 0 else SumWidths(parts) + Width(sep) * (|parts| - 1)
    decreases |parts|
  {
    if |parts| == 0 {
      PlainIsTidy("");
    } else if |parts| == 1 {
      assert SumWidths(parts) == SumWidths(parts[..0]) + Width(parts[0]);
    } else {
      var init := parts[..|parts| - 1];
      assert forall i | 0 <= i < |init| :: init[i] == parts[i];
      JoinWidth(init, sep);
      JoinStep(parts, sep);
    }
  }

  /** One more part adds its width and a separator's. */
  lemma JoinStep(parts: seq<string>, sep: string)
    requires |parts| >= 2
    requires Tidy(sep) && Tidy(parts[|parts| - 1])
    requires Tidy(Join(parts[..|parts| - 1], sep))
    requires Width(Join(parts[..|parts| - 1], sep)) == SumWidths(parts[..|parts| - 1]) + Width(sep) * (|parts| - 2)
    ensures Tidy(Join(parts, sep))
    ensures Width(Join(parts, sep)) == SumWidths(parts) + Width(sep) * (|parts| - 1)
  {
    var n := |parts|;
    var j := Join(parts[..n - 1], sep);
    var last := parts[n - 1];
    JoinLast(parts, sep);
    TidyConcatWidth(j, sep);
    TidyConcatWidth(j + sep, last);
    assert SumWidths(parts) == SumWidths(parts[..n - 1]) + Width(last);
    OneMoreSeparator(Width(sep), n);
  }

  lemma JoinLast(parts: seq<string>, sep: string)
    requires |parts| >= 2
    ensures Join(parts, sep) == Join(parts[..|parts| - 1], sep) + sep + parts[|parts| - 1]
  {
  }

  lemma OneMoreSeparator(w: nat, n: nat)
    requires n >= 2
    ensures w * (n - 1) == w * (n - 2) + w
  {
  }

  // ---- padding ----

  lemma SpacesArePlain(n: nat)
    ensures Plain(Repeat(' ', n)) && Width(Repeat(' ', n)) == n
  {
    RepeatIsPlain(' ', n);
    PlainWidth(Repeat(' ', n));
  }

  /** Padding tidy text with spaces, in front or behind, keeps it tidy and
      brings its width up to `length`, never down. */
  lemma PaddedIsTidy(str: string, length: int)
    requires Tidy(str)
    ensures Tidy(PadFirst(str, length, ' ')) && Tidy(PadLast(str, length, ' '))
    ensures Width(PadFirst(str, length, ' ')) == if length > Width(str) then length else Width(str)
    ensures Width(PadLast(str, length, ' ')) == if length > Width(str) then length else Width(str)
  {
    var add := length - Width(str);
    if add > 0 {
      var spaces := Repeat(' ', add);
      SpacesArePlain(add);
      PlainIsTidy(spaces);
      TidyConcatWidth(spaces, str);
      TidyConcatWidth(str, spaces);
    }
  }

  // ---- printTable ----

  const BorderMark: string := "BORDER_LINE"

  /** Every row has a cell in column `c`. */
  predicate HasColumn(rows: seq<seq<string>>, c: nat) {
    forall r | 0 <= r < |rows| :: c < |rows[r]|
  }

  /** `Math.max( ...xs )` for a non-empty list. */
  function Max(xs: seq<nat>): (m: nat)
    requires |xs| > 0
    ensures forall i | 0 <= i < |xs| :: xs[i] <= m
    ensures exists i | 0 <= i < |xs| :: xs[i] == m
  {
    var x := xs[|xs| - 1];
    if |xs| == 1 then x
    else
      var init := xs[..|xs| - 1];
      assert forall i | 0 <= i < |init| :: init[i] == xs[i];
      var m := Max(init);
      if x > m then x else m
  }

  /** `cellWidths`: the width of each row's cell in column `c`. */
  function CellWidths(rows: seq<seq<string>>, c: nat): (ws: seq<nat>)
    requires HasColumn(rows, c)
    ensures |ws| == |rows| && forall r | 0 <= r < |rows| :: ws[r] == Width(rows[r][c])
  {
    seq(|rows|, r requires 0 <= r < |rows| => Width(rows[r][c]))
  }

  /** A table the source can lay out: `rows[ 0 ]` exists and fixes the
      columns, and no row is shorter (a missing cell is `undefined`, whose
      width throws). */
  predicate Layable(rows: seq<seq<string>>) {
    |rows| > 0 && forall r | 0 <= r < |rows| :: |rows[r]| >= |rows[0]|
  }

  /** `colWidths`: one more than the widest cell, per column of `rows[ 0 ]`. */
  function ColWidths(rows: seq<seq<string>>): (w: seq<nat>)
    requires Layable(rows)
    ensures |w| == |rows[0]|
    ensures forall c, r | 0 <= c < |w| && 0 <= r < |rows| :: Width(rows[r][c]) < w[c]
    ensures forall c | 0 <= c < |w| :: exists r | 0 <= r < |rows| :: Width(rows[r][c]) + 1 == w[c]
  {
    seq(|rows[0]|, c requires 0 <= c < |rows[0]| && HasColumn(rows, c) => Max(CellWidths(rows, c)) + 1)
  }

  /** `'-'.repeat( colWidth )` per column. */
  function Dashes(widths: seq<nat>): (d: seq<string>)
    ensures |d| == |widths|
    ensures forall i | 0 <= i < |d| :: d[i] == Repeat('-', widths[i])
  {
    seq(|widths|, i requires 0 <= i < |widths| => Repeat('-', widths[i]))
  }

  /** `borderLine`. */
  function BorderLine(widths: seq<nat>): string {
    "|-" + Join(Dashes(widths), "-|") + "-|"
  }

  /** A cell padded to its column: column 0 is padded behind, the others in
      front; a cell beyond the columns of `rows[ 0 ]` has no width to pad
      to (`padFirst( value, undefined )` leaves it as it is). */
  function PadCell(row: seq<string>, widths: seq<nat>, i: nat): string
    requires i < |row|
  {
    if i >= |widths| then row[i]
    else if i == 0 then PadLast(row[i], widths[i], ' ')
    else PadFirst(row[i], widths[i], ' ')
  }

  function PadCells(row: seq<string>, widths: seq<nat>): (cells: seq<string>)
    ensures |cells| == |row|
    ensures forall i | 0 <= i < |row| :: cells[i] == PadCell(row, widths, i)
  {
    seq(|row|, i requires 0 <= i < |row| => PadCell(row, widths, i))
  }

  /** The line for an ordinary row. */
  function RowLine(row: seq<string>, widths: seq<nat>): string {
    "| " + Join(PadCells(row, widths), " |") + " |"
  }

  predicate IsBorderRow(row: seq<string>) {
    |row| > 0 && row[0] == BorderMark
  }

  /** `printTable( writeln, rows )`: the lines written, one per row. */
  function PrintTable(rows: seq<seq<string>>): (lines: seq<string>)
    requires Layable(rows)
    ensures |lines| == |rows|
  {
    var widths := ColWidths(rows);
    seq(|rows|, i requires 0 <= i < |rows| => if IsBorderRow(rows[i]) then BorderLine(widths) else RowLine(rows[i], widths))
  }

  // ---- alignment ----

  /** Every row has exactly the columns of the first, and every cell is
      tidy. */
  ghost predicate Regular(rows: seq<seq<string>>) {
    && Layable(rows)
    && (forall r | 0 <= r < |rows| :: |rows[r]| == |rows[0]|)
    && (forall r, c | 0 <= r < |rows| && 0 <= c < |rows[r]| :: Tidy(rows[r][c]))
  }

  function Sum(ws: seq<nat>): nat {
    if |ws| == 0 then 0 else Sum(ws[..|ws| - 1]) + ws[|ws| - 1]
  }

  /** The visible width every line of a table has: the two edges, each
      column and a two-character separator between columns. */
  function LineWidth(widths: seq<nat>): nat {
    4 + (if |widths| == 0 then 0 else Sum(widths) + 2 * (|widths| - 1))
  }

  lemma {:induction false} SumWidthsOfPadded(cells: seq<string>, widths: seq<nat>)
    requires |cells| == |widths|
    requires forall i | 0 <= i < |cells| :: Width(cells[i]) == widths[i]
    ensures SumWidths(cells) == Sum(widths)
    decreases |cells|
  {
    if |cells| > 0 {
      SumWidthsOfPadded(cells[..|cells| - 1], widths[..|widths| - 1]);
    }
  }

  lemma BorderWidth(widths: seq<nat>)
    ensures Tidy(BorderLine(widths)) && Width(BorderLine(widths)) == LineWidth(widths)
  {
    var d := Dashes(widths);
    forall i | 0 <= i < |d|
      ensures Tidy(d[i]) && Width(d[i]) == widths[i]
    {
      RepeatIsPlain('-', widths[i]);
      PlainIsTidy(d[i]);
      PlainWidth(d[i]);
    }
    PlainIsTidy("-|");
    PlainWidth("-|");
    PlainIsTidy("|-");
    PlainWidth("|-");
    JoinWidth(d, "-|");
    SumWidthsOfPadded(d, widths);
    TidyConcatWidth("|-", Join(d, "-|"));
    TidyConcatWidth("|-" + Join(d, "-|"), "-|");
  }

  lemma RowWidth(row: seq<string>, widths: seq<nat>)
    requires |row| == |widths|
    requires forall i | 0 <= i < |row| :: Tidy(row[i]) && Width(row[i]) < widths[i]
    ensures Width(RowLine(row, widths)) == LineWidth(widths)
  {
    var cells := PadCells(row, widths);
    forall i | 0 <= i < |cells|
      ensures Tidy(cells[i]) && Width(cells[i]) == widths[i]
    {
      PaddedIsTidy(row[i], widths[i]);
    }
    PlainIsTidy(" |");
    PlainWidth(" |");
    PlainIsTidy("| ");
    PlainWidth("| ");
    JoinWidth(cells, " |");
    SumWidthsOfPadded(cells, widths);
    TidyConcatWidth("| ", Join(cells, " |"));
    TidyConcatWidth("| " + Join(cells, " |"), " |");
  }

  /** Every line of a regular table, border lines included, has the same
      visible width. */
  lemma TableAligned(rows: seq<seq<string>>)
    requires Regular(rows)
    ensures forall i | 0 <= i < |PrintTable(rows)| :: Width(PrintTable(rows)[i]) == LineWidth(ColWidths(rows))
  {
    var widths := ColWidths(rows);
    var lines := PrintTable(rows);
    forall i | 0 <= i < |lines|
      ensures Width(lines[i]) == LineWidth(widths)
    {
      if IsBorderRow(rows[i]) {
        BorderWidth(widths);
      } else {
        RowWidth(rows[i], widths);
      }
    }
  }

  // ---- plain text ----

  lemma PlainConcat(a: string, b: string)
    requires Plain(a) && Plain(b)
    ensures Plain(a + b)
  {
    forall i | 0 <= i < |a + b|
      ensures (a + b)[i] != Esc && !IsSelector((a + b)[i])
    {
      if i < |a| {
        assert (a + b)[i] == a[i];
      } else {
        assert (a + b)[i] == b[i - |a|];
      }
    }
  }

  lemma DigitsArePlain(s: string)
    requires forall i | 0 <= i < |s| :: '0' <= s[i] <= '9'
    ensures Plain(s)
  {
  }

  /** The text `format` produces holds no escape and no selector when the
      unit and the digits `toFixed` renders hold none. */
  lemma FormatIsPlain(num: real, unit: string, plus: bool, toFixed: (real, nat) -> string)
    requires Plain(unit)
    requires forall x, d :: Plain(toFixed(x, d))
    ensures Plain(Format(num, unit, plus, toFixed))
  {
    if unit == "P" {
      PlainConcat("P ", toFixed(num, 3));
    } else {
      MagnitudeIsPlain(Abs(num), unit, toFixed);
      PlainConcat(Sign(num, plus), Magnitude(Abs(num), unit, toFixed));
    }
  }

  lemma MagnitudeIsPlain(abs: real, unit: string, toFixed: (real, nat) -> string)
    requires abs >= 0.0
    requires Plain(unit)
    requires forall x, d :: Plain(toFixed(x, d))
    ensures Plain(Magnitude(abs, unit, toFixed))
  {
    if abs == 0.0 {
      PlainConcat("0 ", unit);
    } else if abs < 1.0 {
      var n := NatToString(Ceil(abs * 10.0));
      DigitsArePlain(n);
      PlainConcat("<0.", n);
      PlainConcat("<0." + n, " ");
      PlainConcat("<0." + n + " ", unit);
    } else if unit == "ms" {
      AsWrittenIsPlain(WholeSeconds(abs), Remainder(abs));
    } else if unit == "B" && abs > 1000000.0 {
      PlainConcat(toFixed(abs / 1000000.0, 1), " MB");
    } else if unit == "B" && abs > 100000.0 {
      PlainConcat(toFixed(abs / 1000.0, 0), " kB");
    } else if unit == "B" && abs > 1000.0 {
      PlainConcat(toFixed(abs / 1000.0, 1), " kB");
    } else {
      var n := NatToString(Round(abs));
      DigitsArePlain(n);
      PlainConcat(n, " ");
      PlainConcat(n + " ", unit);
    }
  }

  /** The milliseconds text of lines 98-105 is digits, a point, the
      remainder padded with zeros behind, and a unit: no escape, no
      selector. */
  lemma AsWrittenIsPlain(s: nat, ms: nat)
    ensures Plain(SecondsAsWritten(s, ms))
  {
    if s > 0 {
      var a, b := NatToString(s), PadLast(NatToString(ms), 3, '0');
      assert forall i | 0 <= i < |b| :: '0' <= b[i] <= '9' by {
        var d := NatToString(ms);
        forall i | 0 <= i < |b| ensures '0' <= b[i] <= '9' {
          if i < |d| {
            assert b[i] == b[..|d|][i];
          }
        }
      }
      SecondsArePlain(a, b);
    } else {
      var m := NatToString(ms);
      DigitsArePlain(m);
      PlainConcat(m, " ms");
    }
  }

  lemma SecondsArePlain(a: string, b: string)
    requires forall i | 0 <= i < |a| :: '0' <= a[i] <= '9'
    requires forall i | 0 <= i < |b| :: '0' <= b[i] <= '9'
    ensures Plain(a + "." + b + " s")
  {
    DigitsArePlain(a);
    DigitsArePlain(b);
    PlainConcat(a, ".");
    PlainConcat(a + ".", b);
    PlainConcat(a + "." + b, " s");
  }

  // ---- comparison ----

  const HeadRow: seq<string> := ["Metric", "Before", "After", "Diff", ""]
  const BorderRow: seq<string> := [BorderMark, "", "", "", ""]

  /** `format( mean, unit ) + ' (± ' + format( stdev, unit ) + ')'`. */
  function StatsCell(s: Stats, unit: string, toFixed: (real, nat) -> string): string {
    Format(s.mean, unit, false, toFixed) + " (\U{B1} " + Format(s.stdev, unit, false, toFixed) + ")"
  }

  const Tick: string := "\U{2713}"
  const Cross: string := "\U{2718}"

  /** The symbol cell: a green tick for an improvement, a red cross for a
      regression, and nothing when there is no verdict. */
  function Symbol(j: Judgement): string {
    match j
    case Improved => Paint(Green, Tick)
    case Regressed => Paint(Red, Cross)
    case Neutral => ""
  }

  /** The diff cell: the difference with a sign, green for an improvement,
      red for a regression. */
  function DiffCell(item: Item, toFixed: (real, nat) -> string): string {
    var d := Format(item.diff, item.compareUnit, true, toFixed);
    match item.judgement
    case Improved => Paint(Green, d)
    case Regressed => Paint(Red, d)
    case Neutral => d
  }

  /** The row of one metric: caption and key, before, after, diff, symbol. */
  function MetricRow(key: string, item: Item, toFixed: (real, nat) -> string): (row: seq<string>)
    ensures |row| == 5
  {
    [ "  " + item.caption + " (" + key + ")",
      StatsCell(item.a, item.unit, toFixed),
      StatsCell(item.b, item.unit, toFixed),
      DiffCell(item, toFixed),
      Symbol(item.judgement) ]
  }

  /** The heading row of a report. */
  function ReportRow(name: string): seq<string> {
    [name + ":", "", "", "", ""]
  }

  /** The rows of the metrics `ks` of one report, in order. */
  function MetricRows(metrics: Dict<Item>, ks: seq<string>, toFixed: (real, nat) -> string): (rows: seq<seq<string>>)
    requires forall i | 0 <= i < |ks| :: ks[i] in metrics.vals
    ensures |rows| == |ks|
    ensures forall i | 0 <= i < |ks| :: rows[i] == MetricRow(ks[i], metrics.vals[ks[i]], toFixed)
  {
    seq(|ks|, i requires 0 <= i < |ks| && ks[i] in metrics.vals => MetricRow(ks[i], metrics.vals[ks[i]], toFixed))
  }

  /** The rows of the reports `ns` of one scenario: per report its heading
      and then its metrics. */
  function ReportRows(reports: ScenarioResult, ns: seq<string>, toFixed: (real, nat) -> string): seq<seq<string>>
    requires forall i | 0 <= i < |ns| :: ns[i] in reports.vals
  {
    if |ns| == 0 then []
    else
      var n := ns[|ns| - 1];
      var metrics := reports.vals[n];
      ReportRows(reports, ns[..|ns| - 1], toFixed) + [ReportRow(n)] + MetricRows(metrics, metrics.keys, toFixed)
  }

  /** The table of one scenario: border, head, border, the reports, border. */
  function ScenarioRows(reports: ScenarioResult, toFixed: (real, nat) -> string): seq<seq<string>> {
    [BorderRow, HeadRow, BorderRow] + ReportRows(reports, reports.keys, toFixed) + [BorderRow]
  }

  /** What is written for one scenario: two empty lines, the heading, the
      table. */
  function ScenarioLines(name: string, reports: ScenarioResult, toFixed: (real, nat) -> string): seq<string> {
    var rows := ScenarioRows(reports, toFixed);
    FiveWide(reports, toFixed);
    ["", "", "### scenario " + name] + PrintTable(rows)
  }

  /** `comparison( writeln, compared )` over the scenarios `ks`. */
  function ComparisonLines(result: Dict<ScenarioResult>, ks: seq<string>, toFixed: (real, nat) -> string): seq<string>
    requires forall i | 0 <= i < |ks| :: ks[i] in result.vals
  {
    if |ks| == 0 then []
    else
      var k := ks[|ks| - 1];
      ComparisonLines(result, ks[..|ks| - 1], toFixed) + ScenarioLines(k, result.vals[k], toFixed)
  }

  /** `comparison( writeln, compared.result )`. */
  function ComparisonOutput(result: Dict<ScenarioResult>, toFixed: (real, nat) -> string): seq<string> {
    ComparisonLines(result, result.keys, toFixed)
  }

  // ---- properties of the comparison ----

  /** Every row of a scenario table has the five columns of the head. */
  lemma FiveWide(reports: ScenarioResult, toFixed: (real, nat) -> string)
    ensures Layable(ScenarioRows(reports, toFixed))
    ensures forall r | 0 <= r < |ScenarioRows(reports, toFixed)| :: |ScenarioRows(reports, toFixed)[r]| == 5
  {
    var mid := ReportRows(reports, reports.keys, toFixed);
    ReportRowsFiveWide(reports, reports.keys, toFixed);
    assert FiveCells(mid);
    var rows := [BorderRow, HeadRow, BorderRow] + mid + [BorderRow];
    assert |BorderRow| == 5;
    assert |HeadRow| == 5;
    forall r | 0 <= r < |rows|
      ensures |rows[r]| == 5
    {
      if r < 3 {
        assert rows[r] == [BorderRow, HeadRow, BorderRow][r];
      } else if r < 3 + |mid| {
        assert rows[r] == mid[r - 3];
      } else {
        assert rows[r] == BorderRow;
      }
    }
  }

  /** Every row has exactly five cells. */
  predicate FiveCells(rows: seq<seq<string>>) {
    forall r | 0 <= r < |rows| :: |rows[r]| == 5
  }

  lemma FiveCellsConcat(a: seq<seq<string>>, b: seq<seq<string>>)
    requires FiveCells(a) && FiveCells(b)
    ensures FiveCells(a + b)
  {
    forall r | 0 <= r < |a + b|
      ensures |(a + b)[r]| == 5
    {
      if r >= |a| {
        assert (a + b)[r] == b[r - |a|];
      }
    }
  }

  lemma {:induction false} ReportRowsFiveWide(reports: ScenarioResult, ns: seq<string>, toFixed: (real, nat) -> string)
    requires forall i | 0 <= i < |ns| :: ns[i] in reports.vals
    ensures FiveCells(ReportRows(reports, ns, toFixed))
    decreases |ns|
  {
    if |ns| > 0 {
      var n := ns[|ns| - 1];
      var prev := ReportRows(reports, ns[..|ns| - 1], toFixed);
      var metrics := reports.vals[n];
      var mr := MetricRows(metrics, metrics.keys, toFixed);
      MetricRowsFiveWide(metrics, toFixed);
      ReportRowsFiveWide(reports, ns[..|ns| - 1], toFixed);
      assert FiveCells([ReportRow(n)]);
      FiveCellsConcat(prev, [ReportRow(n)]);
      FiveCellsConcat(prev + [ReportRow(n)], mr);
    }
  }

  lemma MetricRowsFiveWide(metrics: Dict<Item>, toFixed: (real, nat) -> string)
    ensures FiveCells(MetricRows(metrics, metrics.keys, toFixed))
  {
  }

  /** The symbol cell shows a tick exactly for an improvement, a cross
      exactly for a regression, and nothing when there is no verdict. */
  lemma SymbolShows(j: Judgement)
    ensures Tidy(Symbol(j))
    ensures StripColors(Symbol(j)) == Tick <==> j == Improved
    ensures StripColors(Symbol(j)) == Cross <==> j == Regressed
    ensures StripColors(Symbol(j)) == "" <==> j == Neutral
    ensures Width(Symbol(j)) == if j == Neutral then 0 else 1
  {
    match j
    case Improved => PaintedIsTidy(Green, Tick);
    case Regressed => PaintedIsTidy(Red, Cross);
    case Neutral => PlainIsTidy("");
  }

  /** Items whose texts hold no escape and no selector. */
  ghost predicate PlainItem(key: string, item: Item) {
    Plain(key) && Plain(item.caption) && Plain(item.unit) && Plain(item.compareUnit)
  }

  /** The diff cell shows the signed difference whatever the verdict, and
      is coloured exactly when there is a verdict. */
  lemma DiffCellShows(item: Item, toFixed: (real, nat) -> string)
    requires Plain(item.compareUnit)
    requires forall x, d :: Plain(toFixed(x, d))
    ensures Tidy(DiffCell(item, toFixed))
    ensures StripColors(DiffCell(item, toFixed)) == Format(item.diff, item.compareUnit, true, toFixed)
    ensures DiffCell(item, toFixed) == Format(item.diff, item.compareUnit, true, toFixed) <==> item.judgement == Neutral
  {
    var d := Format(item.diff, item.compareUnit, true, toFixed);
    FormatIsPlain(item.diff, item.compareUnit, true, toFixed);
    match item.judgement
    case Improved => PaintedIsTidy(Green, d);
    case Regressed => PaintedIsTidy(Red, d);
    case Neutral => PlainIsTidy(d);
  }

  /** All five cells of a metric row are tidy. */
  lemma MetricRowIsTidy(key: string, item: Item, toFixed: (real, nat) -> string)
    requires PlainItem(key, item)
    requires forall x, d :: Plain(toFixed(x, d))
    ensures forall c | 0 <= c < 5 :: Tidy(MetricRow(key, item, toFixed)[c])
  {
    CaptionCellIsPlain(key, item.caption);
    PlainIsTidy("  " + item.caption + " (" + key + ")");
    StatsCellIsPlain(item.a, item.unit, toFixed);
    PlainIsTidy(StatsCell(item.a, item.unit, toFixed));
    StatsCellIsPlain(item.b, item.unit, toFixed);
    PlainIsTidy(StatsCell(item.b, item.unit, toFixed));
    DiffCellShows(item, toFixed);
    SymbolShows(item.judgement);
    AllFiveTidy(MetricRow(key, item, toFixed));
  }

  lemma AllFiveTidy(row: seq<string>)
    requires |row| == 5
    requires Tidy(row[0]) && Tidy(row[1]) && Tidy(row[2]) && Tidy(row[3]) && Tidy(row[4])
    ensures forall c | 0 <= c < 5 :: Tidy(row[c])
  {
  }

  lemma StatsCellIsPlain(s: Stats, unit: string, toFixed: (real, nat) -> string)
    requires Plain(unit)
    requires forall x, d :: Plain(toFixed(x, d))
    ensures Plain(StatsCell(s, unit, toFixed))
  {
    var m := Format(s.mean, unit, false, toFixed);
    var d := Format(s.stdev, unit, false, toFixed);
    FormatIsPlain(s.mean, unit, false, toFixed);
    FormatIsPlain(s.stdev, unit, false, toFixed);
    PlainConcat(m, " (\U{B1} ");
    PlainConcat(m + " (\U{B1} ", d);
    PlainConcat(m + " (\U{B1} " + d, ")");
  }

  lemma CaptionCellIsPlain(key: string, caption: string)
    requires Plain(key) && Plain(caption)
    ensures Plain("  " + caption + " (" + key + ")")
  {
    PlainConcat("  ", caption);
    PlainConcat("  " + caption, " (");
    PlainConcat("  " + caption + " (", key);
    PlainConcat("  " + caption + " (" + key, ")");
  }

  /** Every cell of a row is tidy. */
  ghost predicate RowTidy(row: seq<string>) {
    forall c | 0 <= c < |row| :: Tidy(row[c])
  }

  /** Every cell of every row is tidy. */
  ghost predicate AllTidy(rows: seq<seq<string>>) {
    forall r | 0 <= r < |rows| :: RowTidy(rows[r])
  }

  lemma AllTidyConcat(a: seq<seq<string>>, b: seq<seq<string>>)
    requires AllTidy(a) && AllTidy(b)
    ensures AllTidy(a + b)
  {
    forall r | 0 <= r < |a + b|
      ensures RowTidy((a + b)[r])
    {
      if r >= |a| {
        assert (a + b)[r] == b[r - |a|];
      }
    }
  }

  /** Every metric of a report has plain texts. */
  ghost predicate PlainMetrics(metrics: Dict<Item>) {
    forall k | k in metrics.vals :: PlainItem(k, metrics.vals[k])
  }

  /** Every report of a scenario has a plain name and plain metrics. */
  ghost predicate PlainReports(reports: ScenarioResult) {
    forall n | n in reports.vals :: Plain(n) && PlainMetrics(reports.vals[n])
  }

  lemma MetricRowsTidy(metrics: Dict<Item>, toFixed: (real, nat) -> string)
    requires PlainMetrics(metrics)
    requires forall x, d :: Plain(toFixed(x, d))
    ensures AllTidy(MetricRows(metrics, metrics.keys, toFixed))
  {
    var rows := MetricRows(metrics, metrics.keys, toFixed);
    forall r | 0 <= r < |rows|
      ensures RowTidy(rows[r])
    {
      var k := metrics.keys[r];
      MetricRowIsTidy(k, metrics.vals[k], toFixed);
    }
  }

  lemma ReportRowIsTidy(name: string)
    requires Plain(name)
    ensures AllTidy([ReportRow(name)])
  {
    PlainConcat(name, ":");
    PrintableIsPlain("");
    PlainRowIsTidy(ReportRow(name));
  }

  lemma {:induction false} ReportRowsTidy(reports: ScenarioResult, ns: seq<string>, toFixed: (real, nat) -> string)
    requires forall i | 0 <= i < |ns| :: ns[i] in reports.vals
    requires PlainReports(reports)
    requires forall x, d :: Plain(toFixed(x, d))
    ensures AllTidy(ReportRows(reports, ns, toFixed))
    decreases |ns|
  {
    if |ns| > 0 {
      var n := ns[|ns| - 1];
      var metrics := reports.vals[n];
      var prev := ReportRows(reports, ns[..|ns| - 1], toFixed);
      ReportRowsTidy(reports, ns[..|ns| - 1], toFixed);
      ReportRowIsTidy(n);
      MetricRowsTidy(metrics, toFixed);
      AllTidyConcat(prev, [ReportRow(n)]);
      AllTidyConcat(prev + [ReportRow(n)], MetricRows(metrics, metrics.keys, toFixed));
    }
  }

  /** Printable ASCII text is plain. */
  lemma PrintableIsPlain(s: string)
    requires forall i | 0 <= i < |s| :: ' ' <= s[i] <= '~'
    ensures Plain(s)
  {
  }

  /** A row of plain cells is tidy. */
  lemma PlainRowIsTidy(row: seq<string>)
    requires forall c | 0 <= c < |row| :: Plain(row[c])
    ensures AllTidy([row])
  {
    forall c | 0 <= c < |row|
      ensures Tidy(row[c])
    {
      PlainIsTidy(row[c]);
    }
    assert RowTidy([row][0]);
  }

  lemma BorderRowIsTidy()
    ensures AllTidy([BorderRow])
  {
    PrintableIsPlain(BorderMark);
    PrintableIsPlain("");
    PlainRowIsTidy(BorderRow);
  }

  lemma HeadRowIsTidy()
    ensures AllTidy([HeadRow])
  {
    PrintableIsPlain("Metric");
    PrintableIsPlain("Before");
    PrintableIsPlain("After");
    PrintableIsPlain("Diff");
    PrintableIsPlain("");
    PlainRowIsTidy(HeadRow);
  }

  lemma FrameIsTidy()
    ensures AllTidy([BorderRow, HeadRow, BorderRow]) && AllTidy([BorderRow])
  {
    BorderRowIsTidy();
    HeadRowIsTidy();
    AllTidyConcat([BorderRow], [HeadRow]);
    AllTidyConcat([BorderRow] + [HeadRow], [BorderRow]);
    assert [BorderRow] + [HeadRow] + [BorderRow] == [BorderRow, HeadRow, BorderRow];
  }

  /** With plain names, captions, units and digits, a scenario table is
      regular: every row has five tidy cells. */
  lemma ScenarioRegular(reports: ScenarioResult, toFixed: (real, nat) -> string)
    requires PlainReports(reports)
    requires forall x, d :: Plain(toFixed(x, d))
    ensures Regular(ScenarioRows(reports, toFixed))
  {
    var mid := ReportRows(reports, reports.keys, toFixed);
    FiveWide(reports, toFixed);
    ReportRowsTidy(reports, reports.keys, toFixed);
    FrameIsTidy();
    AllTidyConcat([BorderRow, HeadRow, BorderRow], mid);
    AllTidyConcat([BorderRow, HeadRow, BorderRow] + mid, [BorderRow]);
    var rows := ScenarioRows(reports, toFixed);
    assert AllTidy(rows);
    forall r, c | 0 <= r < |rows| && 0 <= c < |rows[r]|
      ensures Tidy(rows[r][c])
    {
      assert RowTidy(rows[r]);
    }
  }

  /** Every line of a scenario's table, borders included, has the same
      visible width, whatever colours the verdicts add. */
  lemma ScenarioAligned(name: string, reports: ScenarioResult, toFixed: (real, nat) -> string)
    requires PlainReports(reports)
    requires forall x, d :: Plain(toFixed(x, d))
    ensures Layable(ScenarioRows(reports, toFixed))
    ensures forall i | 3 <= i < |ScenarioLines(name, reports, toFixed)| ::
      Width(ScenarioLines(name, reports, toFixed)[i]) == LineWidth(ColWidths(ScenarioRows(reports, toFixed)))
  {
    var rows := ScenarioRows(reports, toFixed);
    ScenarioRegular(reports, toFixed);
    TableAligned(rows);
    var lines := ScenarioLines(name, reports, toFixed);
    var table := PrintTable(rows);
    var w := LineWidth(ColWidths(rows));
    assert forall i | 0 <= i < |table| :: Width(table[i]) == w;
    LinesAfterHeading(["", "", "### scenario " + name], table, w);
  }

  lemma LinesAfterHeading(head: seq<string>, table: seq<string>, w: nat)
    requires forall i | 0 <= i < |table| :: Width(table[i]) == w
    ensures forall i | |head| <= i < |head + table| :: Width((head + table)[i]) == w
  {
    forall i | |head| <= i < |head + table|
      ensures Width((head + table)[i]) == w
    {
      assert (head + table)[i] == table[i - |head|];
    }
  }

  /** The border rows are measured with the rest, so the marker
      `BORDER_LINE` itself widens the first column to at least twelve. */
  lemma BorderMarkWidensFirstColumn(reports: ScenarioResult, toFixed: (real, nat) -> string)
    ensures Layable(ScenarioRows(reports, toFixed))
    ensures |ColWidths(ScenarioRows(reports, toFixed))| == 5
    ensures ColWidths(ScenarioRows(reports, toFixed))[0] >= 12
  {
    FiveWide(reports, toFixed);
    var rows := ScenarioRows(reports, toFixed);
    assert rows[0][0] == BorderMark;
    PrintableIsPlain(BorderMark);
    PlainWidth(BorderMark);
  }

  /** How many metrics the reports `ns` hold together. */
  function MetricCount(reports: ScenarioResult, ns: seq<string>): nat
    requires forall i | 0 <= i < |ns| :: ns[i] in reports.vals
  {
    if |ns| == 0 then 0
    else MetricCount(reports, ns[..|ns| - 1]) + |reports.vals[ns[|ns| - 1]].keys|
  }

  /** One heading row per report and one row per metric. */
  lemma {:induction false} ReportRowsCount(reports: ScenarioResult, ns: seq<string>, toFixed: (real, nat) -> string)
    requires forall i | 0 <= i < |ns| :: ns[i] in reports.vals
    ensures |ReportRows(reports, ns, toFixed)| == |ns| + MetricCount(reports, ns)
    decreases |ns|
  {
    if |ns| > 0 {
      ReportRowsCount(reports, ns[..|ns| - 1], toFixed);
    }
  }

  /** A scenario is written as two blank lines, its heading, four border
      and head rows, and one row per report and per metric. */
  lemma ScenarioLineCount(name: string, reports: ScenarioResult, toFixed: (real, nat) -> string)
    ensures |ScenarioLines(name, reports, toFixed)| == 7 + |reports.keys| + MetricCount(reports, reports.keys)
  {
    ReportRowsCount(reports, reports.keys, toFixed);
  }
}
