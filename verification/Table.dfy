/**
  The result table printer (src/hs2client/util.cc): column widths from the cells, then
  breaks, a heading and data rows that all come out equally wide.
*/
module Table {
  import opened Columns
  import opened Decimal
  import opened Rpc

  /** A 64-bit integer other than the smallest, whose negation overflows. */
  predicate Negatable(n: int) {
    -0x8000_0000_0000_0000 < n < 0x8000_0000_0000_0000
  }

  /** The number of digits, and one more for a sign. */
  function NumSpaces(n: int): nat
    requires Negatable(n)
    decreases if n < 0 then 1 - n else n
  {
    if n < 0 then 1 + NumSpaces(-n) else if n < 10 then 1 else 1 + NumSpaces(n / 10)
  }

  /** The computed width is the length of the text that is printed. */
  lemma {:induction false} NumSpacesIsPrintedLength(n: int)
    requires Negatable(n)
    ensures NumSpaces(n) == |IntText(n)|
    decreases if n < 0 then 1 - n else n
  {
    if n < 0 {
      NumSpacesIsPrintedLength(-n);
    } else if n >= 10 {
      NumSpacesIsPrintedLength(n / 10);
    }
  }

  // ----- Columns and their cells

  datatype Cells =
    | Booleans(bools: Column<bool>)
    | Integers(ints: Column<int>)
    | Strings(texts: Column<string>)
    | Binaries(binaries: Column<string>)

  datatype PrintColumn = PrintColumn(name: string, cells: Cells)

  predicate Valid(c: PrintColumn) {
    match c.cells
    case Booleans(b) => Covered(b)
    case Integers(n) => Covered(n) && forall i :: 0 <= i < |n.data| ==> Negatable(n.data[i])
    case Strings(t) => Covered(t)
    case Binaries(t) => Covered(t)
  }

  function Length(c: PrintColumn): nat {
    match c.cells
    case Booleans(b) => |b.data|
    case Integers(n) => |n.data|
    case Strings(t) => |t.data|
    case Binaries(t) => |t.data|
  }

  /** What is printed for row `i`. */
  function Cell(c: PrintColumn, i: nat): string
    requires Valid(c) && i < Length(c)
  {
    match c.cells
    case Booleans(b) => if IsNull(b.nulls, i) then "NULL" else if b.data[i] then "true" else "false"
    case Integers(n) => if IsNull(n.nulls, i) then "NULL" else IntText(n.data[i])
    case Strings(t) => if IsNull(t.nulls, i) then "NULL" else t.data[i]
    case Binaries(t) => if IsNull(t.nulls, i) then "NULL" else t.data[i]
  }

  function Max(a: nat, b: nat): nat { if a < b then b else a }

  /** The largest of the heading, four for booleans, and the first `n` cells. */
  function Largest(c: PrintColumn, n: nat): nat
    requires Valid(c) && n <= Length(c)
  {
    if n > 0 then Max(Largest(c, n - 1), |Cell(c, n - 1)|)
    else if c.cells.Booleans? then Max(|c.name|, 4)
    else |c.name|
  }

  /** The width of a column; that of a BINARY column does not depend on its cells. */
  function WidthOf(c: PrintColumn): nat
    requires Valid(c)
  {
    if c.cells.Binaries? then |c.name| else Largest(c, Length(c))
  }

  /** The heading and the first `n` cells fit, and the width is no larger than it has to be. */
  ghost predicate FitsFirst(c: PrintColumn, w: nat, n: nat)
    requires Valid(c) && n <= Length(c)
  {
    && |c.name| <= w
    && (forall i :: 0 <= i < n ==> |Cell(c, i)| <= w)
    && (w == |c.name| || (c.cells.Booleans? && w == 4) || exists i :: 0 <= i < n && |Cell(c, i)| == w)
  }

  lemma FitsMore(c: PrintColumn, w: nat, n: nat)
    requires Valid(c) && n < Length(c) && FitsFirst(c, w, n)
    ensures FitsFirst(c, Max(w, |Cell(c, n)|), n + 1)
  {
    var w' := Max(w, |Cell(c, n)|);
    if w' != w {
      assert |Cell(c, n)| == w';
    } else if !(w == |c.name| || (c.cells.Booleans? && w == 4)) {
      var i :| 0 <= i < n && |Cell(c, i)| == w;
      assert 0 <= i < n + 1 && |Cell(c, i)| == w';
    }
  }

  lemma FitsNone(c: PrintColumn, w: nat)
    requires Valid(c) && |c.name| <= w && (w == |c.name| || (c.cells.Booleans? && w == 4))
    ensures FitsFirst(c, w, 0)
  {
  }

  lemma {:induction false} LargestFits(c: PrintColumn, n: nat)
    requires Valid(c) && n <= Length(c)
    ensures FitsFirst(c, Largest(c, n), n)
  {
    if n > 0 {
      var w := Largest(c, n - 1);
      assert FitsFirst(c, w, n - 1) by { LargestFits(c, n - 1); }
      assert Largest(c, n) == Max(w, |Cell(c, n - 1)|);
      FitsMore(c, w, n - 1);
    } else {
      FitsNone(c, Largest(c, 0));
    }
  }

  method GetIntMaxSize(c: PrintColumn) returns (maxSize: nat)
    requires Valid(c) && c.cells.Integers?
    ensures maxSize == WidthOf(c) && FitsFirst(c, maxSize, Length(c))
  {
    var column := c.cells.ints;
    maxSize := |c.name|;
    for i := 0 to |column.data|
      invariant maxSize == Largest(c, i)
    {
      if !IsNull(column.nulls, i) {
        NumSpacesIsPrintedLength(column.data[i]);
        maxSize := Max(maxSize, NumSpaces(column.data[i]));
      } else {
        maxSize := Max(maxSize, |"NULL"|);
      }
    }
    LargestFits(c, Length(c));
  }

  method GetTextMaxSize(c: PrintColumn) returns (maxSize: nat)
    requires Valid(c) && c.cells.Strings?
    ensures maxSize == WidthOf(c) && FitsFirst(c, maxSize, Length(c))
  {
    var column := c.cells.texts;
    maxSize := |c.name|;
    for j := 0 to |column.data|
      invariant maxSize == Largest(c, j)
    {
      if !IsNull(column.nulls, j) {
        maxSize := Max(maxSize, |column.data[j]|);
      } else {
        maxSize := Max(maxSize, |"NULL"|);
      }
    }
    LargestFits(c, Length(c));
  }

  lemma BooleanCell(c: PrintColumn, i: nat)
    requires Valid(c) && c.cells.Booleans? && i < Length(c)
    ensures 4 <= |Cell(c, i)| <= 5
  {
  }

  lemma {:induction false} BooleanLargest(c: PrintColumn, n: nat)
    requires Valid(c) && c.cells.Booleans? && n <= Length(c)
    ensures Max(|c.name|, 4) <= Largest(c, n) <= Max(|c.name|, 5)
  {
    if n > 0 {
      BooleanLargest(c, n - 1);
      BooleanCell(c, n - 1);
    }
  }

  lemma {:induction false} LargestGrows(c: PrintColumn, m: nat, n: nat)
    requires Valid(c) && m <= n <= Length(c)
    ensures Largest(c, m) <= Largest(c, n)
    decreases n
  {
    if m < n { LargestGrows(c, m, n - 1); }
  }

  /** No cell of a boolean column is wider than `false`, so that the search can stop there. */
  lemma FalseIsLargest(c: PrintColumn, j: nat, n: nat)
    requires Valid(c) && c.cells.Booleans? && j < n <= Length(c) && |Cell(c, j)| == 5
    ensures Largest(c, n) == Max(|c.name|, 5)
  {
    var w := Largest(c, j);
    assert |c.name| <= w by { BooleanLargest(c, j); }
    assert Largest(c, j + 1) == Max(w, |Cell(c, j)|);
    LargestGrows(c, j + 1, n);
    BooleanLargest(c, n);
  }

  /** `true` and `NULL` have four characters; only a `false` needs five. */
  method GetBoolMaxSize(c: PrintColumn) returns (maxSize: nat)
    requires Valid(c) && c.cells.Booleans?
    ensures maxSize >= 4
    ensures maxSize == WidthOf(c) && FitsFirst(c, maxSize, Length(c))
  {
    LargestFits(c, Length(c));
    var column := c.cells.bools;
    maxSize := Max(|c.name|, |"true"|);
    for j := 0 to |column.data|
      invariant maxSize == Max(|c.name|, 4) == Largest(c, j)
    {
      if !IsNull(column.nulls, j) && !column.data[j] {
        maxSize := Max(maxSize, |"false"|);
        FalseIsLargest(c, j, Length(c));
        break;
      }
    }
  }

  // ----- The printed rows

  function Repeat(c: char, n: int): (s: string)
    ensures n >= 0 ==> |s| == n
    decreases n
  {
    if n <= 0 then "" else Repeat(c, n - 1) + [c]
  }

  /** A cell behind its bar, padded to the width. */
  function Padded(text: string, w: nat): string {
    "| " + text + " " + Repeat(' ', w - |text|)
  }

  function Break(ws: seq<nat>): string {
    if ws == [] then "" else Break(ws[..|ws| - 1]) + "+" + Repeat('-', ws[|ws| - 1] + 2)
  }

  function PaddedRow(texts: seq<string>, ws: seq<nat>): string
    requires |texts| == |ws|
  {
    if texts == [] then ""
    else PaddedRow(texts[..|texts| - 1], ws[..|ws| - 1]) + Padded(texts[|texts| - 1], ws[|ws| - 1])
  }

  function Names(cs: seq<PrintColumn>): seq<string> {
    seq(|cs|, k requires 0 <= k < |cs| => cs[k].name)
  }

  /** Every column has at least `n` cells. */
  predicate Filled(cs: seq<PrintColumn>, n: nat) {
    forall k :: 0 <= k < |cs| ==> Valid(cs[k]) && n <= Length(cs[k])
  }

  function CellsOf(cs: seq<PrintColumn>, i: nat): seq<string>
    requires Filled(cs, i + 1)
  {
    seq(|cs|, k requires 0 <= k < |cs| => Cell(cs[k], i))
  }

  /** The common width, without the bar that ends a row. */
  function Width(ws: seq<nat>): nat {
    if ws == [] then 0 else Width(ws[..|ws| - 1]) + ws[|ws| - 1] + 3
  }

  function Widths(cs: seq<PrintColumn>): seq<nat>
    requires forall k :: 0 <= k < |cs| ==> Valid(cs[k])
  {
    seq(|cs|, k requires 0 <= k < |cs| => WidthOf(cs[k]))
  }

  lemma {:induction false} BreakWidth(ws: seq<nat>)
    ensures |Break(ws)| == Width(ws)
  {
    if ws != [] { BreakWidth(ws[..|ws| - 1]); }
  }

  predicate RowFits(texts: seq<string>, ws: seq<nat>)
    requires |texts| == |ws|
  {
    forall k :: 0 <= k < |ws| ==> |texts[k]| <= ws[k]
  }

  /** A row is never too short, and it is too long exactly if one of its texts is. */
  lemma {:induction false} PaddedRowWidth(texts: seq<string>, ws: seq<nat>)
    requires |texts| == |ws|
    ensures |PaddedRow(texts, ws)| >= Width(ws)
    ensures |PaddedRow(texts, ws)| == Width(ws) <==> RowFits(texts, ws)
    decreases |ws|
  {
    if ws != [] {
      var n := |ws| - 1;
      PaddedRowWidth(texts[..n], ws[..n]);
      assert RowFits(texts, ws) <==> RowFits(texts[..n], ws[..n]) && |texts[n]| <= ws[n] by { RowFitsLast(texts, ws); }
    }
  }

  lemma RowFitsLast(texts: seq<string>, ws: seq<nat>)
    requires |texts| == |ws| > 0
    ensures var n := |ws| - 1;
            RowFits(texts, ws) <==> RowFits(texts[..n], ws[..n]) && |texts[n]| <= ws[n]
  {
    var n := |ws| - 1;
    assert forall k :: 0 <= k < n ==> texts[..n][k] == texts[k] && ws[..n][k] == ws[k];
  }

  // ----- The printer

  method AddTableBreak(initial: string, ws: seq<nat>) returns (out: string)
    ensures out == initial + (Break(ws) + "+") + "\n"
  {
    out := initial;
    for i := 0 to |ws|
      invariant out == initial + Break(ws[..i])
    {
      assert ws[..i + 1][..i] == ws[..i];
      out := out + "+";
      ghost var bar := out;
      for j := 0 to ws[i] + 2
        invariant out == bar + Repeat('-', j)
      {
        out := out + "-";
      }
    }
    assert ws[..|ws|] == ws;
    out := out + "+\n";
  }

  /** One cell or heading with its padding loop. */
  method AddCell(initial: string, text: string, w: nat) returns (out: string)
    ensures out == initial + Padded(text, w)
  {
    out := initial + "| " + text + " ";
    ghost var unpadded := out;
    var padding := w - |text|;
    while padding > 0
      invariant padding <= w - |text| && (padding < 0 ==> padding == w - |text|)
      invariant out == unpadded + Repeat(' ', w - |text| - padding)
    {
      out := out + " ";
      padding := padding - 1;
    }
  }

  /** The switch over the type of a column. */
  method MaxSize(c: PrintColumn) returns (w: nat)
    requires Valid(c)
    ensures w == WidthOf(c)
  {
    match c.cells
    case Booleans(_) => w := GetBoolMaxSize(c);
    case Integers(_) => w := GetIntMaxSize(c);
    case Strings(_) => w := GetTextMaxSize(c);
    case Binaries(_) => w := |c.name|;
  }

  /** The widths that the first loop of `PrintResults` computes. */
  method MaxSizes(cs: seq<PrintColumn>) returns (ws: seq<nat>)
    requires forall k :: 0 <= k < |cs| ==> Valid(cs[k])
    ensures ws == Widths(cs)
  {
    ws := [];
    for k := 0 to |cs|
      invariant |ws| == k && forall i :: 0 <= i < k ==> ws[i] == WidthOf(cs[i])
    {
      var w := MaxSize(cs[k]);
      ws := ws + [w];
    }
  }

  /** The loop over the columns of a heading or a data row. */
  method AddRow(initial: string, texts: seq<string>, ws: seq<nat>) returns (out: string)
    requires |texts| == |ws|
    ensures out == initial + (PaddedRow(texts, ws) + "|") + "\n"
  {
    out := initial;
    for k := 0 to |ws|
      invariant out == initial + PaddedRow(texts[..k], ws[..k])
    {
      assert texts[..k + 1][..k] == texts[..k] && ws[..k + 1][..k] == ws[..k];
      out := AddCell(out, texts[k], ws[k]);
    }
    assert texts[..|ws|] == texts && ws[..|ws|] == ws;
    out := out + "|\n";
  }

  /** The text of rows, each on its own line. */
  function Lines(rows: seq<string>): string {
    if rows == [] then "" else Lines(rows[..|rows| - 1]) + rows[|rows| - 1] + "\n"
  }

  function DataRow(cs: seq<PrintColumn>, ws: seq<nat>, i: nat): string
    requires |cs| == |ws| && Filled(cs, i + 1)
  {
    PaddedRow(CellsOf(cs, i), ws) + "|"
  }

  function DataRows(cs: seq<PrintColumn>, ws: seq<nat>, n: nat): seq<string>
    requires |cs| == |ws| && Filled(cs, n)
  {
    seq(n, i requires 0 <= i < n => DataRow(cs, ws, i))
  }

  function Top(cs: seq<PrintColumn>, ws: seq<nat>): seq<string>
    requires |cs| == |ws|
  {
    [Break(ws) + "+", PaddedRow(Names(cs), ws) + "|", Break(ws) + "+"]
  }

  lemma DataRowsSnoc(cs: seq<PrintColumn>, ws: seq<nat>, n: nat)
    requires |cs| == |ws| && Filled(cs, n + 1)
    ensures Filled(cs, n) && DataRows(cs, ws, n + 1) == DataRows(cs, ws, n) + [DataRow(cs, ws, n)]
  {
    FilledLess(cs, n);
    var a, b := DataRows(cs, ws, n + 1), DataRows(cs, ws, n);
    assert forall i :: 0 <= i < n ==> a[i] == b[i];
    assert a[n] == DataRow(cs, ws, n);
    SnocOf(a, b);
  }

  lemma FilledLess(cs: seq<PrintColumn>, n: nat)
    requires Filled(cs, n + 1)
    ensures Filled(cs, n)
  {
  }

  lemma SnocOf(a: seq<string>, b: seq<string>)
    requires |a| == |b| + 1 && forall i :: 0 <= i < |b| ==> a[i] == b[i]
    ensures a == b + [a[|b|]]
  {
  }

  lemma LinesSnoc(rows: seq<string>, row: string)
    ensures Lines(rows + [row]) == Lines(rows) + row + "\n"
  {
    assert (rows + [row])[..|rows|] == rows;
  }

  /** Columns of one batch, as the server sends them. */
  predicate Even(cs: seq<PrintColumn>) {
    cs != [] && forall k :: 0 <= k < |cs| ==> Valid(cs[k]) && Length(cs[k]) == Length(cs[0])
  }

  /** No BINARY cell of the row is longer than the name of its column. */
  predicate BinariesFit(cs: seq<PrintColumn>, i: nat)
    requires Filled(cs, i + 1)
  {
    forall k :: 0 <= k < |cs| && cs[k].cells.Binaries? ==> |Cell(cs[k], i)| <= |cs[k].name|
  }

  /** The columns whose cells always fit are those whose widths are computed from them. */
  lemma RowFitsIff(cs: seq<PrintColumn>, i: nat)
    requires Even(cs) && i < Length(cs[0])
    ensures RowFits(CellsOf(cs, i), Widths(cs)) <==> BinariesFit(cs, i)
  {
    var texts, ws := CellsOf(cs, i), Widths(cs);
    forall k | 0 <= k < |cs| && !cs[k].cells.Binaries? ensures |texts[k]| <= ws[k] {
      LargestFits(cs[k], Length(cs[k]));
    }
    assert forall k :: 0 <= k < |cs| && cs[k].cells.Binaries? ==> ws[k] == |cs[k].name| && texts[k] == Cell(cs[k], i);
  }

  lemma NamesFit(cs: seq<PrintColumn>)
    requires Even(cs)
    ensures RowFits(Names(cs), Widths(cs))
  {
    forall k | 0 <= k < |cs| ensures |Names(cs)[k]| <= Widths(cs)[k] {
      LargestFits(cs[k], Length(cs[k]));
    }
  }

  /** All rows of the table of a batch. */
  function TableOf(cs: seq<PrintColumn>): seq<string>
    requires Even(cs)
  {
    var ws := Widths(cs);
    Top(cs, ws) + DataRows(cs, ws, Length(cs[0])) + [Break(ws) + "+"]
  }

  lemma RowsAt(top: seq<string>, data: seq<string>, last: string, rows: seq<string>)
    requires |top| == 3 && rows == top + data + [last]
    ensures |rows| == |data| + 4 && rows[0] == top[0] && rows[1] == top[1] && rows[2] == top[2]
    ensures rows[|data| + 3] == last && forall i :: 0 <= i < |data| ==> rows[i + 3] == data[i]
  {
  }

  lemma TableRow(cs: seq<PrintColumn>, i: nat)
    requires Even(cs) && i < Length(cs[0])
    ensures |TableOf(cs)| == Length(cs[0]) + 4 && TableOf(cs)[i + 3] == DataRow(cs, Widths(cs), i)
  {
    var ws, n := Widths(cs), Length(cs[0]);
    var data := DataRows(cs, ws, n);
    assert data[i] == DataRow(cs, ws, i);
    RowsAt(Top(cs, ws), data, Break(ws) + "+", TableOf(cs));
  }

  /** Breaks and heading have the common width. */
  lemma FrameWidths(cs: seq<PrintColumn>)
    requires Even(cs)
    ensures var rows, n, w := TableOf(cs), Length(cs[0]), 1 + Width(Widths(cs));
            |rows| == n + 4 && |rows[0]| == |rows[1]| == |rows[2]| == |rows[n + 3]| == w
  {
    var ws := Widths(cs);
    RowsAt(Top(cs, ws), DataRows(cs, ws, Length(cs[0])), Break(ws) + "+", TableOf(cs));
    HeadingWidth(cs);
    BreakWidth(ws);
  }

  /** A data row has it if and only if none of its BINARY cells is longer than the name of the column. */
  lemma TableWidths(cs: seq<PrintColumn>, i: nat)
    requires Even(cs) && i < Length(cs[0])
    ensures |TableOf(cs)| == Length(cs[0]) + 4
    ensures |TableOf(cs)[i + 3]| == 1 + Width(Widths(cs)) <==> BinariesFit(cs, i)
  {
    TableRow(cs, i);
    DataRowWidth(cs, i);
  }

  lemma HeadingWidth(cs: seq<PrintColumn>)
    requires Even(cs)
    ensures |PaddedRow(Names(cs), Widths(cs))| == Width(Widths(cs))
  {
    NamesFit(cs);
    PaddedRowWidth(Names(cs), Widths(cs));
  }

  lemma DataRowWidth(cs: seq<PrintColumn>, i: nat)
    requires Even(cs) && i < Length(cs[0])
    ensures |DataRow(cs, Widths(cs), i)| == 1 + Width(Widths(cs)) <==> BinariesFit(cs, i)
  {
    PaddedRowWidth(CellsOf(cs, i), Widths(cs));
    RowFitsIff(cs, i);
  }

  // ----- What a reader of the table sees

  /** From `o` on the row shows the text in a column of width `w`: bar, blank, text, blanks. */
  ghost predicate ShowsAt(row: string, o: nat, text: string, w: nat) {
    && |text| <= w && o + w + 3 <= |row|
    && row[o] == '|' && row[o + 1] == ' ' && row[o + 2..o + 2 + |text|] == text
    && forall j :: o + 2 + |text| <= j < o + w + 3 ==> row[j] == ' '
  }

  lemma {:induction false} RepeatAt(c: char, n: nat)
    ensures forall j :: 0 <= j < n ==> Repeat(c, n)[j] == c
  {
    if n > 0 { RepeatAt(c, n - 1); }
  }

  lemma PaddedShows(u: string, text: string, w: nat)
    requires |text| <= w
    ensures ShowsAt(u + Padded(text, w), |u|, text, w)
  {
    RepeatAt(' ', w - |text|);
    var p, row := Padded(text, w), u + Padded(text, w);
    assert p == "| " + text + " " + Repeat(' ', w - |text|);
    assert row[|u| + 2..|u| + 2 + |text|] == p[2..2 + |text|] == text;
    forall j | |u| + 2 + |text| <= j < |u| + w + 3 ensures row[j] == ' ' {
      assert row[j] == p[j - |u|];
    }
  }

  lemma ShowsMore(row: string, v: string, o: nat, text: string, w: nat)
    requires ShowsAt(row, o, text, w)
    ensures ShowsAt(row + v, o, text, w)
  {
    assert (row + v)[o + 2..o + 2 + |text|] == row[o + 2..o + 2 + |text|];
  }

  /** A row whose texts fit shows each of them in its column. */
  lemma {:induction false} RowShows(texts: seq<string>, ws: seq<nat>, k: nat)
    requires |texts| == |ws| && RowFits(texts, ws) && k < |ws|
    ensures ShowsAt(PaddedRow(texts, ws), Width(ws[..k]), texts[k], ws[k])
    decreases |ws|
  {
    var n := |ws| - 1;
    RowFitsLast(texts, ws);
    PaddedRowWidth(texts[..n], ws[..n]);
    if k == n {
      PaddedShows(PaddedRow(texts[..n], ws[..n]), texts[n], ws[n]);
    } else {
      RowShows(texts[..n], ws[..n], k);
      assert ws[..n][..k] == ws[..k];
      ShowsMore(PaddedRow(texts[..n], ws[..n]), Padded(texts[n], ws[n]), Width(ws[..k]), texts[k], ws[k]);
    }
  }

  /** A corner where each column begins, and dashes between. */
  lemma {:induction false} BreakShows(ws: seq<nat>, k: nat)
    requires k < |ws|
    ensures var o := Width(ws[..k]);
            && o + ws[k] + 3 <= |Break(ws)| && Break(ws)[o] == '+'
            && forall j :: o < j < o + ws[k] + 3 ==> Break(ws)[j] == '-'
    decreases |ws|
  {
    var n := |ws| - 1;
    var u, d := Break(ws[..n]), Repeat('-', ws[n] + 2);
    BreakWidth(ws[..n]);
    if k == n {
      RepeatAt('-', ws[n] + 2);
      assert forall j :: |u| < j < |u| + ws[n] + 3 ==> (u + "+" + d)[j] == d[j - |u| - 1];
    } else {
      BreakShows(ws[..n], k);
      assert ws[..n][..k] == ws[..k];
      assert forall j :: 0 <= j < |u| ==> (u + "+" + d)[j] == u[j];
    }
  }

  /** What is shown for a value. */
  ghost predicate Stands(text: string, c: PrintColumn, i: nat)
    requires Valid(c) && i < Length(c)
  {
    match c.cells
    case Booleans(b) => text == if IsNull(b.nulls, i) then "NULL" else if b.data[i] then "true" else "false"
    case Integers(n) =>
      if IsNull(n.nulls, i) then text == "NULL"
      else if n.data[i] < 0 then text != [] && text[0] == '-' && IsNumeral(text[1..]) && Value(text[1..]) == -n.data[i]
      else AllDigits(text) && Value(text) == n.data[i] && (IsNumeral(text) || text == "0")
    case Strings(t) => text == if IsNull(t.nulls, i) then "NULL" else t.data[i]
    case Binaries(t) => text == if IsNull(t.nulls, i) then "NULL" else t.data[i]
  }

  lemma CellStands(c: PrintColumn, i: nat)
    requires Valid(c) && i < Length(c)
    ensures Stands(Cell(c, i), c, i)
  {
    if c.cells.Integers? && !IsNull(c.cells.ints.nulls, i) { IntTextReads(c.cells.ints.data[i]); }
  }

  /** The heading shows the name of each column, where the column begins. */
  lemma HeadingShows(cs: seq<PrintColumn>, k: nat)
    requires Even(cs) && k < |cs|
    ensures |TableOf(cs)| > 1 && ShowsAt(TableOf(cs)[1], Width(Widths(cs)[..k]), cs[k].name, WidthOf(cs[k]))
  {
    var ws := Widths(cs);
    NamesFit(cs);
    RowShows(Names(cs), ws, k);
    RowsAt(Top(cs, ws), DataRows(cs, ws, Length(cs[0])), Break(ws) + "+", TableOf(cs));
    ShowsMore(PaddedRow(Names(cs), ws), "|", Width(ws[..k]), cs[k].name, ws[k]);
  }

  /** The first, third and last row show corners and dashes, and end with a corner. */
  lemma BreaksShow(cs: seq<PrintColumn>, r: nat, k: nat)
    requires Even(cs) && k < |cs| && (r == 0 || r == 2 || r == Length(cs[0]) + 3)
    ensures r < |TableOf(cs)|
    ensures var row, o := TableOf(cs)[r], Width(Widths(cs)[..k]);
            && o + WidthOf(cs[k]) + 3 < |row| && row[o] == '+' && row[|row| - 1] == '+'
            && forall j :: o < j < o + WidthOf(cs[k]) + 3 ==> row[j] == '-'
  {
    var ws := Widths(cs);
    BreakShows(ws, k);
    RowsAt(Top(cs, ws), DataRows(cs, ws, Length(cs[0])), Break(ws) + "+", TableOf(cs));
  }

  /** A data row that lines up shows the value of each column, where the column begins. */
  lemma DataShows(cs: seq<PrintColumn>, i: nat, k: nat) returns (text: string)
    requires Even(cs) && i < Length(cs[0]) && k < |cs| && BinariesFit(cs, i)
    ensures Stands(text, cs[k], i) && |TableOf(cs)| == Length(cs[0]) + 4
    ensures ShowsAt(TableOf(cs)[i + 3], Width(Widths(cs)[..k]), text, WidthOf(cs[k]))
  {
    var ws, texts := Widths(cs), CellsOf(cs, i);
    text := Cell(cs[k], i);
    CellStands(cs[k], i);
    RowFitsIff(cs, i);
    RowShows(texts, ws, k);
    TableRow(cs, i);
    ShowsMore(PaddedRow(texts, ws), "|", Width(ws[..k]), text, ws[k]);
  }

  /** A BINARY column `b` with the cell `xy` does not line up. */
  lemma BinarySticksOut(c: PrintColumn)
    requires c == PrintColumn("b", Binaries(Column(["xy"], [0])))
    ensures Even([c]) && |TableOf([c])| == 5 && |TableOf([c])[3]| != |TableOf([c])[1]|
  {
    assert [c][0] == c && Cell(c, 0) == "xy";
    assert !BinariesFit([c], 0);
    FrameWidths([c]);
    TableWidths([c], 0);
  }

  method AddTop(cs: seq<PrintColumn>, ws: seq<nat>) returns (out: string)
    requires |cs| == |ws| && forall k :: 0 <= k < |cs| ==> Valid(cs[k])
    ensures out == Lines(Top(cs, ws))
  {
    ghost var bar, heading := Break(ws) + "+", PaddedRow(Names(cs), ws) + "|";
    out := AddTableBreak("", ws);
    LinesSnoc([], bar);
    assert [] + [bar] == [bar];
    out := AddRow(out, Names(cs), ws);
    LinesSnoc([bar], heading);
    assert [bar] + [heading] == [bar, heading];
    out := AddTableBreak(out, ws);
    LinesSnoc([bar, heading], bar);
    assert [bar, heading] + [bar] == [bar, heading, bar];
  }

  method AddData(initial: string, cs: seq<PrintColumn>, ws: seq<nat>, n: nat, ghost top: seq<string>)
    returns (out: string)
    requires |cs| == |ws| && Filled(cs, n) && initial == Lines(top)
    ensures out == Lines(top + DataRows(cs, ws, n))
  {
    out := initial;
    assert top + DataRows(cs, ws, 0) == top;
    for i := 0 to n
      invariant out == Lines(top + DataRows(cs, ws, i))
    {
      DataRowsSnoc(cs, ws, i);
      ghost var before := top + DataRows(cs, ws, i);
      assert top + DataRows(cs, ws, i + 1) == before + [DataRow(cs, ws, i)];
      LinesSnoc(before, DataRow(cs, ws, i));
      out := AddRow(out, CellsOf(cs, i), ws);
    }
  }

  /** The printed batch is the lines of its table. */
  method PrintBatch(cs: seq<PrintColumn>) returns (out: string)
    requires Even(cs)
    ensures out == Lines(TableOf(cs))
  {
    var ws := MaxSizes(cs);
    out := AddTop(cs, ws);
    out := AddData(out, cs, ws, Length(cs[0]), Top(cs, ws));
    out := AddTableBreak(out, ws);
    LinesSnoc(Top(cs, ws) + DataRows(cs, ws, Length(cs[0])), Break(ws) + "+");
  }

  // ----- All batches

  /** What one turn of the loop gets: a fetch and then the metadata, either of which may fail. */
  datatype Turn = Turn(fetched: Status, hasMoreRows: bool, described: Status, columns: seq<PrintColumn>)

  /** The turn prints a table. */
  predicate Prints(t: Turn) {
    t.fetched.Ok() && t.described.Ok() && t.columns != []
  }

  predicate Printable(t: Turn) {
    Prints(t) ==> Even(t.columns)
  }

  predicate AllPrintable(turns: seq<Turn>) {
    forall i :: 0 <= i < |turns| ==> Printable(turns[i])
  }

  /** What a turn prints: a table, or a message. */
  function TurnText(t: Turn): string
    requires Printable(t)
  {
    if !t.fetched.Ok() then t.fetched.message
    else if !t.described.Ok() then t.described.message
    else if t.columns == [] then "No result set to print.\n"
    else Lines(TableOf(t.columns))
  }

  function Texts(turns: seq<Turn>, n: nat): string
    requires AllPrintable(turns) && n <= |turns|
  {
    if n == 0 then "" else Texts(turns, n - 1) + TurnText(turns[n - 1])
  }

  /** The turn is not the last one. */
  predicate GoesOn(t: Turn) {
    Prints(t) && t.hasMoreRows
  }

  /** The loop ends with turn number `n`, or waits for it. */
  predicate Stops(turns: seq<Turn>, n: nat) {
    n <= |turns| && AllGoOn(turns[..n]) && (n < |turns| ==> !GoesOn(turns[n]))
  }

  predicate AllGoOn(turns: seq<Turn>) {
    forall i :: 0 <= i < |turns| ==> GoesOn(turns[i])
  }

  lemma AllGoOnMore(turns: seq<Turn>, n: nat)
    requires n < |turns| && AllGoOn(turns[..n]) && GoesOn(turns[n])
    ensures AllGoOn(turns[..n + 1])
  {
    assert turns[..n + 1] == turns[..n] + [turns[n]];
  }

  method PrintTurn(turn: Turn) returns (text: string, more: bool)
    requires Printable(turn)
    ensures text == TurnText(turn) && more == GoesOn(turn)
    ensures !turn.fetched.Ok() ==> text == turn.fetched.message
    ensures turn.fetched.Ok() && !turn.described.Ok() ==> text == turn.described.message
    ensures turn.fetched.Ok() && turn.described.Ok() && turn.columns == [] ==> text == "No result set to print.\n"
  {
    if !turn.fetched.Ok() { return turn.fetched.message, false; }
    if !turn.described.Ok() { return turn.described.message, false; }
    if turn.columns == [] { return "No result set to print.\n", false; }
    text := PrintBatch(turn.columns);
    more := turn.hasMoreRows;
  }

  /**
    The output is that of the turns up to the first that has no more rows, fails or has no
    columns: a table for every turn but for a failing last one, which prints its message.
  */
  method PrintResults(turns: seq<Turn>) returns (out: string, n: nat)
    requires AllPrintable(turns)
    ensures Stops(turns, n)
    ensures out == Texts(turns, if n < |turns| then n + 1 else n)
  {
    out := "";
    var more := true;
    var i := 0;
    while more && i < |turns|
      invariant i <= |turns| && (more ==> AllGoOn(turns[..i])) && (!more ==> i > 0 && Stops(turns, i - 1))
      invariant out == Texts(turns, i)
      decreases more, |turns| - i
    {
      var text;
      text, more := PrintTurn(turns[i]);
      if more { AllGoOnMore(turns, i); }
      out := out + text;
      i := i + 1;
    }
    n := if more then i else i - 1;
  }
}
