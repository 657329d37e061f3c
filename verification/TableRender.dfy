/** Drawing a table with fitted columns (src/fleet_tui.rs). */
module TableRender {
  import opened Wrappers
  import opened Naturals
  import opened TableWidths

  /** A character and its width; control characters have none. */
  datatype Glyph = Glyph(c: char, width: Option<nat>) {
    /** What the truncation loop counts for the character. */
    function Counted(): nat {
      match width
      case Some(w) => w
      case None => 0
    }

    /** What the character adds to the display width of a string. */
    function Shown(): nat {
      match width
      case Some(w) => w
      case None => 1
    }
  }

  type Cell = seq<Glyph>

  const SPACE := Glyph(' ', Some(1))
  const ELLIPSIS := Glyph('\U{2026}', Some(1))
  const BAR := Glyph('\U{2502}', Some(1))
  const DASH := Glyph('\U{2500}', Some(1))

  datatype Align = Left | Center | Right

  function DisplayWidth(s: Cell): nat {
    if s == [] then 0 else s[0].Shown() + DisplayWidth(s[1..])
  }

  /** No control characters: counting and showing agree. */
  predicate Regular(s: Cell) {
    forall i :: 0 <= i < |s| ==> s[i].width.Some?
  }

  function Controls(s: Cell): nat {
    if s == [] then 0 else (if s[0].width.None? then 1 else 0) + Controls(s[1..])
  }

  /** The width the truncation loop adds up. */
  function CountedWidth(s: Cell): nat {
    if s == [] then 0 else s[0].Counted() + CountedWidth(s[1..])
  }

  lemma {:induction false} WidthConcat(s: Cell, t: Cell)
    ensures DisplayWidth(s + t) == DisplayWidth(s) + DisplayWidth(t)
    decreases |s|
  {
    if s == [] {
      assert s + t == t;
    } else {
      WidthConcat(s[1..], t);
      assert (s + t)[1..] == s[1..] + t;
    }
  }

  function Copies(g: Glyph, n: nat): Cell {
    if n == 0 then [] else [g] + Copies(g, n - 1)
  }

  lemma {:induction false} CopiesWidth(g: Glyph, n: nat)
    requires g.Shown() == 1
    ensures DisplayWidth(Copies(g, n)) == n
  {
    if n > 0 {
      CopiesWidth(g, n - 1);
      assert Copies(g, n)[1..] == Copies(g, n - 1);
    }
  }

  lemma OneWide(g: Glyph)
    requires g.Shown() == 1
    ensures DisplayWidth([g]) == 1
  {
    assert [g][1..] == [];
  }

  // ---- truncating and padding a cell ----

  /** How many characters fit before the counted width would exceed `target`. */
  function FittingCount(s: Cell, target: nat): (n: nat)
    ensures n <= |s|
  {
    if s == [] || s[0].Counted() > target then 0
    else 1 + FittingCount(s[1..], target - s[0].Counted())
  }

  function FittingPrefix(s: Cell, target: nat): Cell {
    s[..FittingCount(s, target)]
  }

  function Truncated(content: Cell, width: nat): Cell {
    if DisplayWidth(content) <= width then content
    else if width == 0 then []
    else if width == 1 then [ELLIPSIS]
    else FittingPrefix(content, width - 1) + [ELLIPSIS]
  }

  method TruncateDisplay(content: Cell, width: nat) returns (out: Cell)
    ensures out == Truncated(content, width)
  {
    if DisplayWidth(content) <= width {
      return content;
    }
    if width == 0 {
      return [];
    }
    if width == 1 {
      return [ELLIPSIS];
    }
    var target := width - 1;
    out := [];
    var used := 0;
    var i: nat := 0;
    while i < |content|
      invariant i <= |content| && used <= target && out == content[..i]
      invariant FittingCount(content, target) == i + FittingCount(content[i..], target - used)
    {
      var w := content[i].Counted();
      assert content[i..][1..] == content[i + 1..];
      if used + w > target {
        break;
      }
      out := out + [content[i]];
      used := used + w;
      i := i + 1;
    }
    assert FittingCount(content[i..], target - used) == 0;
    out := out + [ELLIPSIS];
  }

  lemma {:induction false} FittingPrefixWidth(s: Cell, target: nat)
    ensures DisplayWidth(FittingPrefix(s, target)) <= target + Controls(FittingPrefix(s, target))
    ensures Regular(s) ==> Controls(FittingPrefix(s, target)) == 0
    decreases |s|
  {
    var r := FittingPrefix(s, target);
    if r != [] {
      var rest := FittingPrefix(s[1..], target - s[0].Counted());
      FittingPrefixWidth(s[1..], target - s[0].Counted());
      assert r[1..] == rest && r[0] == s[0];
    }
  }

  /** A truncated cell overshoots by at most its control characters, so a regular one never does. */
  lemma TruncatedWidth(content: Cell, width: nat)
    ensures DisplayWidth(Truncated(content, width)) <= width + Controls(Truncated(content, width))
    ensures Regular(content) ==> DisplayWidth(Truncated(content, width)) <= width
  {
    var r := Truncated(content, width);
    if DisplayWidth(content) > width >= 2 {
      var p := FittingPrefix(content, width - 1);
      FittingPrefixWidth(content, width - 1);
      WidthConcat(p, [ELLIPSIS]);
      ControlsConcat(p, [ELLIPSIS]);
      assert [ELLIPSIS][1..] == [];
    } else if DisplayWidth(content) > width == 1 {
      assert [ELLIPSIS][1..] == [];
    }
  }

  lemma {:induction false} ControlsConcat(s: Cell, t: Cell)
    ensures Controls(s + t) == Controls(s) + Controls(t)
    decreases |s|
  {
    if s == [] {
      assert s + t == t;
    } else {
      ControlsConcat(s[1..], t);
      assert (s + t)[1..] == s[1..] + t;
    }
  }

  function PadCell(content: Cell, width: nat, align: Align): Cell {
    var clipped := Truncated(content, width);
    var len := DisplayWidth(clipped);
    var pad := if width >= len then width - len else 0;
    match align
    case Left => clipped + Copies(SPACE, pad)
    case Right => Copies(SPACE, pad) + clipped
    case Center => Copies(SPACE, pad / 2) + clipped + Copies(SPACE, pad - pad / 2)
  }

  lemma {:induction false} FittingIsLongest(s: Cell, target: nat, k: nat)
    requires k <= |s|
    ensures CountedWidth(s[..k]) <= target <==> k <= FittingCount(s, target)
    decreases |s|
  {
    if k > 0 {
      assert s[..k][1..] == s[1..][..k - 1] && s[..k][0] == s[0];
      if s[0].Counted() <= target {
        FittingIsLongest(s[1..], target - s[0].Counted(), k - 1);
      }
    }
  }

  lemma PrefixWidth(s: Cell, k: nat, m: nat)
    requires k <= m <= |s|
    ensures DisplayWidth(s[..k]) <= DisplayWidth(s[..m])
  {
    WidthConcat(s[..k], s[k..m]);
    assert s[..k] + s[k..m] == s[..m];
  }

  /**
   * The content must be cut, and some start of it counts as less than the column but
   * shows as wide as it: it holds that many control characters.
   */
  ghost predicate Overshoots(content: Cell, width: nat) {
    && DisplayWidth(content) > width >= 2
    && exists k :: 0 <= k <= |content| && CountedWidth(content[..k]) < width <= DisplayWidth(content[..k])
  }

  lemma OvershootIsPrefix(content: Cell, width: nat)
    requires width >= 2
    ensures (exists k :: 0 <= k <= |content| && CountedWidth(content[..k]) < width <= DisplayWidth(content[..k]))
            <==> DisplayWidth(FittingPrefix(content, width - 1)) >= width
  {
    var n := FittingCount(content, width - 1);
    FittingIsLongest(content, width - 1, n);
    forall k | 0 <= k <= |content| && CountedWidth(content[..k]) < width <= DisplayWidth(content[..k])
      ensures DisplayWidth(content[..n]) >= width
    {
      FittingIsLongest(content, width - 1, k);
      PrefixWidth(content, k, n);
    }
  }

  /** A truncated cell is too wide for its column exactly when its content overshoots. */
  lemma TruncatedFits(content: Cell, width: nat)
    ensures DisplayWidth(Truncated(content, width)) <= width <==> !Overshoots(content, width)
    ensures Regular(content) ==> !Overshoots(content, width)
  {
    TruncatedWidth(content, width);
    OneWide(ELLIPSIS);
    if width >= 2 {
      OvershootIsPrefix(content, width);
      WidthConcat(FittingPrefix(content, width - 1), [ELLIPSIS]);
    }
  }

  /** A padded cell is never narrower than its column. */
  lemma PadCellClipped(content: Cell, width: nat, align: Align)
    ensures var clipped := DisplayWidth(Truncated(content, width));
            DisplayWidth(PadCell(content, width, align)) == if clipped <= width then width else clipped
  {
    var clipped := Truncated(content, width);
    var len := DisplayWidth(clipped);
    var pad := if width >= len then width - len else 0;
    CopiesWidth(SPACE, pad);
    CopiesWidth(SPACE, pad / 2);
    CopiesWidth(SPACE, pad - pad / 2);
    WidthConcat(clipped, Copies(SPACE, pad));
    WidthConcat(Copies(SPACE, pad), clipped);
    WidthConcat(Copies(SPACE, pad / 2), clipped);
    WidthConcat(Copies(SPACE, pad / 2) + clipped, Copies(SPACE, pad - pad / 2));
  }

  /** A padded cell fills its column exactly when its content does not overshoot. */
  lemma PadCellWidth(content: Cell, width: nat, align: Align)
    ensures DisplayWidth(PadCell(content, width, align)) >= width
    ensures DisplayWidth(PadCell(content, width, align)) == width <==> !Overshoots(content, width)
    ensures Regular(content) ==> DisplayWidth(PadCell(content, width, align)) == width
  {
    TruncatedFits(content, width);
    PadCellClipped(content, width, align);
  }

  /** Control characters can push a truncated cell past its column: `n` of them, shown but not counted. */
  lemma ControlWitness(g: Glyph, n: nat, align: Align)
    requires g.width.None? && n > 2
    ensures DisplayWidth(PadCell(Copies(g, n), 2, align)) == n + 1
  {
    CopiesWidth(g, n);
    ControlsFit(g, n, 1);
    WidthConcat(Copies(g, n), [ELLIPSIS]);
    assert [ELLIPSIS][1..] == [];
    PadCellClipped(Copies(g, n), 2, align);
  }

  lemma {:induction false} ControlsFit(g: Glyph, n: nat, target: nat)
    requires g.width.None?
    ensures |Copies(g, n)| == n && FittingCount(Copies(g, n), target) == n
    ensures FittingPrefix(Copies(g, n), target) == Copies(g, n)
  {
    if n > 0 {
      ControlsFit(g, n - 1, target);
      assert Copies(g, n)[1..] == Copies(g, n - 1);
    }
  }

  // ---- rows and rules ----

  function CellAt(row: seq<Cell>, c: nat): Cell {
    if c < |row| then row[c] else []
  }

  function AlignAt(aligns: seq<Align>, c: nat): Align {
    if c < |aligns| then aligns[c] else Left
  }

  /** The cells of a row up to column `c`, each between spaces and followed by a bar. */
  function RowCells(row: seq<Cell>, widths: seq<nat>, aligns: seq<Align>, c: nat): Cell
    requires c <= |widths|
  {
    if c == 0 then []
    else
      RowCells(row, widths, aligns, c - 1)
      + ([SPACE] + PadCell(CellAt(row, c - 1), widths[c - 1], AlignAt(aligns, c - 1)) + [SPACE] + [BAR])
  }

  function DataRow(row: seq<Cell>, widths: seq<nat>, aligns: seq<Align>): Cell {
    [BAR] + RowCells(row, widths, aligns, |widths|)
  }

  function RuleCells(widths: seq<nat>, mid: Glyph, right: Glyph, c: nat): Cell
    requires c <= |widths|
  {
    if c == 0 then []
    else
      RuleCells(widths, mid, right, c - 1)
      + (Copies(DASH, widths[c - 1] + 2) + [if c == |widths| then right else mid])
  }

  function Rule(widths: seq<nat>, left: Glyph, mid: Glyph, right: Glyph): Cell {
    [left] + RuleCells(widths, mid, right, |widths|)
  }

  /** No cell of the row overshoots its column. */
  ghost predicate RowFits(row: seq<Cell>, widths: seq<nat>) {
    forall k :: 0 <= k < |widths| ==> !Overshoots(CellAt(row, k), widths[k])
  }

  /** None of its first `c` cells does. */
  ghost predicate CellsFit(row: seq<Cell>, widths: seq<nat>, c: nat)
    requires c <= |widths|
  {
    c == 0 || (CellsFit(row, widths, c - 1) && !Overshoots(CellAt(row, c - 1), widths[c - 1]))
  }

  lemma {:induction false} CellsFitAll(row: seq<Cell>, widths: seq<nat>, c: nat)
    requires c <= |widths|
    ensures CellsFit(row, widths, c) <==> forall k :: 0 <= k < c ==> !Overshoots(CellAt(row, k), widths[k])
  {
    if c > 0 {
      CellsFitAll(row, widths, c - 1);
    }
  }

  lemma BoxedWidth(padded: Cell)
    ensures DisplayWidth([SPACE] + padded + [SPACE] + [BAR]) == DisplayWidth(padded) + 3
  {
    OneWide(SPACE);
    OneWide(BAR);
    WidthConcat([SPACE], padded);
    WidthConcat([SPACE] + padded, [SPACE]);
    WidthConcat([SPACE] + padded + [SPACE], [BAR]);
  }

  /** The first `c` cells of a row are as wide as their columns exactly when they fit, and never narrower. */
  ghost predicate CellsWidth(row: seq<Cell>, widths: seq<nat>, aligns: seq<Align>, c: nat)
    requires c <= |widths|
  {
    var width := DisplayWidth(RowCells(row, widths, aligns, c));
    width >= Sum(widths[..c]) + 3 * c && (width == Sum(widths[..c]) + 3 * c <==> CellsFit(row, widths, c))
  }

  lemma {:induction false} RowCellsWidth(row: seq<Cell>, widths: seq<nat>, aligns: seq<Align>, c: nat)
    requires c <= |widths|
    ensures CellsWidth(row, widths, aligns, c)
    decreases c
  {
    if c == 0 {
      NoCells(row, widths, aligns);
    } else {
      RowCellsWidth(row, widths, aligns, c - 1);
      OneCellMore(row, widths, aligns, c);
    }
  }

  lemma NoCells(row: seq<Cell>, widths: seq<nat>, aligns: seq<Align>)
    ensures CellsWidth(row, widths, aligns, 0)
  {
    assert widths[..0] == [];
  }

  lemma OneCellMore(row: seq<Cell>, widths: seq<nat>, aligns: seq<Align>, c: nat)
    requires 0 < c <= |widths| && CellsWidth(row, widths, aligns, c - 1)
    ensures CellsWidth(row, widths, aligns, c)
  {
    RowStep(row, widths, aligns, c);
    var padded := PadCell(CellAt(row, c - 1), widths[c - 1], AlignAt(aligns, c - 1));
    PadCellWidth(CellAt(row, c - 1), widths[c - 1], AlignAt(aligns, c - 1));
    NoSlack(DisplayWidth(RowCells(row, widths, aligns, c - 1)), Sum(widths[..c - 1]) + 3 * (c - 1),
            DisplayWidth(padded), widths[c - 1]);
  }

  /** What is never too small adds up exactly only when every part is exact. */
  lemma NoSlack(a: int, b: int, c: int, d: int)
    requires a >= b && c >= d
    ensures a + c + 3 >= b + d + 3 && (a + c + 3 == b + d + 3 <==> a == b && c == d)
  {
  }

  lemma RowStep(row: seq<Cell>, widths: seq<nat>, aligns: seq<Align>, c: nat)
    requires 0 < c <= |widths|
    ensures Sum(widths[..c]) == Sum(widths[..c - 1]) + widths[c - 1]
    ensures DisplayWidth(RowCells(row, widths, aligns, c))
         == DisplayWidth(RowCells(row, widths, aligns, c - 1))
          + DisplayWidth(PadCell(CellAt(row, c - 1), widths[c - 1], AlignAt(aligns, c - 1))) + 3
  {
    var padded := PadCell(CellAt(row, c - 1), widths[c - 1], AlignAt(aligns, c - 1));
    BoxedWidth(padded);
    WidthConcat(RowCells(row, widths, aligns, c - 1), [SPACE] + padded + [SPACE] + [BAR]);
    assert widths[..c][..c - 1] == widths[..c - 1];
  }

  /** A row is as wide as the table exactly when none of its cells overshoots. */
  lemma DataRowWidth(row: seq<Cell>, widths: seq<nat>, aligns: seq<Align>)
    ensures DisplayWidth(DataRow(row, widths, aligns)) >= RenderWidth(widths)
    ensures DisplayWidth(DataRow(row, widths, aligns)) == RenderWidth(widths) <==> RowFits(row, widths)
  {
    CellsFitAll(row, widths, |widths|);
    RowCellsWidth(row, widths, aligns, |widths|);
    OneWide(BAR);
    WidthConcat([BAR], RowCells(row, widths, aligns, |widths|));
    assert widths[..|widths|] == widths;
  }

  /** Without control characters no cell does. */
  lemma RegularFits(row: seq<Cell>, widths: seq<nat>)
    requires forall i :: 0 <= i < |row| ==> Regular(row[i])
    ensures RowFits(row, widths)
  {
    forall k | 0 <= k < |widths|
      ensures !Overshoots(CellAt(row, k), widths[k])
    {
      TruncatedFits(CellAt(row, k), widths[k]);
    }
  }

  lemma {:induction false} RuleCellsWidth(widths: seq<nat>, mid: Glyph, right: Glyph, c: nat)
    requires c <= |widths| && mid.Shown() == 1 && right.Shown() == 1
    ensures DisplayWidth(RuleCells(widths, mid, right, c)) == Sum(widths[..c]) + 3 * c
  {
    if c > 0 {
      var corner := if c == |widths| then right else mid;
      RuleCellsWidth(widths, mid, right, c - 1);
      CopiesWidth(DASH, widths[c - 1] + 2);
      OneWide(corner);
      WidthConcat(Copies(DASH, widths[c - 1] + 2), [corner]);
      WidthConcat(RuleCells(widths, mid, right, c - 1), Copies(DASH, widths[c - 1] + 2) + [corner]);
      assert widths[..c][..c - 1] == widths[..c - 1];
    }
  }

  /** Every rule is as wide as the table. */
  lemma RuleWidth(widths: seq<nat>, left: Glyph, mid: Glyph, right: Glyph)
    requires left.Shown() == 1 && mid.Shown() == 1 && right.Shown() == 1
    ensures DisplayWidth(Rule(widths, left, mid, right)) == RenderWidth(widths)
  {
    RuleCellsWidth(widths, mid, right, |widths|);
    OneWide(left);
    WidthConcat([left], RuleCells(widths, mid, right, |widths|));
    assert widths[..|widths|] == widths;
  }

  // ---- the whole block ----

  function ColumnWidth(rows: seq<seq<Cell>>, c: nat): nat {
    if rows == [] then 0
    else Max(ColumnWidth(rows[..|rows| - 1], c), DisplayWidth(CellAt(rows[|rows| - 1], c)))
  }

  function NaturalWidths(rows: seq<seq<Cell>>, cols: nat): (r: seq<nat>)
    ensures |r| == cols
  {
    seq(cols, c requires 0 <= c < cols => ColumnWidth(rows, c))
  }

  function Columns(rows: seq<seq<Cell>>): nat {
    if rows == [] then 0 else Max(Columns(rows[..|rows| - 1]), |rows[|rows| - 1]|)
  }

  predicate RegularRows(rows: seq<seq<Cell>>) {
    forall r, c :: 0 <= r < |rows| && 0 <= c < |rows[r]| ==> Regular(rows[r][c])
  }

  const TOP_RULE := (Glyph('\U{250C}', Some(1)), Glyph('\U{252C}', Some(1)), Glyph('\U{2510}', Some(1)))
  const MID_RULE := (Glyph('\U{251C}', Some(1)), Glyph('\U{253C}', Some(1)), Glyph('\U{2524}', Some(1)))
  const END_RULE := (Glyph('\U{2514}', Some(1)), Glyph('\U{2534}', Some(1)), Glyph('\U{2518}', Some(1)))

  function BodyRows(body: seq<seq<Cell>>, widths: seq<nat>, aligns: seq<Align>): seq<Cell> {
    seq(|body|, i requires 0 <= i < |body| => DataRow(body[i], widths, aligns))
  }

  function Grid(header: seq<Cell>, body: seq<seq<Cell>>, widths: seq<nat>, aligns: seq<Align>): seq<Cell> {
    [Rule(widths, TOP_RULE.0, TOP_RULE.1, TOP_RULE.2)]
    + [DataRow(header, widths, aligns)]
    + [Rule(widths, MID_RULE.0, MID_RULE.1, MID_RULE.2)]
    + BodyRows(body, widths, aligns)
    + [Rule(widths, END_RULE.0, END_RULE.1, END_RULE.2)]
  }

  /** No cell of any row overshoots its column. */
  ghost predicate RowsFit(rows: seq<seq<Cell>>, widths: seq<nat>) {
    forall r :: 0 <= r < |rows| ==> RowFits(rows[r], widths)
  }

  ghost predicate AllWide(lines: seq<Cell>, width: nat) {
    forall i :: 0 <= i < |lines| ==> DisplayWidth(lines[i]) == width
  }

  lemma AllWideConcat(a: seq<Cell>, b: seq<Cell>, width: nat)
    ensures AllWide(a + b, width) <==> AllWide(a, width) && AllWide(b, width)
  {
    if AllWide(a + b, width) {
      assert forall i :: 0 <= i < |a| ==> a[i] == (a + b)[i];
      assert forall i :: 0 <= i < |b| ==> b[i] == (a + b)[|a| + i];
    }
  }

  lemma BodyWidth(body: seq<seq<Cell>>, widths: seq<nat>, aligns: seq<Align>)
    ensures AllWide(BodyRows(body, widths, aligns), RenderWidth(widths)) <==> RowsFit(body, widths)
  {
    forall r | 0 <= r < |body|
      ensures DisplayWidth(BodyRows(body, widths, aligns)[r]) == RenderWidth(widths)
              <==> RowFits(body[r], widths)
    {
      DataRowWidth(body[r], widths, aligns);
    }
  }

  lemma RowsFitCons(header: seq<Cell>, body: seq<seq<Cell>>, widths: seq<nat>)
    ensures RowsFit([header] + body, widths) <==> RowFits(header, widths) && RowsFit(body, widths)
  {
    var rows := [header] + body;
    assert rows[0] == header;
    assert forall r :: 0 <= r < |body| ==> body[r] == rows[r + 1];
  }

  /** The lines of a grid have one width, that of the table, exactly when no cell overshoots. */
  lemma GridWidth(header: seq<Cell>, body: seq<seq<Cell>>, widths: seq<nat>, aligns: seq<Align>)
    ensures (forall i :: 0 <= i < |Grid(header, body, widths, aligns)| ==>
               DisplayWidth(Grid(header, body, widths, aligns)[i]) == RenderWidth(widths))
            <==> RowsFit([header] + body, widths)
  {
    var w := RenderWidth(widths);
    var top, row, mid := [Rule(widths, TOP_RULE.0, TOP_RULE.1, TOP_RULE.2)], [DataRow(header, widths, aligns)],
                         [Rule(widths, MID_RULE.0, MID_RULE.1, MID_RULE.2)];
    var rows, end := BodyRows(body, widths, aligns), [Rule(widths, END_RULE.0, END_RULE.1, END_RULE.2)];
    RuleWidth(widths, TOP_RULE.0, TOP_RULE.1, TOP_RULE.2);
    RuleWidth(widths, MID_RULE.0, MID_RULE.1, MID_RULE.2);
    RuleWidth(widths, END_RULE.0, END_RULE.1, END_RULE.2);
    DataRowWidth(header, widths, aligns);
    BodyWidth(body, widths, aligns);
    RowsFitCons(header, body, widths);
    AllWideConcat(top, row, w);
    AllWideConcat(top + row, mid, w);
    AllWideConcat(top + row + mid, rows, w);
    AllWideConcat(top + row + mid + rows, end, w);
    assert AllWide(row, w) <==> DisplayWidth(row[0]) == w;
    assert AllWide(Grid(header, body, widths, aligns), w) <==> AllWide(row, w) && AllWide(rows, w);
  }

  /** Without control characters no cell overshoots. */
  lemma RegularRowsFit(rows: seq<seq<Cell>>, widths: seq<nat>)
    requires RegularRows(rows)
    ensures RowsFit(rows, widths)
  {
    forall r | 0 <= r < |rows|
      ensures RowFits(rows[r], widths)
    {
      RegularFits(rows[r], widths);
    }
  }

  /** The widest cell of each column. */
  method MeasureColumns(rows: seq<seq<Cell>>, cols: nat) returns (widths: array<nat>)
    ensures fresh(widths) && widths[..] == NaturalWidths(rows, cols)
  {
    widths := new nat[cols](c => 0);
    for c := 0 to cols
      invariant forall k :: 0 <= k < c ==> widths[k] == ColumnWidth(rows, k)
    {
      var w := 0;
      for r := 0 to |rows|
        invariant w == ColumnWidth(rows[..r], c)
      {
        assert rows[..r + 1][..r] == rows[..r];
        w := Max(w, DisplayWidth(CellAt(rows[r], c)));
      }
      assert rows[..|rows|] == rows;
      widths[c] := w;
    }
  }

  method TruncateLines(lines: seq<Cell>, width: nat) returns (out: seq<Cell>)
    ensures |out| == |lines| && forall i :: 0 <= i < |lines| ==> out[i] == Truncated(lines[i], width)
  {
    out := [];
    for i := 0 to |lines|
      invariant |out| == i && forall j :: 0 <= j < i ==> out[j] == Truncated(lines[j], width)
    {
      var line := TruncateDisplay(lines[i], width);
      out := out + [line];
    }
  }

  /** The limit a table is fitted into; a limit of zero counts as one cell. */
  function Limit(maxWidth: nat): nat {
    Max(maxWidth, 1)
  }

  /**
   * `render_table_block`: the grid when the table fits, else the raw lines cut to the
   * limit. `header`, `body` and `aligns` are the cells and alignments parsed from `lines`.
   */
  method RenderTableBlock(lines: seq<Cell>, header: seq<Cell>, body: seq<seq<Cell>>, aligns: seq<Align>,
                          maxWidth: Option<nat>)
    returns (out: seq<Cell>, ghost widths: seq<nat>)
    ensures |lines| < 2 ==> out == lines
    ensures |lines| >= 2 && Columns([header] + body) == 0 ==> out == []
    ensures |lines| >= 2 && Columns([header] + body) > 0 ==>
              var natural := NaturalWidths([header] + body, Columns([header] + body));
              if maxWidth.Some? && RenderWidth(MinWidths(natural)) > Limit(maxWidth.value) then
                |out| == |lines|
                && forall i :: 0 <= i < |out| ==> out[i] == Truncated(lines[i], Limit(maxWidth.value))
              else
                && out == Grid(header, body, widths, aligns)
                && (maxWidth.None? ==> widths == natural)
                && (maxWidth.Some? ==> RenderWidth(widths) == Min(RenderWidth(natural), Limit(maxWidth.value)))
                && (widths == natural || IsFill(natural, widths))
                && ((forall i :: 0 <= i < |out| ==> DisplayWidth(out[i]) == RenderWidth(widths))
                    <==> RowsFit([header] + body, widths))
                && (RegularRows([header] + body) ==> RowsFit([header] + body, widths))
  {
    widths := [];
    if |lines| < 2 {
      return lines, [];
    }
    var rows := [header] + body;
    var cols := Columns(rows);
    if cols == 0 {
      return [], [];
    }
    var columns := MeasureColumns(rows, cols);
    if maxWidth.Some? {
      var fits := FitTableWidths(columns, Limit(maxWidth.value));
      if !fits {
        out := TruncateLines(lines, Limit(maxWidth.value));
        return out, [];
      }
    }
    widths := columns[..];
    out := Grid(header, body, columns[..], aligns);
    GridWidth(header, body, widths, aligns);
    if RegularRows(rows) {
      RegularRowsFit(rows, widths);
    }
  }
}
