/** Where the cells and the lines of a drawn table are (src/fleet_tui.rs). */
module TableLayout {
  import opened Wrappers
  import opened Seqs
  import opened TableWidths
  import opened TableRender

  /** A character that shows as one cell. */
  function One(c: char): Glyph {
    Glyph(c, Some(1))
  }

  function Spaces(n: nat): Cell {
    seq(n, i => One(' '))
  }

  // ---- a cell in its column ----

  lemma {:induction false} SpacesCopied(n: nat)
    ensures Copies(SPACE, n) == Spaces(n)
  {
    if n > 0 {
      SpacesCopied(n - 1);
    }
  }

  /** The spaces in front of and behind a cell that is `gap` cells narrower than its column. */
  predicate Placed(align: Align, before: nat, behind: nat, gap: int) {
    && before + behind == gap
    && match align
       case Left => before == 0
       case Right => behind == 0
       case Center => before == behind || before + 1 == behind
  }

  /** A cell that fits is moved in its column by spaces alone, as its alignment says. */
  lemma CellAligned(content: Cell, width: nat, align: Align) returns (before: nat, behind: nat)
    requires DisplayWidth(content) <= width
    ensures PadCell(content, width, align) == Spaces(before) + content + Spaces(behind)
    ensures Placed(align, before, behind, width - DisplayWidth(content))
  {
    var gap := width - DisplayWidth(content);
    SpacesCopied(gap);
    before := match align case Left => 0 case Right => gap case Center => gap / 2;
    behind := gap - before;
    SpacesCopied(before);
    SpacesCopied(behind);
  }

  /** A longer one loses its end and shows so. */
  lemma CellCut(content: Cell, width: nat, align: Align) returns (kept: nat, before: nat, behind: nat)
    requires DisplayWidth(content) > width > 1 && !Overshoots(content, width)
    ensures kept <= |content|
    ensures PadCell(content, width, align) == Spaces(before) + (content[..kept] + [One('\U{2026}')]) + Spaces(behind)
    ensures Placed(align, before, behind, width as int - DisplayWidth(content[..kept] + [One('\U{2026}')]))
    ensures CountedWidth(content[..kept]) < width
    ensures forall k :: kept < k <= |content| ==> CountedWidth(content[..k]) >= width
  {
    kept := FittingCount(content, width - 1);
    var cut := content[..kept] + [One('\U{2026}')];
    assert cut == Truncated(content, width);
    TruncatedFits(content, width);
    before, behind := CellAligned(cut, width, align);
    forall k: nat | k <= |content|
      ensures CountedWidth(content[..k]) <= width - 1 <==> k <= kept
    {
      FittingIsLongest(content, width - 1, k);
    }
  }

  // ---- a cell in its row ----

  /** The content of column `c` of a row; rows may be too short. */
  function ContentOf(row: seq<Cell>, c: nat): Cell {
    if |row| <= c then [] else row[c]
  }

  function AlignmentOf(aligns: seq<Align>, c: nat): Align {
    if |aligns| <= c then Left else aligns[c]
  }

  function Boxed(cell: Cell): Cell {
    [One(' ')] + cell + [One(' '), One('\U{2502}')]
  }

  lemma BoxedCell(padded: Cell)
    ensures [SPACE] + padded + [SPACE] + [BAR] == Boxed(padded)
  {
  }

  function BoxAt(row: seq<Cell>, widths: seq<nat>, aligns: seq<Align>, c: nat): Cell
    requires c < |widths|
  {
    Boxed(PadCell(ContentOf(row, c), widths[c], AlignmentOf(aligns, c)))
  }

  /** The boxes of the first `n` columns. */
  function Boxes(row: seq<Cell>, widths: seq<nat>, aligns: seq<Align>, n: nat): (r: seq<Cell>)
    requires n <= |widths|
    ensures |r| == n
  {
    seq(n, c requires 0 <= c < n => BoxAt(row, widths, aligns, c))
  }

  function Joined<T>(pieces: seq<seq<T>>): seq<T> {
    if pieces == [] then [] else Joined(pieces[..|pieces| - 1]) + pieces[|pieces| - 1]
  }

  lemma JoinedNext<T>(pieces: seq<seq<T>>, piece: seq<T>, all: seq<seq<T>>)
    requires |all| == |pieces| + 1 && all[|pieces|] == piece
    requires forall i :: 0 <= i < |pieces| ==> all[i] == pieces[i]
    ensures Joined(all) == Joined(pieces) + piece
  {
    assert all[..|pieces|] == pieces;
  }

  lemma {:induction false} RowJoined(row: seq<Cell>, widths: seq<nat>, aligns: seq<Align>, n: nat)
    requires n <= |widths|
    ensures RowCells(row, widths, aligns, n) == Joined(Boxes(row, widths, aligns, n))
    decreases n
  {
    if n == 0 {
      assert Boxes(row, widths, aligns, 0) == [];
    } else {
      RowJoined(row, widths, aligns, n - 1);
      BoxedCell(PadCell(ContentOf(row, n - 1), widths[n - 1], AlignmentOf(aligns, n - 1)));
      JoinedNext(Boxes(row, widths, aligns, n - 1), BoxAt(row, widths, aligns, n - 1), Boxes(row, widths, aligns, n));
    }
  }

  /** A row is a bar and then its cells in the order of the columns, each in its box. */
  lemma RowBoxes(row: seq<Cell>, widths: seq<nat>, aligns: seq<Align>)
    ensures DataRow(row, widths, aligns) == [One('\U{2502}')] + Joined(Boxes(row, widths, aligns, |widths|))
  {
    RowJoined(row, widths, aligns, |widths|);
  }

  /** When no cell overshoots, column `c` starts behind the widths before it and three cells for each. */
  lemma ColumnStarts(row: seq<Cell>, widths: seq<nat>, aligns: seq<Align>, c: nat)
    requires c <= |widths| && RowFits(row, widths)
    ensures DisplayWidth(Joined(Boxes(row, widths, aligns, c))) == Sum(widths[..c]) + 3 * c
  {
    RowJoined(row, widths, aligns, c);
    RowCellsWidth(row, widths, aligns, c);
    CellsFitAll(row, widths, c);
  }

  // ---- the sizes a table is drawn with ----

  /** A column is as wide as its widest cell; it has no width when every cell is empty. */
  lemma {:induction false} WidestCell(rows: seq<seq<Cell>>, c: nat)
    ensures forall row :: row in rows ==> DisplayWidth(ContentOf(row, c)) <= ColumnWidth(rows, c)
    ensures ColumnWidth(rows, c) > 0 ==>
              exists row :: row in rows && DisplayWidth(ContentOf(row, c)) == ColumnWidth(rows, c)
  {
    if rows != [] {
      var before, last := rows[..|rows| - 1], rows[|rows| - 1];
      WidestCell(before, c);
      assert rows == before + [last] && CellAt(last, c) == ContentOf(last, c);
      assert forall row :: row in before ==> row in rows;
    }
  }

  /** There are as many columns as the longest row has cells. */
  lemma {:induction false} LongestRow(rows: seq<seq<Cell>>)
    ensures forall row :: row in rows ==> |row| <= Columns(rows)
    ensures Columns(rows) > 0 ==> exists row :: row in rows && |row| == Columns(rows)
  {
    if rows != [] {
      LongestRow(rows[..|rows| - 1]);
      assert rows == rows[..|rows| - 1] + [rows[|rows| - 1]];
    }
  }

  /** A limit of zero counts as one. */
  lemma LeastLimit(maxWidth: nat)
    ensures Limit(0) == 1 && (maxWidth > 0 ==> Limit(maxWidth) == maxWidth)
  {
  }

  // ---- the lines of the table ----

  function Dashes(n: nat): Cell {
    seq(n, i => One('\U{2500}'))
  }

  lemma {:induction false} DashesCopied(n: nat)
    ensures Copies(DASH, n) == Dashes(n)
  {
    if n > 0 {
      DashesCopied(n - 1);
    }
  }

  lemma {:induction false} RuleLength(widths: seq<nat>, mid: Glyph, right: Glyph, n: nat)
    requires n <= |widths|
    ensures |RuleCells(widths, mid, right, n)| == Sum(widths[..n]) + 3 * n
    decreases n
  {
    if n > 0 {
      RuleLength(widths, mid, right, n - 1);
      DashesCopied(widths[n - 1] + 2);
      assert widths[..n][..n - 1] == widths[..n - 1];
    }
  }

  lemma {:induction false} RuleContinues(widths: seq<nat>, mid: Glyph, right: Glyph, c: nat, n: nat)
    returns (back: Cell)
    requires c <= n <= |widths|
    ensures RuleCells(widths, mid, right, n) == RuleCells(widths, mid, right, c) + back
    decreases n
  {
    if n == c {
      back := [];
    } else {
      var rest := RuleContinues(widths, mid, right, c, n - 1);
      var more := Copies(DASH, widths[n - 1] + 2) + [if n == |widths| then right else mid];
      Associate(RuleCells(widths, mid, right, c), rest, more);
      back := rest + more;
    }
  }

  /** Over column `c` a rule has dashes for the column and its margins, then a crossing or the last corner. */
  lemma RulePlaced(widths: seq<nat>, left: char, mid: char, right: char, c: nat) returns (front: Cell, back: Cell)
    requires c < |widths|
    ensures Rule(widths, One(left), One(mid), One(right))
         == [One(left)] + front + (Dashes(widths[c] + 2) + [One(if c + 1 == |widths| then right else mid)]) + back
    ensures |front| == Sum(widths[..c]) + 3 * c && (c + 1 == |widths| ==> back == [])
  {
    front := RuleCells(widths, One(mid), One(right), c);
    DashesCopied(widths[c] + 2);
    back := RuleContinues(widths, One(mid), One(right), c + 1, |widths|);
    RuleLength(widths, One(mid), One(right), c);
    RuleLength(widths, One(mid), One(right), c + 1);
    RuleLength(widths, One(mid), One(right), |widths|);
    var piece := Dashes(widths[c] + 2) + [One(if c + 1 == |widths| then right else mid)];
    Associate([One(left)], front, piece);
    Associate([One(left)], front + piece, back);
  }

  /** Rules are the first line of a table, the third and the last. */
  lemma TableRules(header: seq<Cell>, body: seq<seq<Cell>>, widths: seq<nat>, aligns: seq<Align>)
    ensures var grid := Grid(header, body, widths, aligns);
            && |grid| == |body| + 4
            && grid[0] == Rule(widths, One('\U{250C}'), One('\U{252C}'), One('\U{2510}'))
            && grid[2] == Rule(widths, One('\U{251C}'), One('\U{253C}'), One('\U{2524}'))
            && grid[|body| + 3] == Rule(widths, One('\U{2514}'), One('\U{2534}'), One('\U{2518}'))
  {
    RuleCharacters();
    GridParts(header, body, widths, aligns);
  }

  /** The header is the second line, and the rows of the body are those between the last two rules. */
  lemma TableRows(header: seq<Cell>, body: seq<seq<Cell>>, widths: seq<nat>, aligns: seq<Align>, i: nat)
    requires i < |body|
    ensures var grid := Grid(header, body, widths, aligns);
            |grid| == |body| + 4 && grid[1] == DataRow(header, widths, aligns)
            && grid[3 + i] == DataRow(body[i], widths, aligns)
  {
    GridParts(header, body, widths, aligns);
    BodyRow(body, widths, aligns, i);
  }

  lemma BodyRow(body: seq<seq<Cell>>, widths: seq<nat>, aligns: seq<Align>, i: nat)
    requires i < |body|
    ensures BodyRows(body, widths, aligns)[i] == DataRow(body[i], widths, aligns)
  {
  }

  lemma GridParts(header: seq<Cell>, body: seq<seq<Cell>>, widths: seq<nat>, aligns: seq<Align>)
    ensures var grid := Grid(header, body, widths, aligns);
            && |grid| == |body| + 4
            && grid[0] == Rule(widths, TOP_RULE.0, TOP_RULE.1, TOP_RULE.2)
            && grid[1] == DataRow(header, widths, aligns)
            && grid[2] == Rule(widths, MID_RULE.0, MID_RULE.1, MID_RULE.2)
            && (forall i :: 0 <= i < |body| ==> grid[3 + i] == BodyRows(body, widths, aligns)[i])
            && grid[|body| + 3] == Rule(widths, END_RULE.0, END_RULE.1, END_RULE.2)
  {
    Parts(Rule(widths, TOP_RULE.0, TOP_RULE.1, TOP_RULE.2), DataRow(header, widths, aligns),
          Rule(widths, MID_RULE.0, MID_RULE.1, MID_RULE.2), BodyRows(body, widths, aligns),
          Rule(widths, END_RULE.0, END_RULE.1, END_RULE.2));
  }

  lemma RuleCharacters()
    ensures TOP_RULE == (One('\U{250C}'), One('\U{252C}'), One('\U{2510}'))
    ensures MID_RULE == (One('\U{251C}'), One('\U{253C}'), One('\U{2524}'))
    ensures END_RULE == (One('\U{2514}'), One('\U{2534}'), One('\U{2518}'))
  {
  }

  lemma Parts<T>(a: T, b: T, c: T, rows: seq<T>, e: T)
    ensures var all := [a] + [b] + [c] + rows + [e];
            && |all| == |rows| + 4 && all[0] == a && all[1] == b && all[2] == c && all[|rows| + 3] == e
            && forall i :: 0 <= i < |rows| ==> all[3 + i] == rows[i]
  {
  }
}
