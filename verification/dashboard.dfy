/** The session table of the dashboard (internal/ui/dashboard.go): cell
    truncation, the widths of the two flexible columns, and which rows of the
    list are drawn. Styling and padding are not modelled; a drawn table is
    described by the cells it holds. Widths are string lengths, so the model
    covers ASCII text, where the display width of a string is its length. */
module Dashboard {
  import opened Wrappers
  import opened Strings
  import opened Sessions

  // ---------------------------------------------------------------------------
  // Truncation
  // ---------------------------------------------------------------------------

  const Ellipsis: string := "..."

  /** `truncate`: a string that fits is kept; otherwise it is cut to `maxLen`
      characters, the last three of them replaced by an ellipsis when there
      is room for more than the ellipsis. A negative `maxLen` with a longer
      string makes the source's slice panic, so it is excluded. */
  function Truncate(s: string, maxLen: int): (r: string)
    requires maxLen >= 0
    ensures |s| <= maxLen ==> r == s
    ensures |s| > maxLen ==> |r| == maxLen
    ensures |s| > maxLen && maxLen <= 3 ==> r == s[..maxLen]
    ensures |s| > maxLen && maxLen > 3 ==> r[..maxLen - 3] == s[..maxLen - 3] && r[maxLen - 3..] == Ellipsis
  {
    if |s| <= maxLen then s
    else if maxLen <= 3 then s[..maxLen]
    else s[..maxLen - 3] + Ellipsis
  }

  /** A truncated cell never exceeds its width, and is exactly as long as the
      shorter of the string and the width. */
  lemma TruncateFits(s: string, maxLen: int)
    requires maxLen >= 0
    ensures |Truncate(s, maxLen)| == if |s| <= maxLen then |s| else maxLen
    ensures |Truncate(s, maxLen)| <= maxLen
  {
  }

  /** Truncating a truncated cell again changes nothing. */
  lemma TruncateIdempotent(s: string, maxLen: int)
    requires maxLen >= 0
    ensures Truncate(Truncate(s, maxLen), maxLen) == Truncate(s, maxLen)
  {
  }

  /** `truncatePath`: keeps the end of the path, which is the informative part.
      A non-positive width or a path that fits leaves it as it is; a width of
      one to three gives the bare ellipsis; a wider one gives the ellipsis and
      the last `maxLen - 3` characters. */
  function TruncatePath(s: string, maxLen: int): (r: string)
    ensures maxLen <= 0 || |s| <= maxLen ==> r == s
    ensures 0 < maxLen <= 3 && |s| > maxLen ==> r == Ellipsis
    ensures maxLen > 3 && |s| > maxLen ==>
      |r| == maxLen && r[..3] == Ellipsis && HasSuffix(s, r[3..])
  {
    if maxLen <= 0 || |s| <= maxLen then s
    else if maxLen <= 3 then Ellipsis
    else Ellipsis + s[|s| - (maxLen - 3)..]
  }

  /** A shortened path is no longer than a width above three. */
  lemma TruncatePathFits(s: string, maxLen: int)
    requires maxLen > 3
    ensures |TruncatePath(s, maxLen)| <= maxLen
    ensures |TruncatePath(s, maxLen)| == if |s| <= maxLen then |s| else maxLen
  {
  }

  /** The shown tail is the path's own last characters. */
  lemma TruncatePathKeepsTail(s: string, maxLen: int, k: int)
    requires maxLen > 3 && |s| > maxLen
    requires 0 <= k < maxLen - 3
    ensures TruncatePath(s, maxLen)[|TruncatePath(s, maxLen)| - 1 - k] == s[|s| - 1 - k]
  {
    var tail := s[|s| - (maxLen - 3)..];
    var r := Ellipsis + tail;
    assert TruncatePath(s, maxLen) == r;
    assert r[maxLen - 1 - k] == tail[maxLen - 4 - k];
  }

  lemma TruncatePathIdempotent(s: string, maxLen: int)
    ensures TruncatePath(TruncatePath(s, maxLen), maxLen) == TruncatePath(s, maxLen)
  {
  }

  // ---------------------------------------------------------------------------
  // Column widths
  // ---------------------------------------------------------------------------

  /** A table column: a width of 0 marks one of the two flexible columns. */
  datatype Column = Column(title: string, width: nat)

  const DashboardColumns: seq<Column> := [
    Column("#", 4), Column("NAME", 0), Column("PROJECT", 35), Column("STATUS", 12),
    Column("UPTIME", 10), Column("CPU", 8), Column("MEM", 8), Column("PATH", 0)
  ]

  const LeftMargin: nat := 2
  const ColumnGap: nat := 2
  const MinFlexWidth: int := 30
  const ProjectWidth: nat := 35

  /** The margin plus each fixed column with its gap. */
  function FixedWidth(cols: seq<Column>): (r: nat)
    ensures |cols| == 0 ==> r == LeftMargin
    decreases |cols|
  {
    if |cols| == 0 then LeftMargin
    else
      var last := cols[|cols| - 1];
      FixedWidth(cols[..|cols| - 1]) + (if last.width > 0 then last.width + ColumnGap else 0)
  }

  /** The fixed columns and gaps take 91 characters. */
  lemma FixedWidthOfDashboard()
    ensures FixedWidth(DashboardColumns) == 91
  {
    var c := DashboardColumns;
    assert c[..7][..6][..5][..4][..3][..2][..1][..0] == [];
    assert FixedWidth(c[..1]) == 8 by { assert c[..1][..0] == []; }
    assert FixedWidth(c[..2]) == 8 by { assert c[..2][..1] == c[..1]; }
    assert FixedWidth(c[..3]) == 45 by { assert c[..3][..2] == c[..2]; }
    assert FixedWidth(c[..4]) == 59 by { assert c[..4][..3] == c[..3]; }
    assert FixedWidth(c[..5]) == 71 by { assert c[..5][..4] == c[..4]; }
    assert FixedWidth(c[..6]) == 81 by { assert c[..6][..5] == c[..5]; }
    assert FixedWidth(c[..7]) == 91 by { assert c[..7][..6] == c[..6]; }
    assert c[..8] == c;
    assert c[..7] == c[..|c| - 1];
  }

  /** The widths of the NAME and PATH columns at a terminal `width`. */
  datatype FlexWidths = FlexWidths(name: int, path: int)

  /** What is left after the fixed columns, never below 30 characters, goes a
      third to NAME and the rest to PATH. */
  function ColumnWidths(width: int): (r: FlexWidths)
    ensures r.name + r.path == if width - 91 < MinFlexWidth then MinFlexWidth else width - 91
    ensures 3 * r.name <= r.name + r.path < 3 * r.name + 3
    ensures r.name >= 10 && r.name <= r.path
  {
    FixedWidthOfDashboard();
    var flex := width - FixedWidth(DashboardColumns);
    var flexWidth := if flex < MinFlexWidth then MinFlexWidth else flex;
    var name := flexWidth / 3;
    FlexWidths(name, flexWidth - name)
  }

  lemma ColumnWidthsExamples()
    ensures ColumnWidths(80) == FlexWidths(10, 20)
    ensures ColumnWidths(211) == FlexWidths(40, 80)
  {
    FixedWidthOfDashboard();
  }

  /** A wider terminal never narrows either flexible column. */
  lemma ColumnWidthsMonotone(w1: int, w2: int)
    requires w1 <= w2
    ensures ColumnWidths(w1).name <= ColumnWidths(w2).name
    ensures ColumnWidths(w1).path <= ColumnWidths(w2).path
  {
    var a := ColumnWidths(w1);
    var b := ColumnWidths(w2);
    var fa := a.name + a.path;
    var fb := b.name + b.path;
    assert fa <= fb;
    assert a.name == fa / 3 && b.name == fb / 3 by { FixedWidthOfDashboard(); }
  }

  // ---------------------------------------------------------------------------
  // The drawn table
  // ---------------------------------------------------------------------------

  /** How a row is highlighted: the cursor row, else by status. */
  datatype RowStyle = Selected | ActiveStyle | WaitingStyle | Plain

  /** The cells of one drawn row. CPU and memory percentages are left out. */
  datatype Row = Row(number: string, name: string, project: string, status: string,
                     uptime: string, path: string, style: RowStyle)

  /** A drawn table: a notice when there are no sessions; otherwise the count
      of rows hidden above (when any), the drawn rows, and the count hidden
      below (when any). */
  datatype View =
    | NoSessions
    | Table(above: Option<nat>, rows: seq<Row>, below: Option<nat>)

  /** The drawn rows run from `scroll` to the smaller of `scroll + visible` and
      the list length. */
  function VisibleEnd(count: int, scroll: int, visible: int): (e: int)
    ensures e <= count && e <= scroll + visible
    ensures e == count || e == scroll + visible
  {
    if scroll + visible > count then count else scroll + visible
  }

  /** Row `i` of the list (numbered from one), at the given column widths. */
  function RowOf(s: Session, i: nat, cursor: int, w: FlexWidths, uptime: Session -> string): (r: Row)
    requires w.name >= 0
    ensures r.name == Truncate(s.name, w.name) && r.path == TruncatePath(s.path, w.path)
    ensures r.project == Truncate(s.project, ProjectWidth)
    ensures r.status == StatusLabel(StatusValue(s.status)) && r.uptime == uptime(s)
    ensures r.style == Selected <==> i == cursor
    ensures r.style == ActiveStyle <==> i != cursor && s.status == Active
    ensures r.style == WaitingStyle <==> i != cursor && s.status == Waiting
    ensures r.number == NatToString(i + 1)
  {
    Row(NatToString(i + 1), Truncate(s.name, w.name), Truncate(s.project, ProjectWidth),
        StatusLabel(StatusValue(s.status)), uptime(s), TruncatePath(s.path, w.path),
        if i == cursor then Selected
        else if s.status == Active then ActiveStyle
        else if s.status == Waiting then WaitingStyle
        else Plain)
  }

  /** `RenderDashboard` as the cells it draws. The source indexes the list from
      `scroll`, so a negative offset would panic; the caller clamps it. */
  function RenderDashboard(sessions: seq<Session>, cursor: int, width: int, scroll: int, visible: int,
                           uptime: Session -> string): (v: View)
    requires scroll >= 0
    ensures |sessions| == 0 <==> v == NoSessions
    ensures v.Table? ==>
      var e := VisibleEnd(|sessions|, scroll, visible);
      && (v.above.Some? <==> scroll > 0)
      && (v.above.Some? ==> v.above.value == scroll)
      && (v.below.Some? <==> e < |sessions|)
      && (v.below.Some? ==> v.below.value == |sessions| - e)
      && |v.rows| == (if e > scroll then e - scroll else 0)
      && forall k :: 0 <= k < |v.rows| ==>
           v.rows[k].name == Truncate(sessions[scroll + k].name, ColumnWidths(width).name)
           && v.rows[k].path == TruncatePath(sessions[scroll + k].path, ColumnWidths(width).path)
           && (v.rows[k].style == Selected <==> scroll + k == cursor)
           && v.rows[k].number == NatToString(scroll + k + 1)
           && v.rows[k].project == Truncate(sessions[scroll + k].project, ProjectWidth)
           && v.rows[k].status == StatusLabel(StatusValue(sessions[scroll + k].status))
           && v.rows[k].uptime == uptime(sessions[scroll + k])
           && (v.rows[k].style == ActiveStyle <==> scroll + k != cursor && sessions[scroll + k].status == Active)
           && (v.rows[k].style == WaitingStyle <==> scroll + k != cursor && sessions[scroll + k].status == Waiting)
  {
    if |sessions| == 0 then NoSessions
    else
      var w := ColumnWidths(width);
      var e := VisibleEnd(|sessions|, scroll, visible);
      var n := if e > scroll then e - scroll else 0;
      var rows := seq(n, k requires 0 <= k < n => RowOf(sessions[scroll + k], scroll + k, cursor, w, uptime));
      assert forall k :: 0 <= k < n ==> rows[k] == RowOf(sessions[scroll + k], scroll + k, cursor, w, uptime);
      Table(if scroll > 0 then Some(scroll) else None, rows,
            if e < |sessions| then Some(|sessions| - e) else None)
  }

  function Count(c: Option<nat>): nat {
    if c.Some? then c.value else 0
  }

  /** With the offset inside the list and a non-negative window, the hidden
      rows above, the drawn rows and the hidden rows below account for every
      session exactly once. */
  lemma VisibleRowsPartition(sessions: seq<Session>, cursor: int, width: int, scroll: int, visible: int,
                             uptime: Session -> string)
    requires 0 <= scroll <= |sessions| && visible >= 0 && |sessions| > 0
    ensures var v := RenderDashboard(sessions, cursor, width, scroll, visible, uptime);
      Count(v.above) + |v.rows| + Count(v.below) == |sessions|
  {
  }

  /** The cursor row is drawn highlighted exactly when it lies in the window. */
  lemma CursorDrawn(sessions: seq<Session>, cursor: int, width: int, scroll: int, visible: int,
                    uptime: Session -> string)
    requires 0 <= scroll <= cursor < scroll + visible && cursor < |sessions|
    ensures var v := RenderDashboard(sessions, cursor, width, scroll, visible, uptime);
      v.Table? && cursor - scroll < |v.rows| && v.rows[cursor - scroll].style == Selected
  {
  }
}
