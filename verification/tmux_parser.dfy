/** Parsing of `tmux list-sessions -F SessionFormat` output into raw session
    records (internal/tmux/parser.go). */
module TmuxParser {
  import opened Wrappers
  import opened Strings

  /** One parsed line. Timestamps are Unix seconds; `None` is Go's zero
      `time.Time`, which is distinct from the epoch `Some(0)`. */
  datatype RawSession = RawSession(
    name: string,
    created: Option<int>,
    attached: bool,
    windows: Int64,
    activity: Option<int>,
    path: string)

  /** The template handed to `tmux list-sessions -F`. */
  const SessionFormat: string :=
    "#{session_name}|#{session_created}|#{session_attached}|#{session_windows}|#{session_activity}|#{session_path}"

  /** Number of `|`-separated fields a usable line must have. */
  const FieldCount: nat := 6

  /** `parseUnixTimestamp`: surrounding white space is ignored; anything that is
      not a 64-bit decimal integer gives the zero time. */
  function ParseUnixTimestamp(s: string): (t: Option<int>)
    ensures t.Some? <==> ParseInt64(TrimSpace(s)).Some?
    ensures t.Some? ==> t.value == DecimalSyntax(TrimSpace(s)).value
  {
    match ParseInt64(TrimSpace(s))
    case None => None
    case Some(v) => Some(v)
  }

  /** One line of output; `None` when it is blank or has fewer than six fields. */
  function ParseLine(line: string): (r: Option<RawSession>)
    ensures r.None? <==> |Split(TrimSpace(line), '|')| < FieldCount
    ensures TrimSpace(line) == "" ==> r.None?
    ensures r.Some? ==>
      var parts := Split(TrimSpace(line), '|');
      && r.value.name == parts[0]
      && r.value.created == ParseUnixTimestamp(parts[1])
      && (r.value.attached <==> parts[2] == "1")
      && r.value.windows == Atoi(parts[3])
      && r.value.activity == ParseUnixTimestamp(parts[4])
      && r.value.path == parts[5]
  {
    var trimmed := TrimSpace(line);
    if trimmed == "" then None
    else
      var parts := Split(trimmed, '|');
      if |parts| < FieldCount then None
      else
        Some(RawSession(
          parts[0],
          ParseUnixTimestamp(parts[1]),
          parts[2] == "1",
          Atoi(parts[3]),
          ParseUnixTimestamp(parts[4]),
          parts[5]))
  }

  /** The records of the usable lines, in input order. */
  function ParseLines(lines: seq<string>): (r: seq<RawSession>)
    ensures |r| <= |lines|
    decreases |lines|
  {
    if |lines| == 0 then []
    else
      match ParseLine(lines[0])
      case None => ParseLines(lines[1..])
      case Some(raw) => [raw] + ParseLines(lines[1..])
  }

  /** `ParseSessions`: empty output gives no sessions. */
  function ParseSessions(output: string): (r: seq<RawSession>)
    ensures output == "" ==> r == []
    ensures |r| <= |Split(output, '\n')|
  {
    if output == "" then [] else ParseLines(Split(output, '\n'))
  }

  /** Line-wise parsing commutes with concatenation: each line is parsed on its
      own and the surviving records keep their order. */
  lemma {:induction false} ParseLinesAppend(a: seq<string>, b: seq<string>)
    ensures ParseLines(a + b) == ParseLines(a) + ParseLines(b)
    decreases |a|
  {
    if |a| == 0 {
      assert a + b == b;
    } else {
      assert (a + b)[0] == a[0];
      assert (a + b)[1..] == a[1..] + b;
      ParseLinesAppend(a[1..], b);
    }
  }

  // ---------------------------------------------------------------------------
  // What tmux prints, and the round trip through the parser
  // ---------------------------------------------------------------------------

  /** A session as tmux knows it, before it is printed through `SessionFormat`. */
  datatype TmuxRow = TmuxRow(
    name: string,
    created: Int64,
    attached: bool,
    windows: Int64,
    activity: Int64,
    path: string)

  /** The six printed fields of a row. */
  function RowFields(row: TmuxRow): seq<string> {
    [row.name, IntToString(row.created), if row.attached then "1" else "0",
     IntToString(row.windows), IntToString(row.activity), row.path]
  }

  /** The line tmux prints for `row` under `SessionFormat`. */
  function FormatLine(row: TmuxRow): string {
    Join(RowFields(row), '|')
  }

  function ToRaw(row: TmuxRow): RawSession {
    RawSession(row.name, Some(row.created), row.attached, row.windows, Some(row.activity), row.path)
  }

  /** A row tmux can print unambiguously: name and path hold no delimiter, and
      the printed line does not start or end with white space. */
  predicate Printable(row: TmuxRow) {
    && '|' !in row.name && '\n' !in row.name
    && '|' !in row.path && '\n' !in row.path
    && (|row.name| > 0 ==> !IsSpace(row.name[0]))
    && (|row.path| > 0 ==> !IsSpace(row.path[|row.path| - 1]))
  }

  lemma IntToStringShape(n: int)
    ensures |IntToString(n)| > 0
    ensures '|' !in IntToString(n) && '\n' !in IntToString(n)
    ensures !IsSpace(IntToString(n)[0]) && !IsSpace(IntToString(n)[|IntToString(n)| - 1])
  {
    var s := IntToString(n);
    if n < 0 {
      assert s == "-" + NatToString(-n);
      assert forall i :: 1 <= i < |s| ==> IsDigit(s[i]) by {
        forall i | 1 <= i < |s| ensures IsDigit(s[i]) {
          assert s[i] == NatToString(-n)[i - 1];
        }
      }
    }
  }

  lemma JoinFirstLast(parts: seq<string>, sep: char)
    requires |parts| >= 2
    ensures Join(parts, sep) == parts[0] + [sep] + Join(parts[1..], sep)
  {
  }

  /** Endpoints of a join of at least two pieces. */
  lemma {:induction false} JoinEnds(parts: seq<string>, sep: char)
    requires |parts| >= 2
    ensures var s := Join(parts, sep);
      && |s| > 0
      && s[0] == (if |parts[0]| > 0 then parts[0][0] else sep)
      && s[|s| - 1] == (if |Last(parts)| > 0 then Last(parts)[|Last(parts)| - 1] else sep)
    decreases |parts|
  {
    if |parts| > 2 {
      JoinEnds(parts[1..], sep);
    }
  }

  lemma JoinLength(parts: seq<string>, sep: char)
    requires |parts| >= 1
    ensures |Join(parts, sep)| >= |parts[0]|
  {
  }

  lemma {:induction false} JoinNoChar(parts: seq<string>, sep: char, c: char)
    requires sep != c
    requires forall k :: 0 <= k < |parts| ==> c !in parts[k]
    ensures c !in Join(parts, sep)
    decreases |parts|
  {
    if |parts| >= 2 {
      JoinNoChar(parts[1..], sep, c);
    }
  }

  /** A printed row parses back to exactly its fields. */
  lemma ParseLineRoundTrip(row: TmuxRow)
    requires Printable(row)
    ensures ParseLine(FormatLine(row)) == Some(ToRaw(row))
    ensures '\n' !in FormatLine(row)
  {
    var parts := RowFields(row);
    var line := FormatLine(row);
    PrintedLineShape(row);
    assert TrimSpace(line) == line;
    assert Split(line, '|') == parts;
    TimestampRoundTrip(row.created);
    TimestampRoundTrip(row.activity);
    IntToStringRoundTrip(row.windows);
  }

  lemma PrintedLineShape(row: TmuxRow)
    requires Printable(row)
    ensures TrimSpace(FormatLine(row)) == FormatLine(row)
    ensures Split(FormatLine(row), '|') == RowFields(row)
    ensures '\n' !in FormatLine(row)
    ensures |FormatLine(row)| > 0
  {
    var parts := RowFields(row);
    FieldsShape(row);
    var line := Join(parts, '|');
    JoinEnds(parts, '|');
    assert !IsSpace(line[0]) && !IsSpace(line[|line| - 1]);
    TrimSpaceNoop(line);
    SplitJoin(parts, '|');
    JoinNoChar(parts, '|', '\n');
  }

  lemma FieldsShape(row: TmuxRow)
    requires Printable(row)
    ensures var parts := RowFields(row);
      && |parts| == FieldCount
      && (forall k :: 0 <= k < |parts| ==> '|' !in parts[k] && '\n' !in parts[k])
      && (|parts[0]| > 0 ==> !IsSpace(parts[0][0]))
      && (|Last(parts)| > 0 ==> !IsSpace(Last(parts)[|Last(parts)| - 1]))
  {
    IntToStringShape(row.created);
    IntToStringShape(row.windows);
    IntToStringShape(row.activity);
  }

  /** The lines tmux prints for `rows`, one per row. */
  function FormatLines(rows: seq<TmuxRow>): (lines: seq<string>)
    ensures |lines| == |rows|
    decreases |rows|
  {
    if |rows| == 0 then [] else [FormatLine(rows[0])] + FormatLines(rows[1..])
  }

  function ToRaws(rows: seq<TmuxRow>): seq<RawSession>
    decreases |rows|
  {
    if |rows| == 0 then [] else [ToRaw(rows[0])] + ToRaws(rows[1..])
  }

  lemma {:induction false} FormatLinesShape(rows: seq<TmuxRow>)
    requires forall k :: 0 <= k < |rows| ==> Printable(rows[k])
    ensures forall k :: 0 <= k < |rows| ==> FormatLines(rows)[k] == FormatLine(rows[k])
    ensures forall k :: 0 <= k < |rows| ==> '\n' !in FormatLines(rows)[k]
    decreases |rows|
  {
    if |rows| > 0 {
      FormatLinesShape(rows[1..]);
      PrintedLineShape(rows[0]);
    }
  }

  lemma {:induction false} ParseLinesRoundTrip(rows: seq<TmuxRow>)
    requires forall k :: 0 <= k < |rows| ==> Printable(rows[k])
    ensures ParseLines(FormatLines(rows)) == ToRaws(rows)
    decreases |rows|
  {
    if |rows| > 0 {
      var lines := FormatLines(rows);
      ParseLineRoundTrip(rows[0]);
      ParseLinesRoundTrip(rows[1..]);
      assert lines[0] == FormatLine(rows[0]);
      assert lines[1..] == FormatLines(rows[1..]);
    }
  }

  /** The whole output tmux prints for `rows` parses back to those rows, in order. */
  lemma ParseSessionsRoundTrip(rows: seq<TmuxRow>)
    requires forall k :: 0 <= k < |rows| ==> Printable(rows[k])
    ensures ParseSessions(Join(FormatLines(rows), '\n')) == ToRaws(rows)
  {
    var lines := FormatLines(rows);
    FormatLinesShape(rows);
    ParseLinesRoundTrip(rows);
    if |rows| > 0 {
      SplitJoin(lines, '\n');
      PrintedLineShape(rows[0]);
      JoinLength(lines, '\n');
    }
  }

  /** A timestamp printed by tmux parses back to itself; this includes the epoch,
      which stays distinct from the zero time. */
  lemma TimestampRoundTrip(n: Int64)
    ensures ParseUnixTimestamp(IntToString(n)) == Some(n)
  {
    IntToStringShape(n);
    TrimSpaceNoop(IntToString(n));
    IntToStringRoundTrip(n);
  }

  /** Empty or non-numeric text is the zero time. */
  lemma TimestampRejects()
    ensures ParseUnixTimestamp("") == None
    ensures ParseUnixTimestamp("x") == None
  {
    TrimSpaceNoop("");
    var x := "x";
    assert x[0] == 'x' && !IsDigit(x[0]);
    TrimSpaceNoop(x);
    assert DecimalSyntax(x) == None;
  }
}
