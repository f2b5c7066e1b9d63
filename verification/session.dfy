/** The session record and its small presentation helpers
    (internal/session/session.go). */
module Sessions {
  import opened Wrappers
  import opened Strings

  /** The five states a session can be shown in. */
  datatype Status = Active | Idle | Waiting | Unknown | Terminal

  /** The string each state is stored as. */
  function StatusValue(st: Status): string {
    match st
    case Active => "active"
    case Idle => "idle"
    case Waiting => "waiting"
    case Unknown => "unknown"
    case Terminal => "terminal"
  }

  /** Reading a stored status string back; any other string is no state. */
  function ParseStatus(s: string): (r: Option<Status>)
    ensures r.Some? ==> StatusValue(r.value) == s
  {
    if s == "active" then Some(Active)
    else if s == "idle" then Some(Idle)
    else if s == "waiting" then Some(Waiting)
    else if s == "unknown" then Some(Unknown)
    else if s == "terminal" then Some(Terminal)
    else None
  }

  /** The five constants are distinct strings: each reads back as itself. */
  lemma StatusValueRoundTrip(st: Status)
    ensures ParseStatus(StatusValue(st)) == Some(st)
  {
  }

  lemma StatusValueInjective(a: Status, b: Status)
    requires StatusValue(a) == StatusValue(b)
    ensures a == b
  {
    StatusValueRoundTrip(a);
    StatusValueRoundTrip(b);
  }

  const UnknownLabel: string := "? unknown"

  /** `StatusString` over the raw stored string: a glyph, a space and the
      status name for the four known non-unknown states; the fallback label
      for "unknown" and for every unrecognised string. */
  function StatusLabel(value: string): (r: string)
    ensures r == UnknownLabel <==> ParseStatus(value).None? || ParseStatus(value) == Some(Unknown)
    ensures r != UnknownLabel ==> |r| == |value| + 2 && r[1] == ' ' && r[2..] == value
  {
    if value == "active" then "\U{25CF} active"
    else if value == "idle" then "\U{25CB} idle"
    else if value == "waiting" then "\U{25CE} waiting"
    else if value == "terminal" then "\U{2298} terminal"
    else UnknownLabel
  }

  /** Distinct known states get distinct labels. */
  lemma StatusLabelsDistinct(a: Status, b: Status)
    requires a != Unknown && b != Unknown && a != b
    ensures StatusLabel(StatusValue(a)) != StatusLabel(StatusValue(b))
  {
    var la := StatusLabel(StatusValue(a));
    var lb := StatusLabel(StatusValue(b));
    if la == lb {
      assert la[2..] == lb[2..];
      StatusValueInjective(a, b);
    }
  }

  /** A session as the dashboard shows it. `startedAt` is Unix seconds, `None`
      being Go's zero time; `managed` sessions live in tmux, the others are
      claude processes found on a terminal. */
  datatype Session = Session(
    name: string,
    project: string,
    status: Status,
    startedAt: Option<int>,
    attached: bool,
    pid: string,
    path: string,
    managed: bool)

  const SessionPrefix: string := "cd-"

  const Minute: int := 60
  const Hour: int := 3600
  const Day: int := 86400

  lemma HoursFromMinutes(e: int)
    requires e >= 0
    ensures e / Hour == (e / Minute) / 60
    ensures e / Hour * 60 + (e / Minute) % 60 == e / Minute
  {
    var q := e / 60;
    var q2 := q / 60;
    assert e == 60 * q + e % 60;
    assert q == 60 * q2 + q % 60;
    assert e == 3600 * q2 + (60 * (q % 60) + e % 60);
    assert 0 <= 60 * (q % 60) + e % 60 < 3600;
  }

  lemma DaysFromHours(e: int)
    requires e >= 0
    ensures (e / Hour) / 24 * 24 + (e / Hour) % 24 == e / Hour
  {
  }

  /** `Uptime` of a session that has been up for `elapsed` seconds: the elapsed
      time rounded down to the shown resolution, in the two largest units. */
  function Uptime(elapsed: int): (r: string)
    ensures elapsed < Minute ==> r == IntToString(elapsed) + "s"
    ensures Minute <= elapsed < Hour ==>
      exists m: nat :: r == NatToString(m) + "m" && m * Minute <= elapsed < (m + 1) * Minute
    ensures Hour <= elapsed < Day ==>
      exists h: nat, m: nat :: r == NatToString(h) + "h" + NatToString(m) + "m"
        && m < 60 && (h * 60 + m) * Minute <= elapsed < (h * 60 + m + 1) * Minute
    ensures Day <= elapsed ==>
      exists d: nat, h: nat :: r == NatToString(d) + "d" + NatToString(h) + "h"
        && h < 24 && (d * 24 + h) * Hour <= elapsed < (d * 24 + h + 1) * Hour
  {
    if elapsed < Minute then IntToString(elapsed) + "s"
    else if elapsed < Hour then
      var m: nat := elapsed / Minute;
      NatToString(m) + "m"
    else if elapsed < Day then
      var h: nat := elapsed / Hour;
      var m: nat := (elapsed / Minute) % 60;
      HoursFromMinutes(elapsed);
      NatToString(h) + "h" + NatToString(m) + "m"
    else
      var d: nat := (elapsed / Hour) / 24;
      var h: nat := (elapsed / Hour) % 24;
      DaysFromHours(elapsed);
      NatToString(d) + "d" + NatToString(h) + "h"
  }

  lemma TwoDigits(n: nat)
    requires 10 <= n < 100
    ensures NatToString(n) == [DigitChar(n / 10), DigitChar(n % 10)]
  {
  }

  /** Under a minute the seconds are shown, under an hour the minutes. */
  lemma UptimeShortExamples()
    ensures Uptime(45) == "45s"
    ensures Uptime(Minute) == "1m"
    ensures Uptime(30 * Minute) == "30m"
  {
    TwoDigits(45);
    TwoDigits(30);
  }

  /** Under a day hours and minutes are shown, as in "2h30m" and "1h0m". */
  lemma UptimeHourExamples()
    ensures Uptime(2 * Hour + 30 * Minute) == "2h30m"
    ensures Uptime(Hour) == "1h0m"
  {
    assert (2 * Hour + 30 * Minute) / Hour == 2;
    assert ((2 * Hour + 30 * Minute) / Minute) % 60 == 30;
    TwoDigits(30);
  }

  /** From a day on, days and hours are shown, as in "1d1h" and "2d0h". */
  lemma UptimeDayExamples()
    ensures Uptime(25 * Hour) == "1d1h"
    ensures Uptime(48 * Hour) == "2d0h"
  {
    assert (25 * Hour) / Hour == 25;
    assert (48 * Hour) / Hour == 48;
  }

  /** `DisplayName` as written: the name is returned unchanged, so a managed
      session keeps its "cd-" prefix, though the doc comment and the
      repository's test both promise it stripped. */
  function DisplayName(s: Session): (r: string)
    ensures |r| == |s.name| && forall i :: 0 <= i < |r| ==> r[i] == s.name[i]
  {
    s.name
  }

  /** The discrepancy: "cd-myproject" is displayed with its prefix. */
  lemma DisplayNameKeepsPrefix()
    ensures DisplayName(Session("cd-myproject", "", Idle, None, false, "", "", true)) != "myproject"
  {
    var r := DisplayName(Session("cd-myproject", "", Idle, None, false, "", "", true));
    assert r[0] == 'c';
  }

  /** The display name as documented: the managed-session prefix removed when
      present, the name otherwise. */
  function DisplayNameStripped(s: Session): (r: string)
    ensures HasPrefix(s.name, SessionPrefix) ==> SessionPrefix + r == s.name
    ensures !HasPrefix(s.name, SessionPrefix) ==> r == s.name
  {
    TrimPrefix(s.name, SessionPrefix)
  }

  lemma DisplayNameStrippedExamples()
    ensures DisplayNameStripped(Session("cd-myproject", "", Idle, None, false, "", "", true)) == "myproject"
    ensures DisplayNameStripped(Session("myproject", "", Idle, None, false, "", "", true)) == "myproject"
  {
    assert HasPrefix("cd-myproject", SessionPrefix);
    assert !HasPrefix("myproject", SessionPrefix) by {
      assert "myproject"[..3] == "myp";
    }
  }
}
