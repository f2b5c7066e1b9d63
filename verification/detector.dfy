/** Session discovery (internal/session/detector.go): which tmux sessions are
    shown, how their status is classified from the pane tail and the last
    activity, which stray claude processes on terminals are listed, and the
    cached working-directory lookup behind them. Every external program is an
    input: tmux as a function from argument vector to standard output (`None`
    when it fails), ps and lsof by their output, the clock by `now`. */
module Detector {
  import opened Wrappers
  import opened Strings
  import Seqs
  import opened Sessions
  import opened TmuxParser
  import opened TmuxClient

  const NanosPerSecond: int := 1_000_000_000

  // ---------------------------------------------------------------------------
  // Project names
  // ---------------------------------------------------------------------------

  /** The last `/`-component of a path once trailing slashes are removed, so
      "/" gives "" and "/go/src/pkg/" gives "pkg". */
  function PathBase(path: string): (r: string)
    ensures '/' !in r
    ensures var t := TrimRightChar(path, '/');
      HasSuffix(t, r) && (|r| == |t| || t[|t| - |r| - 1] == '/')
  {
    LastComponent(TrimRightChar(path, '/'), '/')
  }

  /** `extractProject`: a managed name gives the rest of the name, otherwise a
      non-empty path gives its last component, otherwise the name itself. */
  function ExtractProject(name: string, path: string): (r: string)
    ensures HasPrefix(name, SessionPrefix) ==> SessionPrefix + r == name
    ensures !HasPrefix(name, SessionPrefix) && path == "" ==> r == name
    ensures !HasPrefix(name, SessionPrefix) && path != "" ==>
      '/' !in r && var t := TrimRightChar(path, '/');
      HasSuffix(t, r) && (|r| == |t| || t[|t| - |r| - 1] == '/')
  {
    if HasPrefix(name, SessionPrefix) then TrimPrefix(name, SessionPrefix)
    else if path != "" then PathBase(path)
    else name
  }

  /** Whatever the directory, an unmanaged session is named after the final
      component of its path, trailing slashes or not. */
  lemma {:induction false} ExtractProjectLastComponent(name: string, dir: string, base: string, slashes: nat)
    requires !HasPrefix(name, SessionPrefix)
    requires base != "" && '/' !in base
    ensures ExtractProject(name, dir + "/" + base + seq(slashes, _ => '/')) == base
    decreases slashes
  {
    var path := dir + "/" + base + seq(slashes, _ => '/');
    var t := TrimRightChar(path, '/');
    TrimRightSlashes(dir + "/" + base, slashes);
    assert t == dir + "/" + base;
    assert dir + "/" + base == dir + ['/'] + base;
    SplitLastAfter(dir, '/', base);
  }

  lemma {:induction false} TrimRightSlashes(s: string, slashes: nat)
    requires |s| > 0 && s[|s| - 1] != '/'
    ensures TrimRightChar(s + seq(slashes, _ => '/'), '/') == s
    decreases slashes
  {
    if slashes > 0 {
      var u := s + seq(slashes, _ => '/');
      assert u[..|u| - 1] == s + seq(slashes - 1, _ => '/');
      TrimRightSlashes(s, slashes - 1);
    } else {
      assert s + seq(0, _ => '/') == s;
    }
  }

  /** The cases the repository's tests spell out. */
  lemma ExtractProjectExamples()
    ensures ExtractProject("cd-myproject", "/some/path") == "myproject"
    ensures ExtractProject("cd-", "/some/path") == ""
    ensures ExtractProject("fallback-name", "") == "fallback-name"
    ensures ExtractProject("root", "/") == ""
  {
    assert HasPrefix("cd-myproject", SessionPrefix);
    assert HasPrefix("cd-", SessionPrefix);
    assert !HasPrefix("fallback-name", SessionPrefix) by {
      assert "fallback-name"[..3] == "fal";
    }
    assert !HasPrefix("root", SessionPrefix) by {
      assert "root"[..3] == "roo";
    }
    assert TrimRightChar("/", '/') == "";
  }

  // ---------------------------------------------------------------------------
  // Status classification
  // ---------------------------------------------------------------------------

  /** Activity younger than this counts as output still streaming. */
  const IdleThreshold: int := 2 * NanosPerSecond

  /** How many pane lines, counted from the bottom, are inspected. */
  const StatusTailLines: nat := 20

  /** A non-zero activity time (Unix seconds) less than two seconds before `now`
      (nanoseconds). */
  predicate RecentlyActive(activity: Option<int>, now: int) {
    activity.Some? && now - activity.value * NanosPerSecond < IdleThreshold
  }

  /** A trimmed pane line that asks the user something: it ends with "?" or
      carries one of the confirmation patterns. */
  predicate IsWaitingLine(line: string) {
    && line != ""
    && (|| HasSuffix(line, "?")
        || Contains(line, "(y/n)") || Contains(line, "(Y/n)") || Contains(line, "(y/N)")
        || Contains(line, "Y/n") || Contains(line, "y/N"))
  }

  /** The first index of the inspected tail of `n` lines. */
  function TailStart(n: nat): (lo: nat)
    ensures lo <= n && n - lo <= StatusTailLines
    ensures n >= StatusTailLines ==> n - lo == StatusTailLines
  {
    if n >= StatusTailLines then n - StatusTailLines else 0
  }

  /** A pane line that, trimmed, asks the user something. */
  predicate AsksUser(line: string) {
    IsWaitingLine(TrimSpace(line))
  }

  /** Line `k` of the pane asks the user something. */
  predicate WaitingAt(lines: seq<string>, k: int)
    requires 0 <= k < |lines|
  {
    AsksUser(lines[k])
  }

  /** The bottom-up scan over `lines[lo..i]`, stopping at the first waiting line. */
  function ScanForQuestion(lines: seq<string>, lo: nat, i: nat): (r: bool)
    requires lo <= i <= |lines|
    ensures r <==> exists k :: lo <= k < i && WaitingAt(lines, k)
  {
    var r := Seqs.AnyFromBack(lines, AsksUser, lo, i);
    assert forall k :: lo <= k < i ==> (WaitingAt(lines, k) <==> AsksUser(lines[k]));
    r
  }

  /** Some line among the last twenty of the captured pane asks a question. */
  ghost predicate PaneAsks(content: string) {
    var lines := Split(content, '\n');
    exists k :: TailStart(|lines|) <= k < |lines| && WaitingAt(lines, k)
  }

  /** `detectStatus`. `capture` is the pane text, `None` when capturing failed.
      A visible shell prompt does not change the outcome: both it and its
      absence give Idle. */
  function DetectStatus(activity: Option<int>, now: int, capture: Option<string>): (st: Status)
    ensures st == Active <==> RecentlyActive(activity, now)
    ensures st == Waiting <==> !RecentlyActive(activity, now) && capture.Some? && PaneAsks(capture.value)
    ensures st != Unknown && st != Terminal
  {
    if RecentlyActive(activity, now) then Active
    else
      match capture
      case None => Idle
      case Some(content) =>
        var lines := Split(content, '\n');
        if ScanForQuestion(lines, TailStart(|lines|), |lines|) then Waiting else Idle
  }

  /** A question above the last twenty lines is out of sight. */
  lemma OldQuestionIgnored(question: string, below: seq<string>)
    requires IsWaitingLine(TrimSpace(question))
    requires |below| >= StatusTailLines
    requires forall k :: 0 <= k < |below| ==> !WaitingAt(below, k)
    requires forall k :: 0 <= k < |below| ==> '\n' !in below[k]
    requires '\n' !in question
    ensures DetectStatus(None, 0, Some(Join([question] + below, '\n'))) == Idle
  {
    var lines := [question] + below;
    PaneLines(question, below);
    assert TailStart(|lines|) == |lines| - StatusTailLines >= 1;
    forall k | TailStart(|lines|) <= k < |lines|
      ensures !WaitingAt(lines, k)
    {
      assert lines[k] == below[k - 1];
      assert !WaitingAt(below, k - 1);
    }
    assert !PaneAsks(Join(lines, '\n'));
  }

  /** Newline-free lines joined into pane text split back into those lines. */
  lemma PaneLines(first: string, rest: seq<string>)
    requires forall k :: 0 <= k < |rest| ==> '\n' !in rest[k]
    requires '\n' !in first
    ensures Split(Join([first] + rest, '\n'), '\n') == [first] + rest
  {
    var parts := [first] + rest;
    forall k | 0 <= k < |parts| ensures '\n' !in parts[k] {
      if k > 0 {
        assert parts[k] == rest[k - 1];
      }
    }
    SplitJoin(parts, '\n');
  }

  // ---------------------------------------------------------------------------
  // Working-directory lookup
  // ---------------------------------------------------------------------------

  /** The first line of `lsof -Fn` output that names a path ("n/..."), without
      its 'n' tag; "" when there is none. */
  function FirstCwdLine(lines: seq<string>): (r: string)
    ensures r == "" <==> forall k :: 0 <= k < |lines| ==> !HasPrefix(lines[k], "n/")
    ensures r != "" ==> exists k :: 0 <= k < |lines| && HasPrefix(lines[k], "n/") && r == lines[k][1..]
                                   && forall j :: 0 <= j < k ==> !HasPrefix(lines[j], "n/")
    decreases |lines|
  {
    if |lines| == 0 then ""
    else if HasPrefix(lines[0], "n/") then
      assert lines[0][1..][0] == '/';
      lines[0][1..]
    else
      var r := FirstCwdLine(lines[1..]);
      assert forall k :: 1 <= k < |lines| ==> lines[k] == lines[1..][k - 1];
      r
  }

  /** The working directory `lsof` reports; "" when it failed. */
  function ParseLsofCwd(out: Option<string>): (r: string)
    ensures out.None? ==> r == ""
    ensures out.Some? ==> r == FirstCwdLine(Split(out.value, '\n'))
    ensures r != "" ==> r[0] == '/'
  {
    match out
    case None => ""
    case Some(text) =>
      var r := FirstCwdLine(Split(text, '\n'));
      assert r != "" ==> r[0] == '/' by {
        if r != "" {
          var lines := Split(text, '\n');
          var k :| 0 <= k < |lines| && HasPrefix(lines[k], "n/") && r == lines[k][1..];
          assert r[0] == lines[k][1];
        }
      }
      r
  }

  /** How long a looked-up directory is trusted. */
  const CwdCacheTtl: int := 10 * NanosPerSecond

  datatype CacheEntry = CacheEntry(path: string, expires: int)

  type CwdCache = map<string, CacheEntry>

  datatype Lookup = Lookup(path: string, cache: CwdCache)

  /** A cached path is served while `now` is strictly before its expiry. */
  predicate Fresh(cache: CwdCache, pid: string, now: int) {
    pid in cache && now < cache[pid].expires
  }

  /** `getProcessCWD` at time `now`, with `lsof` the output the lsof run would
      give. A fresh entry is returned untouched; otherwise the lookup result,
      even "", is stored for the next ten seconds. */
  function GetProcessCwd(cache: CwdCache, pid: string, now: int, lsof: Option<string>): (r: Lookup)
    ensures Fresh(cache, pid, now) ==> r.path == cache[pid].path && r.cache == cache
    ensures !Fresh(cache, pid, now) ==> r.path == ParseLsofCwd(lsof)
    ensures pid in r.cache && r.cache[pid].path == r.path
    ensures now < r.cache[pid].expires
    ensures r.cache.Keys == cache.Keys + {pid}
    ensures forall q :: q in cache && q != pid ==> r.cache[q] == cache[q]
  {
    if Fresh(cache, pid, now) then Lookup(cache[pid].path, cache)
    else
      var path := ParseLsofCwd(lsof);
      Lookup(path, cache[pid := CacheEntry(path, now + CwdCacheTtl)])
  }

  /** Within ten seconds of a lookup that ran lsof, asking again gives the same directory
      whatever lsof would now say, and leaves the cache as it is. */
  lemma CachedWithinTtl(cache: CwdCache, pid: string, t: int, lsof: Option<string>, t': int, lsof': Option<string>)
    requires !Fresh(cache, pid, t)
    requires t <= t' < t + CwdCacheTtl
    ensures var first := GetProcessCwd(cache, pid, t, lsof);
      var second := GetProcessCwd(first.cache, pid, t', lsof');
      second.path == first.path && second.cache == first.cache
  {
  }

  /** Ten seconds or more after a miss the directory is looked up afresh. */
  lemma RefreshedAfterTtl(cache: CwdCache, pid: string, t: int, lsof: Option<string>, t': int, lsof': Option<string>)
    requires !Fresh(cache, pid, t)
    requires t' >= t + CwdCacheTtl
    ensures var first := GetProcessCwd(cache, pid, t, lsof);
      GetProcessCwd(first.cache, pid, t', lsof').path == ParseLsofCwd(lsof')
  {
  }

  // ---------------------------------------------------------------------------
  // Terminal sessions
  // ---------------------------------------------------------------------------

  /** A claude process attached to a terminal: its PID and tty. */
  datatype TerminalProc = TerminalProc(pid: string, tty: string)

  /** The executable's base name is exactly "claude". */
  lemma BaseNameIsClaude(exe: string)
    ensures LastComponent(exe, '/') == "claude" <==> exe == "claude" || HasSuffix(exe, "/claude")
  {
    var r := LastComponent(exe, '/');
    if exe == "claude" {
      SplitNoSep(exe, '/');
    } else if HasSuffix(exe, "/claude") {
      var dir := exe[..|exe| - 7];
      assert exe == dir + ['/'] + "claude";
      SplitLastAfter(dir, '/', "claude");
    }
  }

  /** One row of `ps -eo pid,ppid,tty,args`: kept when it has four fields, the
      executable is claude, the PID is not one of a tmux session, and there is
      a controlling terminal. */
  function SelectTerminalRow(line: string, tmuxPids: set<string>): (r: Option<TerminalProc>)
    ensures r.Some? <==>
      var f := Fields(line);
      && |f| >= 4
      && (f[3] == "claude" || HasSuffix(f[3], "/claude"))
      && f[0] !in tmuxPids
      && f[2] != "?" && f[2] != "??"
    ensures r.Some? ==> r.value.pid == Fields(line)[0] && r.value.tty == Fields(line)[2]
  {
    var f := Fields(line);
    if |f| < 4 then None
    else
      BaseNameIsClaude(f[3]);
      if LastComponent(f[3], '/') != "claude" then None
      else if f[0] in tmuxPids then None
      else if f[2] == "??" || f[2] == "?" then None
      else Some(TerminalProc(f[0], f[2]))
  }

  function RowTest(tmuxPids: set<string>): string -> bool {
    (line: string) => SelectTerminalRow(line, tmuxPids).Some?
  }

  /** The rows that produce a terminal session, in order. */
  function SelectedRows(rows: seq<string>, tmuxPids: set<string>): seq<string> {
    Seqs.Filter(rows, RowTest(tmuxPids))
  }

  /** The session listed for a terminal process whose directory is `path`. */
  function TerminalSession(p: TerminalProc, path: string): (s: Session)
    ensures s.status == Terminal && !s.managed
    ensures s.pid == p.pid && s.path == path && s.name == "terminal/" + p.tty
    ensures s.project == (if path == "" then "" else PathBase(path))
  {
    Session("terminal/" + p.tty, if path == "" then "" else PathBase(path), Terminal, None, false, p.pid, path, false)
  }

  datatype Scan = Scan(sessions: seq<Session>, cache: CwdCache)

  /** The directory a scan reports for `pid`, judged against the cache as it
      was when the scan began: the fresh cached directory, or else what lsof
      reports for the PID. */
  function ExpectedCwd(cache: CwdCache, pid: string, now: int, lsof: string -> Option<string>): string {
    if Fresh(cache, pid, now) then cache[pid].path else ParseLsofCwd(lsof(pid))
  }

  /** A lookup gives the expected directory, and leaves the expected
      directory of every PID as it was. */
  lemma LookupAgrees(cache: CwdCache, pid: string, now: int, lsof: string -> Option<string>)
    ensures var look := GetProcessCwd(cache, pid, now, lsof(pid));
      && look.path == ExpectedCwd(cache, pid, now, lsof)
      && forall q :: ExpectedCwd(look.cache, q, now, lsof) == ExpectedCwd(cache, q, now, lsof)
  {
  }

  /** `s` is the terminal session listed for the ps row `line`, with the
      directory the scan's cache or lsof gives for its PID. */
  predicate Describes(s: Session, line: string, tmuxPids: set<string>,
                      cache: CwdCache, now: int, lsof: string -> Option<string>) {
    && SelectTerminalRow(line, tmuxPids).Some?
    && var p := SelectTerminalRow(line, tmuxPids).value;
    && s == TerminalSession(p, ExpectedCwd(cache, p.pid, now, lsof))
  }

  /** One session per selected row, in the rows' order. */
  predicate Reports(sessions: seq<Session>, selected: seq<string>, tmuxPids: set<string>,
                    cache: CwdCache, now: int, lsof: string -> Option<string>) {
    |sessions| == |selected| && forall k :: 0 <= k < |sessions| ==> Describes(sessions[k], selected[k], tmuxPids, cache, now, lsof)
  }

  /** What a scan does to the directory cache: nothing is dropped; a fresh
      entry, and the entry of a PID the scan does not list, stay as they
      were; every listed session's directory is cached and fresh. */
  ghost predicate CacheKept(cache: CwdCache, r: Scan, now: int) {
    && cache.Keys <= r.cache.Keys
    && FreshKept(cache, r.cache, now)
    && UnlistedKept(cache, r)
    && ListedCached(r, now)
  }

  ghost predicate FreshKept(cache: CwdCache, after: CwdCache, now: int) {
    forall q :: Fresh(cache, q, now) ==> q in after && after[q] == cache[q]
  }

  ghost predicate UnlistedKept(cache: CwdCache, r: Scan) {
    forall q :: q in cache && (forall k :: 0 <= k < |r.sessions| ==> r.sessions[k].pid != q) ==>
      q in r.cache && r.cache[q] == cache[q]
  }

  predicate ListedCached(r: Scan, now: int) {
    forall k :: 0 <= k < |r.sessions| ==>
      Fresh(r.cache, r.sessions[k].pid, now) && r.cache[r.sessions[k].pid].path == r.sessions[k].path
  }

  lemma ReportsCons(s: Session, line: string, sessions: seq<Session>, selected: seq<string>, tmuxPids: set<string>,
                    cache: CwdCache, now: int, lsof: string -> Option<string>)
    requires Describes(s, line, tmuxPids, cache, now, lsof) && Reports(sessions, selected, tmuxPids, cache, now, lsof)
    ensures Reports([s] + sessions, [line] + selected, tmuxPids, cache, now, lsof)
  {
    var ss := [s] + sessions;
    var ls := [line] + selected;
    forall k | 0 <= k < |ss| ensures Describes(ss[k], ls[k], tmuxPids, cache, now, lsof) {
      if k > 0 {
        assert ss[k] == sessions[k - 1] && ls[k] == selected[k - 1];
      }
    }
  }

  /** Reports stay true against any cache that expects the same directories. */
  lemma ReportsRecache(sessions: seq<Session>, selected: seq<string>, tmuxPids: set<string>,
                       c1: CwdCache, c2: CwdCache, now: int, lsof: string -> Option<string>)
    requires forall q :: ExpectedCwd(c1, q, now, lsof) == ExpectedCwd(c2, q, now, lsof)
    requires Reports(sessions, selected, tmuxPids, c1, now, lsof)
    ensures Reports(sessions, selected, tmuxPids, c2, now, lsof)
  {
    forall k | 0 <= k < |sessions| ensures Describes(sessions[k], selected[k], tmuxPids, c2, now, lsof) {
      assert Describes(sessions[k], selected[k], tmuxPids, c1, now, lsof);
    }
  }

  /** One step of the scan: listing `s` after looking up its PID keeps the
      cache facts of the rest of the scan. */
  lemma CacheKeptCons(cache: CwdCache, p: TerminalProc, now: int, lsof: string -> Option<string>, rest: Scan)
    requires CacheKept(GetProcessCwd(cache, p.pid, now, lsof(p.pid)).cache, rest, now)
    ensures var look := GetProcessCwd(cache, p.pid, now, lsof(p.pid));
      CacheKept(cache, Scan([TerminalSession(p, look.path)] + rest.sessions, rest.cache), now)
  {
    var look := GetProcessCwd(cache, p.pid, now, lsof(p.pid));
    assert cache.Keys <= look.cache.Keys <= rest.cache.Keys;
    KeptFresh(cache, p, now, lsof, rest);
    KeptUnlisted(cache, look, p, rest);
    KeptListed(look, p, now, rest);
  }

  lemma KeptFresh(cache: CwdCache, p: TerminalProc, now: int, lsof: string -> Option<string>, rest: Scan)
    requires FreshKept(GetProcessCwd(cache, p.pid, now, lsof(p.pid)).cache, rest.cache, now)
    ensures FreshKept(cache, rest.cache, now)
  {
    var look := GetProcessCwd(cache, p.pid, now, lsof(p.pid));
    forall q | Fresh(cache, q, now) ensures q in rest.cache && rest.cache[q] == cache[q] {
      assert look.cache[q] == cache[q];
      assert Fresh(look.cache, q, now);
    }
  }

  lemma KeptUnlisted(cache: CwdCache, look: Lookup, p: TerminalProc, rest: Scan)
    requires forall q :: q in cache && q != p.pid ==> q in look.cache && look.cache[q] == cache[q]
    requires UnlistedKept(look.cache, rest)
    ensures UnlistedKept(cache, Scan([TerminalSession(p, look.path)] + rest.sessions, rest.cache))
  {
    var ss := [TerminalSession(p, look.path)] + rest.sessions;
    forall q | q in cache && (forall k :: 0 <= k < |ss| ==> ss[k].pid != q)
      ensures q in rest.cache && rest.cache[q] == cache[q]
    {
      assert ss[0].pid != q;
      forall k | 0 <= k < |rest.sessions| ensures rest.sessions[k].pid != q {
        assert ss[k + 1] == rest.sessions[k];
      }
    }
  }

  lemma KeptListed(look: Lookup, p: TerminalProc, now: int, rest: Scan)
    requires Fresh(look.cache, p.pid, now) && look.cache[p.pid].path == look.path
    requires FreshKept(look.cache, rest.cache, now)
    requires ListedCached(rest, now)
    ensures ListedCached(Scan([TerminalSession(p, look.path)] + rest.sessions, rest.cache), now)
  {
    var ss := [TerminalSession(p, look.path)] + rest.sessions;
    forall k | 0 <= k < |ss|
      ensures Fresh(rest.cache, ss[k].pid, now) && rest.cache[ss[k].pid].path == ss[k].path
    {
      if k == 0 {
        assert rest.cache[p.pid] == look.cache[p.pid];
      } else {
        assert ss[k] == rest.sessions[k - 1];
      }
    }
  }

  lemma SelectedRowsCons(rows: seq<string>, tmuxPids: set<string>)
    requires |rows| > 0
    ensures SelectedRows(rows, tmuxPids)
            == (if SelectTerminalRow(rows[0], tmuxPids).Some? then [rows[0]] else []) + SelectedRows(rows[1..], tmuxPids)
  {
  }

  /** The loop of `DetectTerminalSessions` over the rows after the header,
      threading the directory cache. */
  function ScanTerminalRows(rows: seq<string>, tmuxPids: set<string>, cache: CwdCache, now: int,
                            lsof: string -> Option<string>): (r: Scan)
    ensures Reports(r.sessions, SelectedRows(rows, tmuxPids), tmuxPids, cache, now, lsof)
    ensures CacheKept(cache, r, now)
    decreases |rows|
  {
    if |rows| == 0 then Scan([], cache)
    else
      SelectedRowsCons(rows, tmuxPids);
      match SelectTerminalRow(rows[0], tmuxPids)
      case None => ScanTerminalRows(rows[1..], tmuxPids, cache, now, lsof)
      case Some(p) =>
        var look := GetProcessCwd(cache, p.pid, now, lsof(p.pid));
        var rest := ScanTerminalRows(rows[1..], tmuxPids, look.cache, now, lsof);
        var s := TerminalSession(p, look.path);
        LookupAgrees(cache, p.pid, now, lsof);
        ReportsRecache(rest.sessions, SelectedRows(rows[1..], tmuxPids), tmuxPids, look.cache, cache, now, lsof);
        ReportsCons(s, rows[0], rest.sessions, SelectedRows(rows[1..], tmuxPids), tmuxPids, cache, now, lsof);
        CacheKeptCons(cache, p, now, lsof, rest);
        Scan([s] + rest.sessions, rest.cache)
  }

  /** `DetectTerminalSessions`: nothing when ps fails; the header row is skipped. */
  function DetectTerminalSessions(ps: Option<string>, tmuxPids: set<string>, cache: CwdCache, now: int,
                                  lsof: string -> Option<string>): (r: Scan)
    ensures ps.None? ==> r.sessions == [] && r.cache == cache
    ensures ps.Some? ==> Reports(r.sessions, SelectedRows(Split(ps.value, '\n')[1..], tmuxPids), tmuxPids, cache, now, lsof)
    ensures CacheKept(cache, r, now)
    ensures forall k :: 0 <= k < |r.sessions| ==>
      r.sessions[k].status == Terminal && !r.sessions[k].managed && r.sessions[k].pid !in tmuxPids
  {
    match ps
    case None => Scan([], cache)
    case Some(out) =>
      var r := ScanTerminalRows(Split(out, '\n')[1..], tmuxPids, cache, now, lsof);
      assert forall k :: 0 <= k < |r.sessions| ==>
        Describes(r.sessions[k], SelectedRows(Split(out, '\n')[1..], tmuxPids)[k], tmuxPids, cache, now, lsof);
      r
  }

  // ---------------------------------------------------------------------------
  // Detect
  // ---------------------------------------------------------------------------

  /** What discovery may ask of the outside world. `tmux` maps an argument
      vector to the command's standard output, `None` when it fails;
      `hasClaudeProcess` is the pane-command and process-tree test of the tmux
      client; `procEntries` is the monitor's process table in the order its map
      is iterated; `ps` is the output of `ps -eo pid,ppid,tty,args`; `lsof` the
      output of the working-directory query for a PID; `now` the clock in
      nanoseconds. */
  datatype Host = Host(
    tmux: seq<string> -> Option<string>,
    hasClaudeProcess: (string, Children) -> bool,
    procEntries: seq<ProcTriple>,
    ps: Option<string>,
    lsof: string -> Option<string>,
    now: int)

  function ListSessionsArgv(): seq<string> {
    ["list-sessions", "-F", SessionFormat]
  }

  function PanePidArgv(name: string): seq<string> {
    ["list-panes", "-t", name, "-F", "#{pane_pid}"]
  }

  /** `ListSessions`: trimmed output, `None` on failure. The source also maps
      "no server running" to empty output; both lead to the same path here. */
  function ListSessions(host: Host): (r: Option<string>)
    ensures r.None? <==> host.tmux(ListSessionsArgv()).None?
    ensures r.Some? ==> TrimmedOf(host.tmux(ListSessionsArgv()).value, r.value)
  {
    match host.tmux(ListSessionsArgv())
    case None => None
    case Some(out) => TrimSpaceTrimmed(out); Some(TrimSpace(out))
  }

  /** A session shown by the dashboard: managed by name, or running claude. */
  predicate IsCandidate(name: string, runsClaude: bool) {
    HasPrefix(name, SessionPrefix) || Contains(ToLower(name), "claude") || runsClaude
  }

  function CandidateTest(host: Host, children: Children): RawSession -> bool {
    (raw: RawSession) => IsCandidate(raw.name, host.hasClaudeProcess(raw.name, children))
  }

  /** The record built for one candidate tmux session. */
  function TmuxSession(host: Host, raw: RawSession): (s: Session)
    ensures s.managed && s.name == raw.name && s.path == raw.path
    ensures s.startedAt == raw.created && s.attached == raw.attached
    ensures s.project == ExtractProject(raw.name, raw.path)
    ensures s.status == DetectStatus(raw.activity, host.now, host.tmux(CapturePaneArgv(raw.name, StatusTailLines)))
    ensures host.tmux(PanePidArgv(raw.name)).None? ==> s.pid == ""
    ensures host.tmux(PanePidArgv(raw.name)).Some? ==> s.pid == SessionPid(host.tmux(PanePidArgv(raw.name))).value
  {
    Session(
      raw.name,
      ExtractProject(raw.name, raw.path),
      DetectStatus(raw.activity, host.now, host.tmux(CapturePaneArgv(raw.name, StatusTailLines))),
      raw.created,
      raw.attached,
      SessionPid(host.tmux(PanePidArgv(raw.name))).GetOr(""),
      raw.path,
      true)
  }

  /** `TmuxSession` for a fixed host, as a function of the raw record. */
  function TmuxSessionOf(host: Host): RawSession -> Session {
    (raw: RawSession) => TmuxSession(host, raw)
  }

  /** The loop of `Detect` over the parsed sessions: one record per candidate, in order. */
  function TmuxSessions(host: Host, children: Children, raws: seq<RawSession>): (r: seq<Session>)
    ensures r == Seqs.Map(Seqs.Filter(raws, CandidateTest(host, children)), TmuxSessionOf(host))
    decreases |raws|
  {
    if |raws| == 0 then []
    else
      var p := CandidateTest(host, children);
      var rest := TmuxSessions(host, children, raws[1..]);
      if IsCandidate(raws[0].name, host.hasClaudeProcess(raws[0].name, children)) then
        assert Seqs.Filter(raws, p) == [raws[0]] + Seqs.Filter(raws[1..], p);
        Seqs.MapCons(raws[0], Seqs.Filter(raws[1..], p), TmuxSessionOf(host));
        [TmuxSession(host, raws[0])] + rest
      else
        assert Seqs.Filter(raws, p) == Seqs.Filter(raws[1..], p);
        rest
  }

  /** The non-empty PIDs of the tmux sessions. */
  function TmuxPids(sessions: seq<Session>): (pids: set<string>)
    ensures forall p :: p in pids <==> exists k :: 0 <= k < |sessions| && sessions[k].pid == p && p != ""
  {
    set k | 0 <= k < |sessions| && sessions[k].pid != "" :: sessions[k].pid
  }

  /** Managed sessions come first; none has an unknown or terminal status. */
  predicate ManagedFirst(sessions: seq<Session>) {
    && (forall i, j :: 0 <= i < j < |sessions| && !sessions[i].managed ==> !sessions[j].managed)
    && (forall k :: 0 <= k < |sessions| && sessions[k].managed ==>
          sessions[k].status != Unknown && sessions[k].status != Terminal)
    && (forall k :: 0 <= k < |sessions| && !sessions[k].managed ==> sessions[k].status == Terminal)
  }

  /** No process is listed both as a tmux session and as a terminal session. */
  predicate NoDoubleListing(sessions: seq<Session>) {
    forall i, j :: 0 <= i < |sessions| && 0 <= j < |sessions|
      && sessions[i].managed && !sessions[j].managed && sessions[i].pid != ""
      ==> sessions[i].pid != sessions[j].pid
  }

  lemma TmuxSessionsManaged(host: Host, children: Children, raws: seq<RawSession>)
    ensures var ss := TmuxSessions(host, children, raws);
      forall k :: 0 <= k < |ss| ==> ss[k].managed && ss[k].status != Unknown && ss[k].status != Terminal
  {
    var ss := TmuxSessions(host, children, raws);
    forall k | 0 <= k < |ss| ensures ss[k].managed && ss[k].status != Unknown && ss[k].status != Terminal {
      var raw := Seqs.Filter(raws, CandidateTest(host, children))[k];
      assert ss[k] == TmuxSession(host, raw);
    }
  }

  /** Appending terminal sessions that avoid the tmux PIDs keeps both invariants. */
  lemma ConcatListing(managed: seq<Session>, terminal: seq<Session>)
    requires forall k :: 0 <= k < |managed| ==>
      managed[k].managed && managed[k].status != Unknown && managed[k].status != Terminal
    requires forall k :: 0 <= k < |terminal| ==>
      terminal[k].status == Terminal && !terminal[k].managed && terminal[k].pid !in TmuxPids(managed)
    ensures ManagedFirst(managed + terminal) && NoDoubleListing(managed + terminal)
  {
    var all := managed + terminal;
    assert forall k :: 0 <= k < |managed| ==> all[k] == managed[k];
    assert forall k :: |managed| <= k < |all| ==> all[k] == terminal[k - |managed|];
    forall i, j | 0 <= i < |all| && 0 <= j < |all| && all[i].managed && !all[j].managed && all[i].pid != ""
      ensures all[i].pid != all[j].pid
    {
      assert i < |managed| && j >= |managed|;
      assert all[i].pid in TmuxPids(managed);
    }
  }

  /** `Detect`: the tmux sessions followed by the terminal sessions, with the
      directory cache afterwards. When tmux cannot list sessions, or lists
      none, only terminal sessions are reported, and none of them is excluded. */
  function Detect(host: Host, cache: CwdCache): (r: Scan)
    ensures ListSessions(host).None? || ListSessions(host).value == "" ==>
      r == DetectTerminalSessions(host.ps, {}, cache, host.now, host.lsof)
    ensures ListSessions(host).Some? && ListSessions(host).value != "" ==>
      var managed := TmuxSessions(host, BuildProcChildren(host.procEntries), ParseSessions(ListSessions(host).value));
      var t := DetectTerminalSessions(host.ps, TmuxPids(managed), cache, host.now, host.lsof);
      r == Scan(managed + t.sessions, t.cache)
  {
    if ListSessions(host).Some? && ListSessions(host).value != "" then
      var managed := TmuxSessions(host, BuildProcChildren(host.procEntries), ParseSessions(ListSessions(host).value));
      var t := DetectTerminalSessions(host.ps, TmuxPids(managed), cache, host.now, host.lsof);
      Scan(managed + t.sessions, t.cache)
    else
      DetectTerminalSessions(host.ps, {}, cache, host.now, host.lsof)
  }

  /** The listing `Detect` returns has the tmux sessions first and never lists
      a tmux session's process again as a terminal session. */
  lemma DetectWellFormed(host: Host, cache: CwdCache)
    ensures ManagedFirst(Detect(host, cache).sessions)
    ensures NoDoubleListing(Detect(host, cache).sessions)
  {
    var r := Detect(host, cache);
    if ListSessions(host).Some? && ListSessions(host).value != "" {
      var children := BuildProcChildren(host.procEntries);
      var raws := ParseSessions(ListSessions(host).value);
      var managed := TmuxSessions(host, children, raws);
      var t := DetectTerminalSessions(host.ps, TmuxPids(managed), cache, host.now, host.lsof);
      TmuxSessionsManaged(host, children, raws);
      ConcatListing(managed, t.sessions);
    } else {
      ConcatListing([], r.sessions);
      assert [] + r.sessions == r.sessions;
    }
  }

  predicate IsManaged(s: Session) {
    s.managed
  }

  /** The managed sessions of the listing are exactly the tmux candidates, in
      order, and there are none when tmux lists nothing. */
  lemma DetectManagedAreTmux(host: Host, cache: CwdCache)
    ensures Seqs.Filter(Detect(host, cache).sessions, IsManaged)
         == if ListSessions(host).None? || ListSessions(host).value == "" then []
            else TmuxSessions(host, BuildProcChildren(host.procEntries), ParseSessions(ListSessions(host).value))
  {
    var r := Detect(host, cache);
    if ListSessions(host).None? || ListSessions(host).value == "" {
      Seqs.FilterNone(r.sessions, IsManaged);
    } else {
      var children := BuildProcChildren(host.procEntries);
      var raws := ParseSessions(ListSessions(host).value);
      var managed := TmuxSessions(host, children, raws);
      var t := DetectTerminalSessions(host.ps, TmuxPids(managed), cache, host.now, host.lsof);
      TmuxSessionsManaged(host, children, raws);
      ManagedPrefix(managed, t.sessions);
    }
  }

  /** Filtering managed records out of managed-then-unmanaged gives the first part. */
  lemma ManagedPrefix(managed: seq<Session>, terminal: seq<Session>)
    requires forall k :: 0 <= k < |managed| ==> managed[k].managed
    requires forall k :: 0 <= k < |terminal| ==> !terminal[k].managed
    ensures Seqs.Filter(managed + terminal, IsManaged) == managed
  {
    Seqs.FilterAppend(managed, terminal, IsManaged);
    Seqs.FilterAll(managed, IsManaged);
    Seqs.FilterNone(terminal, IsManaged);
  }
}
