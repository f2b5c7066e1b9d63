/** The pure parts of the tmux client (internal/tmux/client.go): session-name
    validation, the argument vectors handed to tmux, the parent-to-children
    process index and the breadth-first search for a "claude" descendant.
    Running tmux or ps is not modelled: their outputs are inputs here. */
module TmuxClient {
  import opened Wrappers
  import opened Strings
  import Seqs

  datatype ClientError = InvalidSessionName(name: string)

  // ---------------------------------------------------------------------------
  // Session names
  // ---------------------------------------------------------------------------

  /** A character of the class `[a-zA-Z0-9_-]`. */
  predicate IsNameChar(c: char) {
    ('a' <= c <= 'z') || ('A' <= c <= 'Z') || ('0' <= c <= '9') || c == '_' || c == '-'
  }

  /** The language of `^[a-zA-Z0-9_-]+$`. */
  predicate IsValidSessionName(name: string) {
    |name| > 0 && forall i :: 0 <= i < |name| ==> IsNameChar(name[i])
  }

  /** `validateSessionName`, scanning the name one character at a time. */
  method ValidateSessionName(name: string) returns (r: Outcome<ClientError>)
    ensures r.Pass? <==> IsValidSessionName(name)
    ensures r.Fail? ==> r.error == InvalidSessionName(name)
  {
    if |name| == 0 {
      return Fail(InvalidSessionName(name));
    }
    var i := 0;
    while i < |name|
      invariant 0 <= i <= |name|
      invariant forall j :: 0 <= j < i ==> IsNameChar(name[j])
    {
      if !IsNameChar(name[i]) {
        return Fail(InvalidSessionName(name));
      }
      i := i + 1;
    }
    return Pass;
  }

  // ---------------------------------------------------------------------------
  // Argument vectors
  // ---------------------------------------------------------------------------

  /** What a `new-session` invocation asks tmux for. */
  datatype NewSessionRequest = NewSessionRequest(name: string, startDir: string, command: string)

  /** Arguments of `NewSession`; the name is validated before anything is built. */
  function NewSessionArgv(name: string, startDir: string, command: string): (r: Result<seq<string>, ClientError>)
    ensures r.Success? <==> IsValidSessionName(name)
    ensures r.Failure? ==> r.error == InvalidSessionName(name)
    ensures r.Success? ==>
      && |r.value| == 4 + (if startDir != "" then 2 else 0) + (if command != "" then 1 else 0)
      && r.value[..4] == ["new-session", "-d", "-s", name]
  {
    if !IsValidSessionName(name) then Failure(InvalidSessionName(name))
    else
      Success(["new-session", "-d", "-s", name]
        + (if startDir != "" then ["-c", startDir] else [])
        + (if command != "" then [command] else []))
  }

  /** How tmux reads a `new-session -d -s NAME [-c DIR] [COMMAND]` vector. */
  function ParseNewSessionArgv(argv: seq<string>): Option<NewSessionRequest> {
    if |argv| < 4 || argv[..3] != ["new-session", "-d", "-s"] then None
    else
      var rest := argv[4..];
      if |rest| >= 2 && rest[0] == "-c" then
        if |rest| == 2 then Some(NewSessionRequest(argv[3], rest[1], ""))
        else if |rest| == 3 then Some(NewSessionRequest(argv[3], rest[1], rest[2]))
        else None
      else if |rest| == 0 then Some(NewSessionRequest(argv[3], "", ""))
      else if |rest| == 1 then Some(NewSessionRequest(argv[3], "", rest[0]))
      else None
  }

  /** The vector built by `NewSession` carries exactly the requested name,
      directory and command: an empty directory or command is simply absent. */
  lemma NewSessionArgvRoundTrip(name: string, startDir: string, command: string)
    requires IsValidSessionName(name)
    ensures ParseNewSessionArgv(NewSessionArgv(name, startDir, command).value)
            == Some(NewSessionRequest(name, startDir, command))
  {
    var argv := NewSessionArgv(name, startDir, command).value;
    assert argv[..3] == ["new-session", "-d", "-s"];
    var rest := argv[4..];
    if startDir != "" {
      assert rest[0] == "-c" && rest[1] == startDir;
      if command != "" {
        assert rest == ["-c", startDir, command];
      } else {
        assert rest == ["-c", startDir];
      }
    } else if command != "" {
      assert rest == [command];
    } else {
      assert rest == [];
    }
  }

  /** Arguments of `KillSession`. */
  function KillSessionArgv(name: string): (r: Result<seq<string>, ClientError>)
    ensures r.Success? <==> IsValidSessionName(name)
    ensures r.Failure? ==> r.error == InvalidSessionName(name)
    ensures r.Success? ==> r.value == ["kill-session", "-t", name]
  {
    if !IsValidSessionName(name) then Failure(InvalidSessionName(name))
    else Success(["kill-session", "-t", name])
  }

  /** Arguments of `SendKeys`: the keys are followed by an Enter key press. */
  function SendKeysArgv(name: string, keys: string): (r: Result<seq<string>, ClientError>)
    ensures r.Success? <==> IsValidSessionName(name)
    ensures r.Failure? ==> r.error == InvalidSessionName(name)
    ensures r.Success? ==> r.value == ["send-keys", "-t", name, keys, "Enter"]
  {
    if !IsValidSessionName(name) then Failure(InvalidSessionName(name))
    else Success(["send-keys", "-t", name, keys, "Enter"])
  }

  /** Arguments of `CapturePaneContent`: a positive history adds `-S -N`,
      which tmux reads as "start N lines back". */
  function CapturePaneArgv(name: string, historyLines: Int64): (r: seq<string>)
    ensures |r| >= 4 && r[..4] == ["capture-pane", "-t", name, "-p"]
    ensures historyLines <= 0 ==> |r| == 4
    ensures historyLines > 0 ==> |r| == 6 && r[4] == "-S" && ParseInt64(r[5]) == Some(-historyLines)
  {
    var base := ["capture-pane", "-t", name, "-p"];
    if historyLines > 0 then
      IntToStringRoundTrip(-historyLines);
      assert IntToString(-historyLines) == "-" + IntToString(historyLines);
      base + ["-S", "-" + IntToString(historyLines)]
    else base
  }

  /** `GetSessionPID`: the first line of the trimmed `list-panes` output; `None`
      when tmux failed. Splitting always yields a line, so the source's
      "no pane found" error cannot occur. */
  function SessionPid(listPanesOutput: Option<string>): (r: Option<string>)
    ensures r.Some? <==> listPanesOutput.Some?
    ensures r.Some? ==> FirstLine(TrimSpace(listPanesOutput.value), r.value)
  {
    match listPanesOutput
    case None => None
    case Some(out) =>
      var trimmed := TrimSpace(out);
      var lines := Split(trimmed, '\n');
      JoinSplit(trimmed, '\n');
      assert |lines| == 1 || Join(lines, '\n') == lines[0] + ['\n'] + Join(lines[1..], '\n');
      Some(lines[0])
  }

  /** `line` is the first line of `text`: a prefix without a newline that is
      followed by a newline or by the end of the text. */
  predicate FirstLine(text: string, line: string) {
    && '\n' !in line && HasPrefix(text, line)
    && (|line| == |text| || text[|line|] == '\n')
  }

  /** For a listing whose first pane's PID is `p`, the session's PID is `p`,
      whatever the other lines and the surrounding white space hold. */
  lemma SessionPidFirstPane(p: string, rest: string)
    requires |p| > 0 && '\n' !in p && !IsSpace(p[0]) && !IsSpace(p[|p| - 1])
    ensures SessionPid(Some(p + "\n" + rest)) == Some(p)
  {
    var s := p + "\n" + rest;
    var t := TrimSpace(s);
    var r := SessionPid(Some(s)).value;
    TrimSpaceTrimmed(s);
    var i, j := TrimmedOfBounds(s, t);
    assert s[0] == p[0] && s[|p| - 1] == p[|p| - 1];
    assert i == 0;
    assert |t| >= |p|;
    assert t[..|p|] == p by {
      assert s[..|p|] == p;
    }
    assert |t| == |p| || t[|p|] == '\n' by {
      if |t| > |p| { assert t[|p|] == s[|p|]; }
    }
    assert r == t[..|r|];
  }

  // ---------------------------------------------------------------------------
  // Process tree
  // ---------------------------------------------------------------------------

  /** A child process under some parent: its PID and full command line. */
  datatype ProcEntry = ProcEntry(pid: string, args: string)

  /** One row of the process table as handed to `BuildProcChildren`. */
  datatype ProcTriple = ProcTriple(pid: string, ppid: string, args: string)

  type Children = map<string, seq<ProcEntry>>

  function AsEntry(t: ProcTriple): ProcEntry {
    ProcEntry(t.pid, t.args)
  }

  function AsEntries(ts: seq<ProcTriple>): (r: seq<ProcEntry>)
    ensures |r| == |ts|
    decreases |ts|
  {
    if |ts| == 0 then [] else [AsEntry(ts[0])] + AsEntries(ts[1..])
  }

  lemma {:induction false} AsEntriesAppend(a: seq<ProcTriple>, b: seq<ProcTriple>)
    ensures AsEntries(a + b) == AsEntries(a) + AsEntries(b)
    decreases |a|
  {
    if |a| == 0 {
      assert a + b == b;
    } else {
      assert (a + b)[1..] == a[1..] + b;
      AsEntriesAppend(a[1..], b);
    }
  }

  /** Reference definition: the entries whose parent is `ppid`, in input order. */
  function ChildrenOf(entries: seq<ProcTriple>, ppid: string): seq<ProcEntry> {
    AsEntries(Seqs.Filter(entries, (t: ProcTriple) => t.ppid == ppid))
  }

  lemma ChildrenOfSnoc(init: seq<ProcTriple>, e: ProcTriple, ppid: string)
    ensures ChildrenOf(init + [e], ppid)
            == ChildrenOf(init, ppid) + (if e.ppid == ppid then [AsEntry(e)] else [])
  {
    var p := (t: ProcTriple) => t.ppid == ppid;
    Seqs.FilterAppend(init, [e], p);
    assert Seqs.Filter([e], p) == if e.ppid == ppid then [e] else [];
    AsEntriesAppend(Seqs.Filter(init, p), Seqs.Filter([e], p));
  }

  /** `BuildProcChildren`: every entry is filed once under its parent PID, in
      input order, and only parents that occur get a key. */
  function BuildProcChildren(entries: seq<ProcTriple>): (m: Children)
    ensures IndexesParents(entries, m)
    decreases |entries|
  {
    if |entries| == 0 then map[]
    else
      var e := entries[|entries| - 1];
      var m := BuildProcChildren(entries[..|entries| - 1]);
      FileLast(entries, m);
      m[e.ppid := (if e.ppid in m then m[e.ppid] else []) + [AsEntry(e)]]
  }

  /** `m` has a key for each parent PID of `entries` and nothing else, and under
      each key the children in input order. */
  ghost predicate IndexesParents(entries: seq<ProcTriple>, m: Children) {
    && (forall k :: k in m <==> exists i :: 0 <= i < |entries| && entries[i].ppid == k)
    && (forall k :: k in m ==> m[k] == ChildrenOf(entries, k))
  }

  /** `FileEntry`, stated for the last entry of `entries`. */
  lemma FileLast(entries: seq<ProcTriple>, m: Children)
    requires |entries| > 0 && IndexesParents(entries[..|entries| - 1], m)
    ensures var e := entries[|entries| - 1];
      IndexesParents(entries, m[e.ppid := (if e.ppid in m then m[e.ppid] else []) + [AsEntry(e)]])
  {
    var init, e := entries[..|entries| - 1], entries[|entries| - 1];
    assert entries == init + [e];
    FileEntry(init, e, m);
  }

  /** Filing one more entry keeps the index exact. */
  lemma FileEntry(init: seq<ProcTriple>, e: ProcTriple, m: Children)
    requires IndexesParents(init, m)
    ensures IndexesParents(init + [e], m[e.ppid := (if e.ppid in m then m[e.ppid] else []) + [AsEntry(e)]])
  {
    var entries := init + [e];
    var m' := m[e.ppid := (if e.ppid in m then m[e.ppid] else []) + [AsEntry(e)]];
    forall k | k in m'
      ensures m'[k] == ChildrenOf(entries, k)
    {
      ChildrenOfSnoc(init, e, k);
      if k !in m {
        NoChildrenWithoutParent(init, k);
      }
    }
    forall k
      ensures k in m' <==> exists i :: 0 <= i < |entries| && entries[i].ppid == k
    {
      if k in m' && k != e.ppid {
        var i :| 0 <= i < |init| && init[i].ppid == k;
        assert entries[i] == init[i];
      }
      if k !in m' {
        forall i | 0 <= i < |entries| ensures entries[i].ppid != k {
          if i < |init| {
            assert entries[i] == init[i];
          }
        }
      }
      assert entries[|init|] == e;
    }
  }

  lemma {:induction false} NoChildrenWithoutParent(entries: seq<ProcTriple>, ppid: string)
    requires forall i :: 0 <= i < |entries| ==> entries[i].ppid != ppid
    ensures ChildrenOf(entries, ppid) == []
    decreases |entries|
  {
    if |entries| > 0 {
      NoChildrenWithoutParent(entries[1..], ppid);
    }
  }

  /** The child test of `hasClaudeDescendant`. */
  predicate MatchesClaude(e: ProcEntry) {
    Contains(ToLower(e.args), "claude")
  }

  /** A walk down the index: `p[i+1]` is the PID of entry `js[i]` under `p[i]`. */
  ghost predicate IsWalk(children: Children, p: seq<string>, js: seq<nat>) {
    && |p| >= 1 && |js| == |p| - 1
    && forall i :: 0 <= i < |js| ==>
         p[i] in children && js[i] < |children[p[i]]| && children[p[i]][js[i]].pid == p[i + 1]
  }

  ghost predicate Reachable(children: Children, root: string, v: string) {
    exists p, js :: IsWalk(children, p, js) && p[0] == root && p[|p| - 1] == v
  }

  ghost predicate HasMatchingChild(children: Children, u: string) {
    u in children && exists j :: 0 <= j < |children[u]| && MatchesClaude(children[u][j])
  }

  /** Some PID reachable from `root` (the root included) has a child entry whose
      lower-cased command line contains "claude"; the root's own command line
      plays no part. */
  ghost predicate DescendantMatches(children: Children, root: string) {
    exists v :: Reachable(children, root, v) && HasMatchingChild(children, v)
  }

  ghost function AllPids(children: Children): set<string> {
    set u, j | u in children && 0 <= j < |children[u]| :: children[u][j].pid
  }

  lemma ReachableRoot(children: Children, root: string)
    ensures Reachable(children, root, root)
  {
    assert IsWalk(children, [root], []);
  }

  lemma ReachableStep(children: Children, root: string, u: string, j: nat)
    requires Reachable(children, root, u)
    requires u in children && j < |children[u]|
    ensures Reachable(children, root, children[u][j].pid)
  {
    var p, js :| IsWalk(children, p, js) && p[0] == root && p[|p| - 1] == u;
    var p' := p + [children[u][j].pid];
    var js' := js + [j];
    assert IsWalk(children, p', js') by {
      forall i | 0 <= i < |js'|
        ensures p'[i] in children && js'[i] < |children[p'[i]]| && children[p'[i]][js'[i]].pid == p'[i + 1]
      {
        if i < |js| {
          assert p'[i] == p[i] && p'[i + 1] == p[i + 1] && js'[i] == js[i];
        }
      }
    }
  }

  /** A set that holds the root and is closed under the child relation holds
      every node reachable from the root. */
  lemma {:induction false} ClosedSetHoldsWalk(children: Children, root: string, s: set<string>,
                                              p: seq<string>, js: seq<nat>)
    requires root in s
    requires forall v, j :: v in s && v in children && 0 <= j < |children[v]| ==> children[v][j].pid in s
    requires IsWalk(children, p, js) && p[0] == root
    ensures p[|p| - 1] in s
    decreases |p|
  {
    if |p| > 1 {
      var q := p[..|p| - 1];
      var qs := js[..|js| - 1];
      assert IsWalk(children, q, qs) by {
        forall i | 0 <= i < |qs|
          ensures q[i] in children && qs[i] < |children[q[i]]| && children[q[i]][qs[i]].pid == q[i + 1]
        {
          assert q[i] == p[i] && q[i + 1] == p[i + 1] && qs[i] == js[i];
        }
      }
      ClosedSetHoldsWalk(children, root, s, q, qs);
      var k := |js| - 1;
      assert p[k] == q[|q| - 1];
      assert children[p[k]][js[k]].pid == p[k + 1];
    }
  }

  /** Every queued PID is a known node reachable from the root. */
  ghost predicate QueueSound(children: Children, root: string, nodes: set<string>, queue: seq<string>) {
    forall q :: q in queue ==> q in nodes && Reachable(children, root, q)
  }

  /** Every child of an expanded PID is expanded or waiting in the queue. */
  ghost predicate Frontier(children: Children, visited: set<string>, queue: seq<string>) {
    forall v, j :: v in visited && v in children && 0 <= j < |children[v]| ==>
      children[v][j].pid in visited || children[v][j].pid in queue
  }

  /** One expansion step of the search: scan the children of `current` in
      order, stopping at the first match, and queue the PIDs of the others. */
  method ExpandNode(children: Children, root: string, ghost nodes: set<string>,
                    current: string, queue: seq<string>) returns (hit: bool, queue': seq<string>)
    requires Reachable(children, root, current)
    requires nodes == {root} + AllPids(children)
    requires QueueSound(children, root, nodes, queue)
    ensures hit <==> HasMatchingChild(children, current)
    ensures QueueSound(children, root, nodes, queue')
    ensures forall x :: x in queue ==> x in queue'
    ensures !hit && current in children ==>
              forall j :: 0 <= j < |children[current]| ==> children[current][j].pid in queue'
  {
    var kids := if current in children then children[current] else [];
    queue' := queue;
    var idx := 0;
    while idx < |kids|
      invariant 0 <= idx <= |kids|
      invariant forall j :: 0 <= j < idx ==> !MatchesClaude(kids[j]) && kids[j].pid in queue'
      invariant forall x :: x in queue ==> x in queue'
      invariant QueueSound(children, root, nodes, queue')
    {
      if MatchesClaude(kids[idx]) {
        return true, queue';
      }
      ReachableStep(children, root, current, idx);
      assert kids[idx].pid in AllPids(children);
      queue' := queue' + [kids[idx].pid];
      idx := idx + 1;
    }
    return false, queue';
  }

  /** The breadth-first search of `hasClaudeDescendant`. Each PID is expanded at
      most once, so the search ends even when the parent data is cyclic. */
  method HasClaudeDescendant(root: string, children: Children) returns (found: bool)
    ensures found <==> DescendantMatches(children, root)
  {
    ghost var nodes := {root} + AllPids(children);
    var queue := [root];
    var visited: set<string> := {};
    ReachableRoot(children, root);
    while |queue| > 0
      invariant visited <= nodes
      invariant QueueSound(children, root, nodes, queue)
      invariant forall v :: v in visited ==> Reachable(children, root, v) && !HasMatchingChild(children, v)
      invariant root in visited || root in queue
      invariant Frontier(children, visited, queue)
      decreases nodes - visited, |queue|
    {
      var current := queue[0];
      ghost var before := queue;
      queue := queue[1..];
      assert forall x :: x in before ==> x == current || x in queue;
      if current in visited {
        continue;
      }
      visited := visited + {current};
      var hit;
      hit, queue := ExpandNode(children, root, nodes, current, queue);
      if hit {
        return true;
      }
    }
    if DescendantMatches(children, root) {
      var v :| Reachable(children, root, v) && HasMatchingChild(children, v);
      var p, js :| IsWalk(children, p, js) && p[0] == root && p[|p| - 1] == v;
      ClosedSetHoldsWalk(children, root, visited, p, js);
      assert false;
    }
    return false;
  }
}
