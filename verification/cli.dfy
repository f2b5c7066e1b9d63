/** The command line (cmd/claude-dashboard/main.go): which invocations run
    the first-time setup check, how `new` reads its arguments, and the
    session name it falls back to. `args` is the whole argument vector, the
    program name first; the working and home directories are parameters. */
module Cli {
  import opened Wrappers
  import opened Strings
  import Sessions

  // ---------------------------------------------------------------------------
  // Auto-setup
  // ---------------------------------------------------------------------------

  /** The sub-commands that must work before setup has run. */
  predicate SkipsAutoSetup(cmd: string) {
    cmd == "--version" || cmd == "-v" || cmd == "--help" || cmd == "-h" || cmd == "setup"
  }

  /** Whether `main` checks for (and runs) the first-time setup: always for
      the bare dashboard, and for every sub-command except those above. */
  function ChecksSetup(args: seq<string>): (r: bool)
    ensures |args| <= 1 ==> r
    ensures |args| > 1 ==> (r <==> !SkipsAutoSetup(args[1]))
  {
    |args| <= 1 || !SkipsAutoSetup(args[1])
  }

  lemma ChecksSetupExamples()
    ensures ChecksSetup(["claude-dashboard"]) && ChecksSetup(["claude-dashboard", "new"])
    ensures !ChecksSetup(["claude-dashboard", "-h"]) && !ChecksSetup(["claude-dashboard", "setup"])
  {
  }

  // ---------------------------------------------------------------------------
  // `new` arguments
  // ---------------------------------------------------------------------------

  /** What `new` was asked for; an empty name means none was given. */
  datatype NewArgs = NewArgs(name: string, path: string, claudeArgs: string)

  /** The option scan as a reference: `--path` and `--args` take the token
      after them when there is one; every other token is skipped. */
  function ScanOptions(ts: seq<string>, path: string, claudeArgs: string): (r: (string, string))
    decreases |ts|
  {
    if |ts| == 0 then (path, claudeArgs)
    else if ts[0] == "--path" && |ts| > 1 then ScanOptions(ts[2..], ts[1], claudeArgs)
    else if ts[0] == "--args" && |ts| > 1 then ScanOptions(ts[2..], path, ts[1])
    else ScanOptions(ts[1..], path, claudeArgs)
  }

  /** Where the options begin: after the name, when the first token after
      `new` is not an option. */
  function OptionStart(args: seq<string>): (k: nat)
    ensures k == 2 || k == 3
    ensures k == 3 <==> |args| > 2 && !HasPrefix(args[2], "--")
  {
    if |args| > 2 && !HasPrefix(args[2], "--") then 3 else 2
  }

  /** The `new` branch of `main`: the scan loop of the source, which moves
      past a flag's value by advancing its index inside the loop body. */
  method ParseNewArgs(args: seq<string>, cwd: string) returns (r: NewArgs)
    requires |args| >= 2
    ensures OptionStart(args) == 3 ==> r.name == args[2]
    ensures OptionStart(args) == 2 ==> r.name == ""
    ensures (r.path, r.claudeArgs) == ScanOptions(args[OptionStart(args)..], cwd, "")
  {
    var path := cwd;
    var name := "";
    var claudeArgs := "";
    var argStart := 2;
    if |args| > 2 && !HasPrefix(args[2], "--") {
      name := args[2];
      argStart := 3;
    }
    var i := argStart;
    while i < |args|
      invariant argStart <= i <= |args|
      invariant ScanOptions(args[i..], path, claudeArgs) == ScanOptions(args[argStart..], cwd, "")
      decreases |args| - i
    {
      assert args[i..][1..] == args[i + 1..];
      if args[i] == "--path" {
        if i + 1 < |args| {
          assert args[i..][2..] == args[i + 2..];
          path := args[i + 1];
          i := i + 1;
        }
      } else if args[i] == "--args" {
        if i + 1 < |args| {
          assert args[i..][2..] == args[i + 2..];
          claudeArgs := args[i + 1];
          i := i + 1;
        }
      }
      i := i + 1;
    }
    return NewArgs(name, path, claudeArgs);
  }

  /** Tokens that are neither option leave the defaults in place. */
  lemma {:induction false} ScanIgnoresOtherTokens(ts: seq<string>, path: string, claudeArgs: string)
    requires forall i :: 0 <= i < |ts| ==> ts[i] != "--path" && ts[i] != "--args"
    ensures ScanOptions(ts, path, claudeArgs) == (path, claudeArgs)
    decreases |ts|
  {
    if |ts| > 0 {
      ScanIgnoresOtherTokens(ts[1..], path, claudeArgs);
    }
  }

  /** A flag at the very end, with no value after it, is ignored. */
  lemma {:induction false} ScanTrailingFlag(ts: seq<string>, flag: string, path: string, claudeArgs: string)
    requires forall i :: 0 <= i < |ts| ==> ts[i] != "--path" && ts[i] != "--args"
    ensures ScanOptions(ts + [flag], path, claudeArgs) == (path, claudeArgs)
    decreases |ts|
  {
    if |ts| > 0 {
      assert (ts + [flag])[1..] == ts[1..] + [flag];
      ScanTrailingFlag(ts[1..], flag, path, claudeArgs);
    }
  }

  /** A later `--path` overrides an earlier one, and each option leaves the
      other alone. */
  lemma LaterPathWins(p1: string, p2: string, a: string, cwd: string)
    ensures ScanOptions(["--path", p1, "--args", a, "--path", p2], cwd, "") == (p2, a)
  {
    var ts := ["--path", p1, "--args", a, "--path", p2];
    var ts2: seq<string> := ["--args", a, "--path", p2];
    var ts4: seq<string> := ["--path", p2];
    assert ts[2..] == ts2 && ts2[2..] == ts4 && ts4[2..] == [];
    assert ScanOptions(ts4, p1, a) == (p2, a);
    assert ScanOptions(ts2, p1, "") == ScanOptions(ts4, p1, a);
  }

  /** The value of an option is consumed even when it looks like an option. */
  lemma OptionValueConsumed(cwd: string)
    ensures ScanOptions(["--args", "--path"], cwd, "") == (cwd, "--path")
  {
    assert ["--args", "--path"][2..] == [];
  }

  // ---------------------------------------------------------------------------
  // The default session name
  // ---------------------------------------------------------------------------

  /** `filepath.Base`: the last element once trailing slashes are removed;
      "." for the empty path and "/" for a path of slashes only. */
  function FilepathBase(path: string): (r: string)
    ensures path == "" ==> r == "."
    ensures path != "" && TrimRightChar(path, '/') == "" ==> r == "/"
    ensures var t := TrimRightChar(path, '/');
      t != "" ==> && r != "" && '/' !in r && HasSuffix(t, r)
                  && (|r| == |t| || t[|t| - |r| - 1] == '/')
  {
    if path == "" then "."
    else
      var t := TrimRightChar(path, '/');
      if t == "" then "/" else LastComponent(t, '/')
  }

  /** The default name as written: when the path starts with the home
      directory as a string, that prefix and one following "/" are dropped;
      the slashes of what remains become dashes; an empty result falls back to
      the path's base name. */
  function DefaultNameAsWritten(path: string, home: string): (r: string)
    ensures HasPrefix(path, home) && TrimPrefix(TrimPrefix(path, home), "/") != "" ==>
      r == ReplaceChar(TrimPrefix(TrimPrefix(path, home), "/"), '/', '-')
    ensures HasPrefix(path, home) && TrimPrefix(TrimPrefix(path, home), "/") == "" ==> r == FilepathBase(path)
    ensures !HasPrefix(path, home) && path != "" ==> r == ReplaceChar(path, '/', '-')
    ensures !HasPrefix(path, home) && path == "" ==> r == FilepathBase(path)
  {
    var rel := if HasPrefix(path, home) then TrimPrefix(TrimPrefix(path, home), "/") else path;
    var name := ReplaceChar(rel, '/', '-');
    if name == "" then FilepathBase(path) else name
  }

  /** The discrepancy: "/home/user/proj" starts with the home "/home/u" as a
      string, so the name becomes "ser-proj" rather than a name for a path
      outside that home. */
  lemma DefaultNameAsWrittenSplitsWord()
    ensures DefaultNameAsWritten("/home/user/proj", "/home/u") == "ser-proj"
  {
    var path := "/home/user/proj";
    assert HasPrefix(path, "/home/u");
    assert TrimPrefix(path, "/home/u") == "ser/proj";
    assert !HasPrefix("ser/proj", "/") by { assert "ser/proj"[0] == 's'; }
    assert TrimPrefix("ser/proj", "/") == "ser/proj";
    assert ReplaceChar("ser/proj", '/', '-') == "ser-proj";
  }

  /** `path` lies inside `home`: it is `home` itself or continues with "/". */
  predicate UnderHome(path: string, home: string) {
    path == home || HasPrefix(path, home + "/")
  }

  /** The default name as intended: only a path inside the home directory is
      made relative to it. */
  function DefaultName(path: string, home: string): (r: string)
    ensures path == home || path == home + "/" ==> r == FilepathBase(path)
    ensures HasPrefix(path, home + "/") && path != home + "/" ==> r == ReplaceChar(path[|home| + 1..], '/', '-')
    ensures !UnderHome(path, home) && path != "" ==> r == ReplaceChar(path, '/', '-')
    ensures !UnderHome(path, home) && path == "" ==> r == FilepathBase(path)
    ensures r != ""
  {
    var rel := if path == home then "" else if HasPrefix(path, home + "/") then path[|home| + 1..] else path;
    var name := ReplaceChar(rel, '/', '-');
    if name == "" then FilepathBase(path) else name
  }

  /** A directory below home is named by its path relative to home, with
      slashes made dashes, as in "~/project/foo" giving "project-foo". */
  lemma {:induction false} DefaultNameRelative(home: string, rel: string)
    requires rel != ""
    ensures DefaultName(home + "/" + rel, home) == ReplaceChar(rel, '/', '-')
  {
    var path := home + "/" + rel;
    assert path[..|home + "/"|] == home + "/";
    assert HasPrefix(path, home + "/");
    assert path[|home| + 1..] == rel;
    assert |ReplaceChar(rel, '/', '-')| == |rel|;
  }

  /** A path outside home keeps all of its components. */
  lemma DefaultNameOutsideHome()
    ensures DefaultName("/home/user/proj", "/home/u") == "-home-user-proj"
  {
    var path := "/home/user/proj";
    assert path[..8] == "/home/us";
    assert !HasPrefix(path, "/home/u/");
    assert path != "/home/u";
    assert ReplaceChar(path, '/', '-') == "-home-user-proj";
  }

  /** The two agree whenever the path is inside home or does not start with
      it at all. */
  lemma DefaultNameAgrees(path: string, home: string)
    requires UnderHome(path, home) || !HasPrefix(path, home)
    ensures DefaultName(path, home) == DefaultNameAsWritten(path, home)
  {
    if path == home {
      assert HasPrefix(path, home);
      assert TrimPrefix(path, home) == "";
    } else if HasPrefix(path, home + "/") {
      assert path[..|home|] == (home + "/")[..|home|] == home;
      assert HasPrefix(path, home);
      assert TrimPrefix(path, home) == path[|home|..];
      assert HasPrefix(path[|home|..], "/");
      assert TrimPrefix(path[|home|..], "/") == path[|home| + 1..];
    }
  }

  /** The tmux session `new` creates and then attaches to. */
  function NewSessionName(name: string): (r: string)
    ensures Sessions.SessionPrefix + name == r
  {
    Sessions.SessionPrefix + name
  }

  /** The whole of `new`: the given name or the default one, in the chosen
      directory, under the managed prefix. */
  method NewCommand(args: seq<string>, cwd: string, home: string) returns (sessionName: string, dir: string, claudeArgs: string)
    requires |args| >= 2
    ensures OptionStart(args) == 3 && args[2] != "" ==> sessionName == Sessions.SessionPrefix + args[2]
    ensures OptionStart(args) == 2 || args[2] == "" ==> sessionName == Sessions.SessionPrefix + DefaultName(dir, home)
    ensures (dir, claudeArgs) == ScanOptions(args[OptionStart(args)..], cwd, "")
  {
    var parsed := ParseNewArgs(args, cwd);
    var name := parsed.name;
    if name == "" {
      name := DefaultName(parsed.path, home);
    }
    return NewSessionName(name), parsed.path, parsed.claudeArgs;
  }
}
