/** Reading a session's conversation log (internal/conversation/reader.go):
    where the log lives, which JSONL lines are messages, the ring buffer that
    keeps the last N of them, the choice of the newest log file, and the text
    shown in the log viewer. JSON decoding, the file system and time
    formatting are inputs. */
module Conversation {
  import opened Wrappers
  import opened Strings
  import Seqs

  // ---------------------------------------------------------------------------
  // Decoded JSON
  // ---------------------------------------------------------------------------

  /** A value as `encoding/json` decodes it into `interface{}`; numbers keep
      their literal text, since no number is ever inspected. */
  datatype Json =
    | JNull
    | JBool(b: bool)
    | JNumber(literal: string)
    | JString(s: string)
    | JArray(items: seq<Json>)
    | JObject(fields: map<string, Json>)

  /** The `message` object of a line: its role and its raw content. */
  datatype MsgEntry = MsgEntry(role: string, content: Json)

  /** One successfully decoded JSONL line. */
  datatype JsonlEntry = JsonlEntry(kind: string, message: Option<MsgEntry>, timestamp: string)

  /** A conversation message. The timestamp keeps its RFC 3339 text; turning it
      into a clock time is left to the caller. */
  datatype Message = Message(role: string, content: string, timestamp: string)

  /** The text of a content block: present for an object whose "type" is the
      string "text" and whose "text" is a non-empty string. */
  function BlockText(block: Json): (r: Option<string>)
    ensures r.Some? <==>
      && block.JObject? && "type" in block.fields && block.fields["type"] == JString("text")
      && "text" in block.fields && block.fields["text"].JString? && block.fields["text"].s != ""
    ensures r.Some? ==> r.value == block.fields["text"].s
  {
    match block
    case JObject(fields) =>
      if "type" in fields && fields["type"] == JString("text") && "text" in fields && fields["text"].JString?
         && fields["text"].s != ""
      then Some(fields["text"].s)
      else None
    case _ => None
  }

  predicate IsTextBlock(block: Json) {
    BlockText(block).Some?
  }

  function TextOf(block: Json): string {
    BlockText(block).GetOr("")
  }

  /** The texts of the text blocks, in order: the text blocks picked out by a
      filter, then each mapped to its text. */
  function BlockTexts(blocks: seq<Json>): (r: seq<string>)
    ensures r == Seqs.Map(Seqs.Filter(blocks, IsTextBlock), TextOf)
    ensures forall k :: 0 <= k < |r| ==> r[k] != ""
    ensures |r| == 0 <==> forall k :: 0 <= k < |blocks| ==> BlockText(blocks[k]).None?
    decreases |blocks|
  {
    if |blocks| == 0 then []
    else
      var rest := BlockTexts(blocks[1..]);
      assert forall k :: 1 <= k < |blocks| ==> blocks[k] == blocks[1..][k - 1];
      match BlockText(blocks[0])
      case Some(t) =>
        assert Seqs.Filter(blocks, IsTextBlock) == [blocks[0]] + Seqs.Filter(blocks[1..], IsTextBlock);
        Seqs.MapCons(blocks[0], Seqs.Filter(blocks[1..], IsTextBlock), TextOf);
        [t] + rest
      case None => rest
  }

  /** `extractContent`: a string is taken as it is, a list of blocks gives its
      texts joined by newlines, and anything else gives "". */
  function ExtractContent(msg: MsgEntry): (r: string)
    ensures msg.content.JString? ==> r == msg.content.s
    ensures !msg.content.JString? && !msg.content.JArray? ==> r == ""
    ensures msg.content.JArray? ==> r == Join(BlockTexts(msg.content.items), '\n')
  {
    match msg.content
    case JString(s) => s
    case JArray(blocks) => Join(BlockTexts(blocks), '\n')
    case _ => ""
  }

  lemma {:induction false} JoinNonEmpty(parts: seq<string>, sep: char)
    requires |parts| > 0 && parts[0] != ""
    ensures Join(parts, sep) != ""
  {
    JoinLength(parts, sep);
  }

  lemma JoinLength(parts: seq<string>, sep: char)
    requires |parts| >= 1
    ensures |Join(parts, sep)| >= |parts[0]|
  {
  }

  /** A block list has content exactly when some block is a non-empty text block. */
  lemma BlocksContent(blocks: seq<Json>)
    ensures ExtractContent(MsgEntry("", JArray(blocks))) != ""
            <==> exists k :: 0 <= k < |blocks| && BlockText(blocks[k]).Some?
  {
    var texts := BlockTexts(blocks);
    if |texts| > 0 {
      JoinNonEmpty(texts, '\n');
    }
  }

  // ---------------------------------------------------------------------------
  // Accepting lines
  // ---------------------------------------------------------------------------

  /** `scanLine` on the decoding of one line (`None` when it is not valid
      JSON): a user or assistant line with a message and non-empty content. The
      message's own role is kept, not the line's type. */
  function ScanLine(decoded: Option<JsonlEntry>): (r: Option<Message>)
    ensures r.Some? <==>
      && decoded.Some?
      && (decoded.value.kind == "user" || decoded.value.kind == "assistant")
      && decoded.value.message.Some?
      && ExtractContent(decoded.value.message.value) != ""
    ensures r.Some? ==>
      r.value.role == decoded.value.message.value.role
      && r.value.content == ExtractContent(decoded.value.message.value)
      && r.value.timestamp == decoded.value.timestamp
  {
    match decoded
    case None => None
    case Some(entry) =>
      if entry.kind != "user" && entry.kind != "assistant" then None
      else
        match entry.message
        case None => None
        case Some(msg) =>
          var content := ExtractContent(msg);
          if content == "" then None
          else Some(Message(msg.role, content, entry.timestamp))
  }

  /** Reference definition: every accepted message of the file, in file order. */
  function Accepted(lines: seq<Option<JsonlEntry>>): (r: seq<Message>)
    ensures |r| <= |lines|
    decreases |lines|
  {
    if |lines| == 0 then []
    else
      var init := Accepted(lines[..|lines| - 1]);
      match ScanLine(lines[|lines| - 1])
      case Some(m) => init + [m]
      case None => init
  }

  /** The last `n` elements, or all when there are fewer. */
  function LastN<T>(s: seq<T>, n: nat): (r: seq<T>)
    ensures |r| == if |s| < n then |s| else n
    ensures forall k :: 0 <= k < |r| ==> r[k] == s[|s| - |r| + k]
  {
    if |s| <= n then s else s[|s| - n..]
  }

  // ---------------------------------------------------------------------------
  // Ring buffer
  // ---------------------------------------------------------------------------

  lemma {:induction false} MulStep(x: int, y: int, n: int)
    requires n > 0 && x < y
    ensures x * n + n <= y * n
    decreases y - x
  {
    if x + 1 < y {
      MulStep(x + 1, y, n);
      assert (x + 1) * n == x * n + n;
    } else {
      assert y * n == (x + 1) * n == x * n + n;
    }
  }

  lemma ModUnique(a: int, n: int, q: int, r: int)
    requires n > 0 && 0 <= r < n && a == q * n + r
    ensures a % n == r
  {
    var q' := a / n;
    var r' := a % n;
    assert a == q' * n + r';
    if q' > q {
      MulStep(q, q', n);
    } else if q' < q {
      MulStep(q', q, n);
    }
  }

  lemma ModSucc(c: int, n: int)
    requires n > 0 && c >= 0
    ensures (c % n + 1) % n == (c + 1) % n
  {
    var q := c / n;
    assert c == q * n + c % n;
    if c % n + 1 < n {
      ModUnique(c + 1, n, q, c % n + 1);
      ModUnique(c % n + 1, n, 0, c % n + 1);
    } else {
      ModUnique(c + 1, n, q + 1, 0);
      ModUnique(c % n + 1, n, 1, 0);
    }
  }

  /** Two indices closer than `n` but distinct fall into different slots. */
  lemma ModDistinct(j: int, c: int, n: int)
    requires n > 0 && 0 <= j < c && c - j < n
    ensures j % n != c % n
  {
    var qj := j / n;
    var qc := c / n;
    assert j == qj * n + j % n;
    assert c == qc * n + c % n;
    if j % n == c % n {
      if qc > qj {
        MulStep(qj, qc, n);
      } else if qc < qj {
        MulStep(qc, qj, n);
      }
    }
  }

  /** The wrap-safe start index reads the oldest retained slot first. */
  lemma RingStart(count: nat, n: int, size: nat, i: nat)
    requires n > 0 && size <= n && size <= count && i < size
    ensures ((count % n - size + n * 2) % n + i) % n == (count - size + i) % n
  {
    var q := count / n;
    assert count == q * n + count % n;
    var s := count % n - size + n * 2;
    assert s >= 0;
    var start := s % n;
    assert s == (s / n) * n + start;
    var x := count - size + i;
    assert x >= 0;
    // start + i == x - (q + s / n - 2) * n
    assert start + i == x + (2 - q - s / n) * n;
    var k := 2 - q - s / n;
    var qx := x / n;
    assert x == qx * n + x % n;
    assert start + i == (qx + k) * n + x % n;
    ModUnique(start + i, n, qx + k, x % n);
  }

  /** The unlimited branch of `parseJSONL`: every accepted message in order. */
  method CollectAll(lines: seq<Option<JsonlEntry>>) returns (messages: seq<Message>)
    ensures messages == Accepted(lines)
  {
    messages := [];
    var i := 0;
    while i < |lines|
      invariant 0 <= i <= |lines|
      invariant messages == Accepted(lines[..i])
    {
      assert lines[..i + 1][..i] == lines[..i];
      var m := ScanLine(lines[i]);
      if m.Some? {
        messages := messages + [m.value];
      }
      i := i + 1;
    }
    assert lines[..|lines|] == lines;
  }

  /** The ring holds accepted message `j` in slot `j % n` for the last `n`
      of the `count` accepted so far. */
  ghost predicate RingHolds(ring: seq<Message>, n: int, acc: seq<Message>)
    requires n > 0 && |ring| == n
  {
    forall j :: 0 <= j < |acc| && |acc| - j <= n ==> ring[j % n] == acc[j]
  }

  /** Storing message number `count` in slot `count % n` keeps the slots of
      the `n - 1` before it. */
  lemma RingPush(ring: seq<Message>, n: int, acc: seq<Message>, m: Message)
    requires n > 0 && |ring| == n
    requires RingHolds(ring, n, acc)
    ensures RingHolds(ring[|acc| % n := m], n, acc + [m])
  {
    var count := |acc|;
    var ring' := ring[count % n := m];
    var acc' := acc + [m];
    forall j | 0 <= j < |acc'| && |acc'| - j <= n
      ensures ring'[j % n] == acc'[j]
    {
      if j < count {
        ModDistinct(j, count, n);
        assert ring'[j % n] == ring[j % n];
      }
    }
  }

  /** The limited branch of `parseJSONL`, first half: the ring of `n` slots
      after every line, the next slot to write, and the number accepted. */
  method FillRing(lines: seq<Option<JsonlEntry>>, n: int) returns (ring: seq<Message>, head: int, count: nat)
    requires n > 0
    ensures |ring| == n && count == |Accepted(lines)| && head == count % n
    ensures RingHolds(ring, n, Accepted(lines))
  {
    ring := seq(n, _ => Message("", "", ""));
    head := 0;
    count := 0;
    ghost var acc: seq<Message> := [];
    var i := 0;
    while i < |lines|
      invariant 0 <= i <= |lines|
      invariant acc == Accepted(lines[..i])
      invariant |ring| == n && count == |acc| && head == count % n
      invariant RingHolds(ring, n, acc)
    {
      assert lines[..i + 1][..i] == lines[..i];
      var m := ScanLine(lines[i]);
      if m.Some? {
        RingPush(ring, n, acc, m.value);
        ring := ring[head := m.value];
        ModSucc(count, n);
        head := (head + 1) % n;
        acc := acc + [m.value];
        count := count + 1;
      }
      i := i + 1;
    }
    assert lines[..|lines|] == lines;
  }

  /** Reading slot `start + k`, from the oldest retained one onwards, gives
      the `k`-th of the last `size` messages. */
  lemma RingSlot(ring: seq<Message>, n: int, acc: seq<Message>, size: nat, k: nat)
    requires n > 0 && |ring| == n && RingHolds(ring, n, acc)
    requires size <= n && size <= |acc| && k < size
    ensures ring[((|acc| % n - size + n * 2) % n + k) % n] == acc[|acc| - size + k]
  {
    RingStart(|acc|, n, size, k);
    var j := |acc| - size + k;
    assert ((|acc| % n - size + n * 2) % n + k) % n == j % n;
    assert 0 <= j < |acc| && |acc| - j <= n;
    assert ring[j % n] == acc[j];
  }

  /** The limited branch, second half: the retained messages oldest first,
      starting from the wrap-safe index of the oldest slot. */
  method ReadRing(ring: seq<Message>, head: int, count: nat, n: int, ghost acc: seq<Message>) returns (r: seq<Message>)
    requires n > 0 && |ring| == n && count == |acc| && head == count % n
    requires RingHolds(ring, n, acc)
    ensures r == LastN(acc, n)
  {
    if count == 0 {
      return [];
    }
    var size := if count > n then n else count;
    var start := (head - size + n * 2) % n;
    r := [];
    var k := 0;
    while k < size
      invariant 0 <= k <= size
      invariant |r| == k
      invariant forall t :: 0 <= t < k ==> r[t] == acc[count - size + t]
    {
      RingSlot(ring, n, acc, size, k);
      r := r + [ring[(start + k) % n]];
      k := k + 1;
    }
    assert |LastN(acc, n)| == size;
  }

  /** `parseJSONL` over the decoded lines of the file. Without a limit every
      accepted message is kept; with a limit N a ring of N slots keeps the last
      N, which are then read out oldest first. */
  method ParseJSONL(lines: seq<Option<JsonlEntry>>, maxMessages: int) returns (r: seq<Message>)
    ensures maxMessages <= 0 ==> r == Accepted(lines)
    ensures maxMessages > 0 ==> r == LastN(Accepted(lines), maxMessages)
  {
    if maxMessages <= 0 {
      r := CollectAll(lines);
    } else {
      var ring, head, count := FillRing(lines, maxMessages);
      r := ReadRing(ring, head, count, maxMessages, Accepted(lines));
    }
  }

  /** With a limit of two, "first", "second", "third" give "second", "third". */
  lemma LastTwoOfThree(a: Message, b: Message, c: Message)
    ensures LastN([a, b, c], 2) == [b, c]
  {
  }

  // ---------------------------------------------------------------------------
  // Locating the log
  // ---------------------------------------------------------------------------

  /** `mapToProjectDir` for home directory `home` (`None` when it is unknown):
      the work directory with every "/" turned into "-", under
      `<home>/.claude/projects`. */
  function MapToProjectDir(workDir: string, home: Option<string>): (r: string)
    ensures workDir == "" || home.None? ==> r == ""
    ensures workDir != "" && home.Some? ==>
      exists name :: r == JoinPath(JoinPath(JoinPath(home.value, ".claude"), "projects"), name)
        && |name| == |workDir| && '/' !in name
        && forall i :: 0 <= i < |name| ==> name[i] == (if workDir[i] == '/' then '-' else workDir[i])
  {
    if workDir == "" then ""
    else
      match home
      case None => ""
      case Some(h) =>
        var name := ReplaceChar(workDir, '/', '-');
        JoinPath(JoinPath(JoinPath(h, ".claude"), "projects"), name)
  }

  /** For a home directory without a trailing slash the project directory is
      `<home>/.claude/projects/` followed by the dashed work directory, so
      "/a/b" becomes "-a-b" there. */
  lemma MapToProjectDirLayout(workDir: string, home: string)
    requires workDir != "" && home != "" && home[|home| - 1] != '/'
    ensures MapToProjectDir(workDir, Some(home)) == home + "/.claude/projects/" + ReplaceChar(workDir, '/', '-')
  {
    var claude := home + "/" + ".claude";
    assert JoinPath(home, ".claude") == claude;
    assert claude[|claude| - 1] == 'e';
    var projects := claude + "/" + "projects";
    assert JoinPath(claude, "projects") == projects;
    assert projects[|projects| - 1] == 's';
    assert projects + "/" == home + "/.claude/projects/";
  }

  /** A directory entry; `modTime` is `None` when its metadata cannot be read. */
  datatype DirEntry = DirEntry(name: string, isDir: bool, modTime: Option<int>)

  datatype ReadError = CouldNotMap | NoLogs | NoJsonlFiles | OpenFailed(path: string)

  /** A file that `findLatestJSONL` considers. */
  predicate IsLog(e: DirEntry) {
    !e.isDir && HasSuffix(e.name, ".jsonl") && e.modTime.Some?
  }

  predicate NoLogIn(entries: seq<DirEntry>) {
    forall k :: 0 <= k < |entries| ==> !IsLog(entries[k])
  }

  /** Entry `k` is a log that no other log is newer than, and `path` is its
      path in `projectDir`. */
  predicate LatestAt(projectDir: string, entries: seq<DirEntry>, k: int, path: string) {
    && 0 <= k < |entries| && IsLog(entries[k])
    && path == JoinPath(projectDir, entries[k].name)
    && forall j :: 0 <= j < |entries| && IsLog(entries[j]) ==>
         entries[j].modTime.value <= entries[k].modTime.value
  }

  /** `path` is the path of a newest log in the listing. */
  ghost predicate IsLatestLog(projectDir: string, entries: seq<DirEntry>, path: string) {
    exists k :: LatestAt(projectDir, entries, k, path)
  }

  /** With distinct modification times there is only one newest log. */
  lemma LatestLogUnique(projectDir: string, entries: seq<DirEntry>, p1: string, p2: string)
    requires DistinctLogTimes(entries)
    requires IsLatestLog(projectDir, entries, p1) && IsLatestLog(projectDir, entries, p2)
    ensures p1 == p2
  {
    var k1 :| LatestAt(projectDir, entries, k1, p1);
    var k2 :| LatestAt(projectDir, entries, k2, p2);
    assert entries[k1].modTime.value == entries[k2].modTime.value;
  }

  predicate DistinctLogTimes(entries: seq<DirEntry>) {
    forall i, j :: 0 <= i < j < |entries| && IsLog(entries[i]) && IsLog(entries[j]) ==>
      entries[i].modTime.value != entries[j].modTime.value
  }

  /** `findLatestJSONL` over the listing of `projectDir` (`None` when it cannot
      be read): the path of a log with the latest modification time. Go's
      unstable sort leaves the choice among equal times open; this model takes
      the first. */
  method FindLatestJSONL(projectDir: string, listing: Option<seq<DirEntry>>) returns (r: Result<string, ReadError>)
    ensures listing.None? ==> r == Failure(NoLogs)
    ensures listing.Some? ==> (r.Failure? <==> NoLogIn(listing.value))
    ensures listing.Some? && r.Failure? ==> r.error == NoJsonlFiles
    ensures r.Success? ==> listing.Some? && IsLatestLog(projectDir, listing.value, r.value)
  {
    if listing.None? {
      return Failure(NoLogs);
    }
    var entries := listing.value;
    var best: int := -1;
    var i := 0;
    while i < |entries|
      invariant 0 <= i <= |entries|
      invariant -1 <= best < i
      invariant best == -1 <==> forall k :: 0 <= k < i ==> !IsLog(entries[k])
      invariant best >= 0 ==> IsLog(entries[best])
      invariant best >= 0 ==> forall j :: 0 <= j < i && IsLog(entries[j]) ==>
                  entries[j].modTime.value <= entries[best].modTime.value
    {
      if IsLog(entries[i]) && (best == -1 || entries[i].modTime.value > entries[best].modTime.value) {
        best := i;
      }
      i := i + 1;
    }
    if best == -1 {
      return Failure(NoJsonlFiles);
    }
    assert LatestAt(projectDir, entries, best, JoinPath(projectDir, entries[best].name));
    return Success(JoinPath(projectDir, entries[best].name));
  }

  /** The message list `parseJSONL` keeps: all of them without a limit,
      otherwise the last `maxMessages`. */
  function Limit(messages: seq<Message>, maxMessages: int): seq<Message> {
    if maxMessages <= 0 then messages else LastN(messages, maxMessages)
  }

  /** What reading the conversation of `workDir` may give: the mapping error,
      the two listing errors, or the messages of a newest log (or the error
      of opening it). Only ties between equally new logs leave a choice. */
  ghost predicate ReadOutcome(workDir: string, maxMessages: int, home: Option<string>,
                              listDir: string -> Option<seq<DirEntry>>,
                              readLines: string -> Option<seq<Option<JsonlEntry>>>,
                              r: Result<seq<Message>, ReadError>)
  {
    var dir := MapToProjectDir(workDir, home);
    if dir == "" then r == Failure(CouldNotMap)
    else if listDir(dir).None? then r == Failure(NoLogs)
    else if NoLogIn(listDir(dir).value) then r == Failure(NoJsonlFiles)
    else exists path :: IsLatestLog(dir, listDir(dir).value, path) && LogRead(path, maxMessages, readLines, r)
  }

  /** The result of reading the log at `path`. */
  predicate LogRead(path: string, maxMessages: int, readLines: string -> Option<seq<Option<JsonlEntry>>>,
                    r: Result<seq<Message>, ReadError>)
  {
    match readLines(path)
    case None => r == Failure(OpenFailed(path))
    case Some(lines) => r == Success(Limit(Accepted(lines), maxMessages))
  }

  /** Two reads of the same directory agree unless two of its logs are
      equally new. */
  lemma ReadOutcomeDeterministic(workDir: string, maxMessages: int, home: Option<string>,
                                 listDir: string -> Option<seq<DirEntry>>,
                                 readLines: string -> Option<seq<Option<JsonlEntry>>>,
                                 r1: Result<seq<Message>, ReadError>, r2: Result<seq<Message>, ReadError>)
    requires var dir := MapToProjectDir(workDir, home);
      listDir(dir).Some? ==> DistinctLogTimes(listDir(dir).value)
    requires ReadOutcome(workDir, maxMessages, home, listDir, readLines, r1)
    requires ReadOutcome(workDir, maxMessages, home, listDir, readLines, r2)
    ensures r1 == r2
  {
    var dir := MapToProjectDir(workDir, home);
    if dir != "" && listDir(dir).Some? && !NoLogIn(listDir(dir).value) {
      LatestReadUnique(dir, listDir(dir).value, maxMessages, readLines, r1, r2);
    }
  }

  /** Reading a newest log of a listing whose logs have distinct times has one outcome. */
  lemma LatestReadUnique(dir: string, entries: seq<DirEntry>, maxMessages: int,
                         readLines: string -> Option<seq<Option<JsonlEntry>>>,
                         r1: Result<seq<Message>, ReadError>, r2: Result<seq<Message>, ReadError>)
    requires DistinctLogTimes(entries)
    requires exists path :: IsLatestLog(dir, entries, path) && LogRead(path, maxMessages, readLines, r1)
    requires exists path :: IsLatestLog(dir, entries, path) && LogRead(path, maxMessages, readLines, r2)
    ensures r1 == r2
  {
    var p1 :| IsLatestLog(dir, entries, p1) && LogRead(p1, maxMessages, readLines, r1);
    var p2 :| IsLatestLog(dir, entries, p2) && LogRead(p2, maxMessages, readLines, r2);
    LatestLogUnique(dir, entries, p1, p2);
  }

  /** `ReadConversation`, with the home directory, the directory listing and
      the decoded lines of a file (`None` when it cannot be opened) as inputs. */
  method ReadConversation(workDir: string, maxMessages: int, home: Option<string>,
                          listDir: string -> Option<seq<DirEntry>>,
                          readLines: string -> Option<seq<Option<JsonlEntry>>>)
    returns (r: Result<seq<Message>, ReadError>)
    ensures workDir == "" ==> r == Failure(CouldNotMap)
    ensures ReadOutcome(workDir, maxMessages, home, listDir, readLines, r)
  {
    var projectDir := MapToProjectDir(workDir, home);
    if projectDir == "" {
      return Failure(CouldNotMap);
    }
    var latest := FindLatestJSONL(projectDir, listDir(projectDir));
    if latest.Failure? {
      return Failure(latest.error);
    }
    var path := latest.value;
    match readLines(path) {
      case None =>
        r := Failure(OpenFailed(path));
      case Some(lines) =>
        var messages := ParseJSONL(lines, maxMessages);
        r := Success(messages);
    }
    assert LogRead(path, maxMessages, readLines, r);
  }

  // ---------------------------------------------------------------------------
  // Formatting
  // ---------------------------------------------------------------------------

  /** The header line of a message; `clock` renders its timestamp as
      "15:04:05". Other roles get no header. */
  function Header(m: Message, clock: string -> string): string {
    if m.role == "user" then "\U{2500}\U{2500}\U{2500} User [" + clock(m.timestamp) + "] \U{2500}\U{2500}\U{2500}\n"
    else if m.role == "assistant" then "\U{2500}\U{2500}\U{2500} Assistant [" + clock(m.timestamp) + "] \U{2500}\U{2500}\U{2500}\n"
    else ""
  }

  function FormatMessage(m: Message, clock: string -> string): (r: string)
    ensures HasSuffix(r, m.content + "\n\n")
    ensures (m.role == "user" || m.role == "assistant") <==> |r| > |m.content| + 2
  {
    var h := Header(m, clock);
    assert (m.role == "user" || m.role == "assistant") <==> |h| > 0;
    var tail := m.content + "\n\n";
    assert (h + tail)[|h|..] == tail;
    h + tail
  }

  /** `FormatConversation`. */
  function FormatConversation(messages: seq<Message>, clock: string -> string): (r: string)
    ensures messages == [] ==> r == ""
    decreases |messages|
  {
    if |messages| == 0 then "" else FormatMessage(messages[0], clock) + FormatConversation(messages[1..], clock)
  }

  /** Formatting works message by message: the text for a concatenation is the
      concatenation of the texts. */
  lemma {:induction false} FormatConversationAppend(a: seq<Message>, b: seq<Message>, clock: string -> string)
    ensures FormatConversation(a + b, clock) == FormatConversation(a, clock) + FormatConversation(b, clock)
    decreases |a|
  {
    if |a| == 0 {
      assert a + b == b;
    } else {
      assert (a + b)[0] == a[0];
      assert (a + b)[1..] == a[1..] + b;
      FormatConversationAppend(a[1..], b, clock);
    }
  }

  /** Each message contributes at least its content and a blank line. */
  lemma {:induction false} FormatConversationLength(messages: seq<Message>, clock: string -> string)
    ensures |FormatConversation(messages, clock)| >= 2 * |messages|
    decreases |messages|
  {
    if |messages| > 0 {
      FormatConversationLength(messages[1..], clock);
    }
  }
}
