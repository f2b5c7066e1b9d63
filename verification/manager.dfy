/** Session operations of the manager (internal/session/manager.go): the
    dashboard's search filter, lookup by name, and the tmux commands behind
    create, kill, send, logs and the conversation view. Commands are returned
    as argument vectors instead of being run. */
module Manager {
  import opened Wrappers
  import opened Strings
  import Seqs
  import opened Sessions
  import opened TmuxClient
  import Conversation

  datatype ManagerError =
    | CreateFailed(sessionName: string, cause: ClientError)
    | KillFailed(name: string, cause: ClientError)
    | SendFailed(name: string, cause: ClientError)
    | NoWorkingDirectory
    | ConversationFailed(readError: Conversation.ReadError)

  // ---------------------------------------------------------------------------
  // Filtering and lookup
  // ---------------------------------------------------------------------------

  /** A session matches a lower-cased query when its lower-cased name, project,
      status or path contains it. */
  predicate MatchesQuery(s: Session, q: string) {
    || Contains(ToLower(s.name), q)
    || Contains(ToLower(s.project), q)
    || Contains(ToLower(StatusValue(s.status)), q)
    || Contains(ToLower(s.path), q)
  }

  function QueryTest(q: string): Session -> bool {
    (s: Session) => MatchesQuery(s, q)
  }

  /** `FilterSessions`: the empty query keeps everything; otherwise the sessions
      matching the lower-cased query, in their original order. */
  function FilterSessions(sessions: seq<Session>, query: string): (r: seq<Session>)
    ensures query == "" ==> r == sessions
    ensures query != "" ==> r == Seqs.Filter(sessions, QueryTest(ToLower(query)))
    ensures |r| <= |sessions|
  {
    if query == "" then sessions else Seqs.Filter(sessions, QueryTest(ToLower(query)))
  }

  /** A session is listed exactly when it is in the input and matches. */
  lemma FilterSessionsMembership(sessions: seq<Session>, query: string, s: Session)
    requires query != ""
    ensures s in FilterSessions(sessions, query) <==> s in sessions && MatchesQuery(s, ToLower(query))
  {
    Seqs.FilterMembership(sessions, QueryTest(ToLower(query)), s);
  }

  /** The search ignores the case of the query. */
  lemma FilterSessionsCaseInsensitive(sessions: seq<Session>, query: string)
    ensures FilterSessions(sessions, ToLower(query)) == FilterSessions(sessions, query)
  {
    ToLowerIdempotent(query);
  }

  /** Searching again for the same text changes nothing. */
  lemma FilterSessionsIdempotent(sessions: seq<Session>, query: string)
    ensures FilterSessions(FilterSessions(sessions, query), query) == FilterSessions(sessions, query)
  {
    if query != "" {
      Seqs.FilterIdempotent(sessions, QueryTest(ToLower(query)));
    }
  }

  /** Filtering distributes over concatenation, so the relative order of the
      kept sessions is the input order. */
  lemma FilterSessionsAppend(a: seq<Session>, b: seq<Session>, query: string)
    ensures FilterSessions(a + b, query) == FilterSessions(a, query) + FilterSessions(b, query)
  {
    if query != "" {
      Seqs.FilterAppend(a, b, QueryTest(ToLower(query)));
    }
  }

  /** `FindByName`: the index of the first session with exactly this name. */
  method FindByName(sessions: seq<Session>, name: string) returns (r: Option<nat>)
    ensures r.Some? ==> r.value < |sessions| && sessions[r.value].name == name
    ensures r.Some? ==> forall j :: 0 <= j < r.value ==> sessions[j].name != name
    ensures r.None? <==> forall j :: 0 <= j < |sessions| ==> sessions[j].name != name
  {
    var i := 0;
    while i < |sessions|
      invariant 0 <= i <= |sessions|
      invariant forall j :: 0 <= j < i ==> sessions[j].name != name
    {
      if sessions[i].name == name {
        return Some(i);
      }
      i := i + 1;
    }
    return None;
  }

  // ---------------------------------------------------------------------------
  // Commands
  // ---------------------------------------------------------------------------

  /** The claude command line, with extra arguments when there are any. */
  function ClaudeCommand(claudeArgs: string): (r: string)
    ensures claudeArgs == "" ==> r == "claude"
    ensures claudeArgs != "" ==> HasPrefix(r, "claude ") && r[7..] == claudeArgs
  {
    if claudeArgs != "" then "claude " + claudeArgs else "claude"
  }

  /** `CreateWithArgs` (and `Create`, with no extra arguments): a tmux session
      named with the managed prefix, started in `projectDir`, running claude. */
  function CreateWithArgs(name: string, projectDir: string, claudeArgs: string): (r: Result<seq<string>, ManagerError>)
    ensures r.Success? <==> IsValidSessionName(SessionPrefix + name)
    ensures r.Failure? ==> r.error == CreateFailed(SessionPrefix + name, InvalidSessionName(SessionPrefix + name))
    ensures r.Success? ==>
      ParseNewSessionArgv(r.value) == Some(NewSessionRequest(SessionPrefix + name, projectDir, ClaudeCommand(claudeArgs)))
  {
    var sessionName := SessionPrefix + name;
    match NewSessionArgv(sessionName, projectDir, ClaudeCommand(claudeArgs))
    case Failure(e) => Failure(CreateFailed(sessionName, e))
    case Success(argv) =>
      NewSessionArgvRoundTrip(sessionName, projectDir, ClaudeCommand(claudeArgs));
      Success(argv)
  }

  function Create(name: string, projectDir: string): (r: Result<seq<string>, ManagerError>)
    ensures r.Success? ==> ParseNewSessionArgv(r.value) == Some(NewSessionRequest(SessionPrefix + name, projectDir, "claude"))
    ensures r == CreateWithArgs(name, projectDir, "")
  {
    CreateWithArgs(name, projectDir, "")
  }

  /** Creation fails exactly when the user's part of the name holds a character
      outside `[a-zA-Z0-9_-]`; an empty name still yields the valid "cd-". */
  lemma CreateValidity(name: string, projectDir: string, claudeArgs: string)
    ensures CreateWithArgs(name, projectDir, claudeArgs).Success?
            <==> forall i :: 0 <= i < |name| ==> IsNameChar(name[i])
  {
    var full := SessionPrefix + name;
    assert forall i :: 0 <= i < |name| ==> full[3 + i] == name[i];
    if forall i :: 0 <= i < |name| ==> IsNameChar(name[i]) {
      forall i | 0 <= i < |full| ensures IsNameChar(full[i]) {
        if i >= 3 {
          assert full[i] == name[i - 3];
        }
      }
    }
  }

  function Kill(name: string): (r: Result<seq<string>, ManagerError>)
    ensures r.Success? <==> IsValidSessionName(name)
    ensures r.Failure? ==> r.error == KillFailed(name, InvalidSessionName(name))
    ensures r.Success? ==> r.value == ["kill-session", "-t", name]
  {
    match KillSessionArgv(name)
    case Failure(e) => Failure(KillFailed(name, e))
    case Success(argv) => Success(argv)
  }

  /** `SendCommand` passes the validation error through unwrapped. */
  function SendCommand(name: string, command: string): (r: Result<seq<string>, ClientError>)
    ensures r.Success? <==> IsValidSessionName(name)
    ensures r.Failure? ==> r.error == InvalidSessionName(name)
    ensures r.Success? ==> r.value == ["send-keys", "-t", name, command, "Enter"]
  {
    SendKeysArgv(name, command)
  }

  /** How many lines of history the log view asks for when none are configured. */
  const DefaultLogLines: Int64 := 1000

  /** `GetLogs`: a capture of `lines` lines of history, 1000 when `lines` is not
      positive. */
  function GetLogs(name: string, lines: Int64): (r: seq<string>)
    ensures |r| == 6 && r[..4] == ["capture-pane", "-t", name, "-p"] && r[4] == "-S"
    ensures lines <= 0 ==> ParseInt64(r[5]) == Some(-DefaultLogLines)
    ensures lines > 0 ==> ParseInt64(r[5]) == Some(-lines)
  {
    CapturePaneArgv(name, if lines <= 0 then DefaultLogLines else lines)
  }

  const NoMessagesText: string := "No conversation messages found."

  /** `GetConversation`: an error without a working directory, the reader's
      error when reading fails, a fixed notice for an empty log, and the
      formatted messages otherwise. */
  method GetConversation(path: string, maxMessages: int, home: Option<string>,
                         listDir: string -> Option<seq<Conversation.DirEntry>>,
                         readLines: string -> Option<seq<Option<Conversation.JsonlEntry>>>,
                         clock: string -> string)
    returns (r: Result<string, ManagerError>)
    ensures path == "" ==> r == Failure(NoWorkingDirectory)
    ensures path != "" ==>
      exists read ::
        && Conversation.ReadOutcome(path, maxMessages, home, listDir, readLines, read)
        && (read.Failure? ==> r == Failure(ConversationFailed(read.error)))
        && (read.Success? && read.value == [] ==> r == Success(NoMessagesText))
        && (read.Success? && read.value != [] ==> r == Success(Conversation.FormatConversation(read.value, clock)))
    ensures path != "" && r.Failure? ==> r.error.ConversationFailed?
    ensures r.Success? ==> r.value != ""
  {
    if path == "" {
      return Failure(NoWorkingDirectory);
    }
    var read := Conversation.ReadConversation(path, maxMessages, home, listDir, readLines);
    if read.Failure? {
      return Failure(ConversationFailed(read.error));
    }
    var messages := read.value;
    if |messages| == 0 {
      return Success(NoMessagesText);
    }
    Conversation.FormatConversationLength(messages, clock);
    return Success(Conversation.FormatConversation(messages, clock));
  }

  /** A formatted log never reads as the empty-log notice: it ends in a
      newline, and the notice ends in a full stop. */
  lemma NoticeDistinct(messages: seq<Conversation.Message>, clock: string -> string)
    requires messages != []
    ensures Conversation.FormatConversation(messages, clock) != NoMessagesText
  {
    var n := |messages|;
    var last := messages[n - 1];
    assert messages == messages[..n - 1] + [last];
    Conversation.FormatConversationAppend(messages[..n - 1], [last], clock);
    var m := Conversation.FormatMessage(last, clock);
    assert Conversation.FormatConversation([last], clock) == m + Conversation.FormatConversation([], clock);
    var text := Conversation.FormatConversation(messages, clock);
    assert text[|text| - 1] == m[|m| - 1] == '\n';
    assert NoMessagesText[|NoMessagesText| - 1] == '.';
  }
}
