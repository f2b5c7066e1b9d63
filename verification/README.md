# claude-dashboard, modelled in Dafny

claude-dashboard is a terminal dashboard for Claude sessions. It lists the
tmux sessions that run claude, plus claude processes on plain terminals. For
each session it shows a status (active, idle, waiting, terminal), the project
name, the uptime and the working directory. From the dashboard a user can
attach to a session, kill it after confirming, create a new one, read its
pane log or conversation log, and filter the list. A small command line
(`claude-dashboard new ...`) creates a session and attaches to it.

This project models the logic of that program as pure Dafny functions and
methods, and proves properties of it:

- `TmuxParser`: parsing `tmux list-sessions` output, with a round trip from
  printed rows back to records.
- `TmuxClient`: session-name validation, the argument vectors handed to
  tmux, the parent-to-children process index, and the breadth-first search
  for a "claude" descendant.
- `Sessions`: the session record, status labels, the uptime text, and the
  display name.
- `Detector`: session discovery. It covers which tmux sessions are shown,
  the status classification from the pane tail, terminal-process
  detection, and the ten-second working-directory cache.
- `Manager`: the search filter, lookup by name, and the create, kill, send,
  logs and conversation operations.
- `Monitor`: the `ps` process table, and the CPU and memory of a process
  together with its descendants.
- `Conversation`: locating the newest JSONL log, accepting its lines, the
  ring buffer that keeps the last N messages, and the log-viewer text.
- `Dashboard`: cell truncation, the flexible column widths, and which rows
  are drawn with which highlight.
- `Configuration`: the defaults, loading overrides, and saving.
- `CreateForm`: the new-session form's focus and validation.
- `App`: the program's state machine. It covers every message and key
  press, the commands they start, and what the screen shows.
- `Cli`: the command line, meaning which invocations run the setup check,
  how `new` reads its arguments, and the default session name.

External programs and the environment are parameters of the model. tmux is a
function from an argument vector to its output (`None` when it fails). The
outputs of `ps` and `lsof` are values. The home directory, the clock, JSON
and YAML decoding, duration parsing and formatting, and text-input editing
are inputs too.

## Model

| member | source | states |
|---|---|---|
| TmuxParser.ParseUnixTimestamp | internal/tmux/parser.go:60-66 | A timestamp is present exactly when the trimmed text is a 64-bit decimal, and then it is that number; anything else is the zero time |
| TmuxParser.ParseLine | internal/tmux/parser.go:31-54 | A line is dropped exactly when its trimmed text has fewer than six `\|` fields, blank lines included; otherwise each record field comes from its column, and attached means the column is "1" |
| TmuxParser.ParseSessions | internal/tmux/parser.go:23-58 | Empty output gives no sessions, and there are never more records than lines |
| TmuxParser.ParseLinesAppend | internal/tmux/parser.go:31-55 | Lines are parsed independently: the records of a concatenation are the concatenated records |
| TmuxParser.ParseLineRoundTrip | internal/tmux/parser.go:31-54 | A printed row parses back to the record it was printed from |
| TmuxParser.ParseLinesRoundTrip | internal/tmux/parser.go:31-55 | A sequence of printed rows parses back to their records, in order |
| TmuxParser.ParseSessionsRoundTrip | internal/tmux/parser.go:23-58 | Rows printed one per line in the session format and joined by newlines parse back to exactly their records |
| TmuxParser.TimestampRoundTrip | internal/tmux/parser.go:60-66 | Every 64-bit number printed in decimal reads back as itself |
| TmuxParser.TimestampRejects | internal/tmux/parser.go:61-63 | Empty or non-numeric text gives the zero time |
| TmuxClient.ValidateSessionName | internal/tmux/client.go:15-23 | Validation passes exactly for a non-empty name made only of `[a-zA-Z0-9_-]`, and a failure carries the name |
| TmuxClient.NewSessionArgv | internal/tmux/client.go:64-79 | An invalid name fails before anything is built; otherwise the vector starts `new-session -d -s NAME`, with `-c DIR` only for a non-empty directory and the command only when non-empty |
| TmuxClient.NewSessionArgvRoundTrip | internal/tmux/client.go:70-76 | The built vector, read as tmux reads it, asks for exactly the requested name, directory and command |
| TmuxClient.KillSessionArgv | internal/tmux/client.go:82-90 | Kill is refused for an invalid name, with the name in the error; otherwise tmux is asked for `kill-session -t NAME` and nothing more |
| TmuxClient.SendKeysArgv | internal/tmux/client.go:125-133 | Send-keys is refused for an invalid name; otherwise tmux is asked for `send-keys -t NAME KEYS Enter`, so the keys go to that session followed by Enter |
| TmuxClient.CapturePaneArgv | internal/tmux/client.go:93-106 | The capture always targets the session with `-p`; a positive history adds `-S` and a start that reads as minus that many lines |
| TmuxClient.SessionPid | internal/tmux/client.go:109-122 | A PID is found exactly when tmux answered; it is the whole first line of the trimmed output, holding no newline and followed by a newline or the end of the text |
| TmuxClient.SessionPidFirstPane | internal/tmux/client.go:115-121 | For any listing whose first line is a PID without surrounding white space, that PID is the answer, whatever the other lines hold |
| TmuxClient.BuildProcChildren | internal/tmux/client.go:183-189 | The index has a key for each parent PID that occurs and nothing else; under each key are that parent's children in input order |
| TmuxClient.FileEntry | internal/tmux/client.go:185-187 | Filing one more process appends it under its parent and keeps every other parent's list |
| TmuxClient.NoChildrenWithoutParent | internal/tmux/client.go:183-189 | A PID that is nobody's parent has no children in the index |
| TmuxClient.HasClaudeDescendant | internal/tmux/client.go:193-234 | The search answers true exactly when some PID reachable from the root, the root included, has a child whose lower-cased command line contains "claude"; it ends even on cyclic parent data |
| TmuxClient.ExpandNode | internal/tmux/client.go:225-230 | One expansion reports a hit exactly when the node has a matching child; on a miss every child's PID is queued and nothing queued is lost |
| TmuxClient.ClosedSetHoldsWalk | internal/tmux/client.go:215-231 | A set that holds the root and is closed under the child relation holds the end of every walk from the root, which is why a search that ends without a hit is right |
| Sessions.ParseStatus | internal/session/session.go:51-64 | Reading a status string back gives a state only for one of the five stored strings |
| Sessions.StatusValueRoundTrip | internal/session/session.go:51-64 | Each state's string reads back as that state |
| Sessions.StatusValueInjective | internal/session/session.go:51-64 | Distinct states are stored as distinct strings |
| Sessions.StatusLabel | internal/session/session.go:51-64 | The label is the fallback "? unknown" exactly for "unknown" and unrecognised strings; otherwise it is a glyph, a space and the status name |
| Sessions.StatusLabelsDistinct | internal/session/session.go:51-64 | Distinct known states get distinct labels |
| Sessions.Uptime | internal/session/session.go:34-48 | Under a minute the seconds are shown; otherwise the two largest units, each rounded down, and the shown value brackets the elapsed time |
| Sessions.UptimeShortExamples | internal/session/session.go:39-42 | 45 seconds show as "45s"; one and thirty minutes show as "1m" and "30m" |
| Sessions.UptimeHourExamples | internal/session/session.go:43-45 | Two and a half hours show as "2h30m", one hour as "1h0m" |
| Sessions.UptimeDayExamples | internal/session/session.go:46-47 | 25 and 48 hours show as "1d1h" and "2d0h" |
| Sessions.DisplayName | internal/session/session.go:66-69 | As written, the display name is the session name unchanged |
| Sessions.DisplayNameKeepsPrefix | internal/session/session.go:66-69 | "cd-myproject" is displayed with its prefix, not as "myproject" |
| Sessions.DisplayNameStripped | internal/session/session.go:66 | As documented, a name with the managed prefix is displayed without it, and any other name unchanged |
| Sessions.DisplayNameStrippedExamples | internal/session/session_test.go:118-130 | "cd-myproject" and "myproject" both display as "myproject" |
| Detector.PathBase | internal/session/detector.go:147-150 | The project of a path is its last `/`-free component once trailing slashes are removed |
| Detector.TrimRightSlashes | internal/session/detector.go:147 | Trailing slashes after a last character that is not a slash are all removed |
| Detector.ExtractProject | internal/session/detector.go:261-276 | A managed name gives the rest of the name; otherwise a non-empty path gives its last component, and otherwise the name itself |
| Detector.ExtractProjectLastComponent | internal/session/detector.go:268-273 | For any unmanaged name and directory, the project is the final component of the path, with or without trailing slashes |
| Detector.ExtractProjectExamples | internal/session/detector.go:261-276 | "cd-myproject" gives "myproject", "cd-" gives "", a name with no path gives itself, and the path "/" gives "" |
| Detector.TailStart | internal/session/detector.go:215 | At most the last twenty lines are inspected, and exactly twenty when there are that many |
| Detector.ScanForQuestion | internal/session/detector.go:215-229 | The bottom-up scan finds a waiting line exactly when one of the scanned lines, trimmed, ends in "?" or holds a y/n pattern |
| Detector.DetectStatus | internal/session/detector.go:197-244 | Active exactly when the last activity is under two seconds old; otherwise waiting exactly when the captured pane's last twenty lines hold a question; otherwise idle, including a failed capture; never unknown or terminal |
| Detector.OldQuestionIgnored | internal/session/detector.go:215 | A question followed by twenty or more plain lines is out of sight, and the session is idle |
| Detector.ListSessions | internal/tmux/client.go:46-61 | A failed tmux gives nothing; otherwise the answer is the output with its leading and trailing white space removed, the slice between them and nothing else |
| Detector.FirstCwdLine | internal/session/detector.go:181-186 | The first line that starts with "n/" gives the directory without its tag; no such line gives "" |
| Detector.ParseLsofCwd | internal/session/detector.go:177-187 | A failed lsof gives ""; otherwise the result is what the first "n/" line of the output gives, and a found directory is absolute |
| Detector.GetProcessCwd | internal/session/detector.go:169-194 | A fresh cache entry is served without change; otherwise the lookup result, even "", is stored for ten seconds; other PIDs' entries are untouched |
| Detector.LookupAgrees | internal/session/detector.go:169-194 | A lookup returns the directory the cache or lsof gives, and the cache it leaves gives every PID the same directory as before |
| Detector.CachedWithinTtl | internal/session/detector.go:171-173 | Within ten seconds of a lookup, asking again gives the same directory whatever lsof would say now |
| Detector.RefreshedAfterTtl | internal/session/detector.go:171-190 | Ten seconds or more after a lookup, the directory is looked up afresh |
| Detector.BaseNameIsClaude | internal/session/detector.go:124-130 | The executable's last component is "claude" exactly when it is "claude" or ends in "/claude" |
| Detector.SelectTerminalRow | internal/session/detector.go:116-140 | A ps row gives a terminal process exactly when it has four fields, runs claude, is not a tmux session's PID, and has a controlling terminal |
| Detector.TerminalSession | internal/session/detector.go:145-160 | A terminal process is listed as unmanaged, with terminal status, named "terminal/" plus its tty, with its directory and that directory's last component |
| Detector.ScanTerminalRows | internal/session/detector.go:116-162 | One session per selected row, in row order; each is the row's terminal process with the directory the cache or lsof gives for its PID; afterwards no cache entry is lost, fresh entries and those of unlisted PIDs are unchanged, and every listed PID has a fresh entry with the listed directory |
| Detector.DetectTerminalSessions | internal/session/detector.go:107-165 | A failed ps gives nothing and leaves the cache as it was; otherwise the rows after the header are scanned as above; every listed session is an unmanaged terminal process outside the tmux PIDs |
| Detector.TmuxSession | internal/session/detector.go:62-80 | A shown tmux session carries the raw record's name, path, start and attachment, its extracted project, its detected status, and its pane PID or "" |
| Detector.TmuxSessions | internal/session/detector.go:55-83 | The shown tmux sessions are the records of the candidates, in order: managed by name, "claude" in the name, or running claude |
| Detector.TmuxPids | internal/session/detector.go:85-91 | The collected PIDs are exactly the non-empty PIDs of the tmux sessions |
| Detector.TmuxSessionsManaged | internal/session/detector.go:62-74 | Every shown tmux session is managed, with a status other than unknown and terminal |
| Detector.ConcatListing | internal/session/detector.go:93-97 | Appending terminal sessions that avoid the tmux PIDs keeps managed sessions first and lists no process twice |
| Detector.Detect | internal/session/detector.go:38-98 | When tmux fails or lists nothing, only terminal sessions are reported and none is excluded; otherwise the result is the shown tmux sessions followed by the terminal sessions scanned with their PIDs excluded, with the cache that scan leaves |
| Detector.DetectWellFormed | internal/session/detector.go:55-97 | The listing has every managed session before every terminal one, every managed session with a pane-derived status and every terminal one marked terminal, and no tmux process listed again as a terminal session |
| Detector.DetectManagedAreTmux | internal/session/detector.go:55-97 | The managed sessions of the listing are exactly the shown tmux sessions, in order, and there are none when tmux lists nothing |
| Manager.FilterSessions | internal/session/manager.go:116-131 | The empty query keeps the list; otherwise the list keeps, in order, the sessions whose name, project, status or path contains the lower-cased query |
| Manager.FilterSessionsMembership | internal/session/manager.go:120-128 | A session is kept exactly when it is in the list and matches the query |
| Manager.FilterSessionsCaseInsensitive | internal/session/manager.go:120 | The case of the query does not matter |
| Manager.FilterSessionsIdempotent | internal/session/manager.go:116-131 | Filtering again by the same query changes nothing |
| Manager.FilterSessionsAppend | internal/session/manager.go:122-129 | Filtering distributes over concatenation, so kept sessions stay in input order |
| Manager.FindByName | internal/session/manager.go:106-113 | The result is the first session with exactly that name, and none is found exactly when no session has it |
| Manager.ClaudeCommand | internal/session/manager.go:46-49 | The command is "claude", followed by a space and the extra arguments when there are any |
| Manager.CreateWithArgs | internal/session/manager.go:44-56 | Creation succeeds exactly when the prefixed name is valid, and then tmux is asked for that name, the directory and the claude command |
| Manager.Create | internal/session/manager.go:32-41 | Creation without arguments asks for the prefixed name, the directory and plain "claude" |
| Manager.CreateValidity | internal/session/manager.go:32-56 | Creation fails exactly when the user's part of the name holds a character outside `[a-zA-Z0-9_-]` |
| Manager.Kill | internal/session/manager.go:59-65 | A kill is refused exactly for an invalid name, with that name in the error |
| Manager.SendCommand | internal/session/manager.go:96-98 | The command goes to that session as `send-keys -t NAME COMMAND Enter` exactly when its name is valid; otherwise the validation error is passed on unwrapped |
| Manager.GetLogs | internal/session/manager.go:73-78 | The capture is `capture-pane -t NAME -p -S -N` of that session, with N the given history, or 1000 lines when it is not positive |
| Manager.GetConversation | internal/session/manager.go:81-93 | No working directory is an error; otherwise the outcome of reading the newest log is used: its error is passed on unchanged, tagged `ConversationFailed`, no messages give exactly the fixed notice, and messages give their formatted text, which is never empty |
| Manager.NoticeDistinct | internal/session/manager.go:87-92 | The text of a non-empty conversation is never the empty-log notice, so the two outcomes cannot be confused |
| Monitor.ParseRow | internal/monitor/process.go:39-51 | A row is kept exactly when it has five fields; the PID and parent come from the first two, the CPU and memory figures from the third and fourth, and the command line is the rest joined by spaces |
| Monitor.TableRows | internal/monitor/process.go:36-54 | The table holds a PID exactly when some row carries it, and then the entry of the last such row |
| Monitor.RowSkipped | internal/monitor/process.go:40-42 | A dropped row leaves the table as it is |
| Monitor.RowFiled | internal/monitor/process.go:52 | A kept row overwrites the entry of its PID, and only that one |
| Monitor.ParseProcessTable | internal/monitor/process.go:29-55 | A failed ps gives the empty table; otherwise the header is skipped and each PID holds its last row |
| Monitor.TableEntries | internal/monitor/process.go:67 | Map iteration visits every entry exactly once: each listed entry is the table's entry for its PID, every PID is listed, no two listed PIDs are equal, and there are as many entries as PIDs |
| Monitor.BuildChildrenOf | internal/monitor/process.go:66-69 | A PID is listed under a parent exactly when some entry has that parent and PID |
| Monitor.ClosedHoldsChain | internal/monitor/process.go:72-87 | A set that holds the root and every child of its members holds every descendant |
| Monitor.VisitNew | internal/monitor/process.go:80-86 | Visiting a new PID records it, adds its figures, and queues its children, keeping the search state |
| Monitor.VisitSkip | internal/monitor/process.go:75-79 | Dequeuing a PID already visited changes nothing else in the search |
| Monitor.ClosedAfterVisit | internal/monitor/process.go:80-86 | After a visit, every child of a visited PID is visited or queued |
| Monitor.GetChildProcessInfo | internal/monitor/process.go:59-90 | The empty PID gives zero figures; otherwise the search visits exactly the PID and its descendants, each once, and the figures are their sums, a PID missing from the table adding nothing |
| Conversation.BlockText | internal/conversation/reader.go:199-209 | A block gives text exactly when it is an object whose "type" is the string "text" and whose "text" field is a non-empty string, and then it gives that string |
| Conversation.BlockTexts | internal/conversation/reader.go:198-210 | The kept texts are exactly the texts of the text blocks, in block order, as an independent filter-then-map over the blocks computes them |
| Conversation.ExtractContent | internal/conversation/reader.go:182-213 | A string is the content itself; a list gives its texts joined by newlines; anything else gives "" |
| Conversation.BlocksContent | internal/conversation/reader.go:198-212 | A block list has content exactly when some block is a non-empty text block |
| Conversation.ScanLine | internal/conversation/reader.go:158-179 | A line is a message exactly when it decodes, is a user or assistant line, has a message, and has content; the message keeps its own role, the content and the timestamp |
| Conversation.CollectAll | internal/conversation/reader.go:113-122 | Without a limit every accepted message is kept, in file order |
| Conversation.RingPush | internal/conversation/reader.go:134-136 | Writing message number `count` into slot `count % N` keeps the previous N-1 messages in their slots |
| Conversation.FillRing | internal/conversation/reader.go:124-137 | After the file, each of the last N accepted messages sits in its slot and the head is the count modulo N |
| Conversation.RingSlot | internal/conversation/reader.go:149-151 | Reading from the wrap-safe start index gives the retained messages oldest first |
| Conversation.ReadRing | internal/conversation/reader.go:139-153 | The ring reads out exactly the last N accepted messages, in order, and none when there were none |
| Conversation.ParseJSONL | internal/conversation/reader.go:103-154 | With no limit, every accepted message; with a limit N, the last N of them in file order |
| Conversation.LastTwoOfThree | internal/conversation/reader.go:124-153 | With a limit of two, three messages give the second and the third |
| Conversation.MapToProjectDir | internal/conversation/reader.go:37-48 | An empty work directory or an unknown home gives ""; otherwise the work directory with every "/" made "-", under the home's `.claude/projects` |
| Conversation.MapToProjectDirLayout | internal/conversation/reader.go:41-47 | For a home without a trailing slash the project directory is `HOME/.claude/projects/` and the dashed path, so "/a/b" becomes "-a-b" |
| Conversation.FindLatestJSONL | internal/conversation/reader.go:51-86 | An unreadable directory gives one error and a directory without logs the other; otherwise the result is the path of a `.jsonl` file no log is newer than |
| Conversation.LatestLogUnique | internal/conversation/reader.go:81-85 | When no two logs have the same time, only one path is a newest log |
| Conversation.ReadConversation | internal/conversation/reader.go:22-34 | A directory that cannot be mapped, an unreadable directory and one without logs are the three errors; otherwise the result is the outcome of reading a newest log of the mapped directory: the open error, or its accepted messages cut to the limit |
| Conversation.ReadOutcomeDeterministic | internal/conversation/reader.go:22-34 | When no two logs in the mapped directory have the same time, reading the conversation has exactly one outcome |
| Conversation.FormatMessage | internal/conversation/reader.go:219-227 | Each message ends with its content and a blank line, and has a header exactly when it is a user or assistant message |
| Conversation.FormatConversation | internal/conversation/reader.go:216-230 | No messages give the empty text |
| Conversation.FormatConversationAppend | internal/conversation/reader.go:218-228 | Formatting works message by message: a concatenation formats as the concatenated texts |
| Conversation.FormatConversationLength | internal/conversation/reader.go:226-227 | Every message contributes at least its blank line |
| Dashboard.Truncate | internal/ui/dashboard.go:126-134 | A cell that fits is kept; a longer one is cut to the width, ending in "..." when the width exceeds three |
| Dashboard.TruncateFits | internal/ui/dashboard.go:126-134 | A truncated cell is as long as the shorter of the string and the width |
| Dashboard.TruncateIdempotent | internal/ui/dashboard.go:126-134 | Truncating twice is truncating once |
| Dashboard.TruncatePath | internal/ui/dashboard.go:136-147 | A path that fits, or a non-positive width, is kept; a width up to three gives "..."; a wider one gives "..." and the path's own tail, exactly the width long |
| Dashboard.TruncatePathFits | internal/ui/dashboard.go:136-147 | Above a width of three, a shown path is never longer than the width |
| Dashboard.TruncatePathKeepsTail | internal/ui/dashboard.go:143-144 | The shown tail is the path's own last characters |
| Dashboard.TruncatePathIdempotent | internal/ui/dashboard.go:136-147 | Shortening a shortened path changes nothing |
| Dashboard.FixedWidthOfDashboard | internal/ui/dashboard.go:14-38 | The margin and the six fixed columns with their gaps take 91 characters |
| Dashboard.ColumnWidths | internal/ui/dashboard.go:33-44 | The two flexible columns share what is left, never below 30; NAME gets a third, rounded down, and PATH the rest |
| Dashboard.ColumnWidthsExamples | internal/ui/dashboard.go:33-44 | An 80-column terminal gives 10 and 20; a 211-column one gives 40 and 80 |
| Dashboard.ColumnWidthsMonotone | internal/ui/dashboard.go:39-44 | A wider terminal never narrows either flexible column |
| Dashboard.VisibleEnd | internal/ui/dashboard.go:69-72 | The drawn range ends at the window's end or the list's end, whichever comes first |
| Dashboard.RowOf | internal/ui/dashboard.go:83-107 | A row shows its one-based number, the truncated name, project and path, the status label and the uptime; it is highlighted exactly when it is the cursor row, and otherwise styled active or waiting exactly by status |
| Dashboard.RenderDashboard | internal/ui/dashboard.go:29-119 | No sessions give the notice; otherwise the hidden counts above and below appear exactly when non-zero, and each drawn row is the row of the window session at its place, with every modelled cell and its style stated |
| Dashboard.VisibleRowsPartition | internal/ui/dashboard.go:68-116 | The hidden rows above, the drawn rows and the hidden rows below account for every session exactly once |
| Dashboard.CursorDrawn | internal/ui/dashboard.go:96-97 | A cursor inside the window is drawn highlighted |
| Configuration.DefaultConfig | internal/config/config.go:28-35 | Two seconds between refreshes, the prefix "cd-", no default directory, and a thousand lines of history |
| Configuration.ConfigDir | internal/config/config.go:38-41 | The directory is `HOME/.claude-dashboard`, joined without a doubled slash, and `.claude-dashboard` when the home is unknown |
| Configuration.ConfigPath | internal/config/config.go:44-46 | The file is that directory followed by `/config.yaml` |
| Configuration.Load | internal/config/config.go:49-78 | A missing or malformed file gives the defaults; otherwise each setting is taken from the file only when it is meaningful there |
| Configuration.LoadEmptyFile | internal/config/config.go:62-75 | A file that sets nothing gives exactly the defaults |
| Configuration.LoadBadDuration | internal/config/config.go:62-66 | An unparseable interval keeps the default while the other settings still apply |
| Configuration.Save | internal/config/config.go:87-92 | The saved record carries every setting, the interval in its text form |
| Configuration.SaveLoadRoundTrip | internal/config/config.go:49-99 | Saving and loading again gives the settings back when the interval's text parses back and no setting holds a value that Load treats as unset |
| Configuration.SaveLoadResetsHistory | internal/config/config.go:73-75 | A non-positive history comes back as 1000 |
| CreateForm.NewCreateForm | internal/ui/create.go:20-40 | The name input is focused and empty, and the directory input holds the default directory |
| CreateForm.FocusNext | internal/ui/create.go:43-53 | Tab moves the focus from the name to the directory and back, keeps exactly one input focused, and leaves the texts alone |
| CreateForm.NewCreateFormConsistent | internal/ui/create.go:20-40 | A new form has exactly one input focused, matching its index |
| CreateForm.FocusNextTwice | internal/ui/create.go:43-53 | Two presses of tab restore the form |
| CreateForm.Values | internal/ui/create.go:56-58 | Each value is the slice of its input between the leading and the trailing white space, so it has no white space at either end; only one text fits that description |
| CreateForm.ValuesIdempotent | internal/ui/create.go:56-58 | Trimmed values are already trimmed |
| CreateForm.Validate | internal/ui/create.go:61-73 | Each error occurs exactly under its condition, checked in order: name missing, name with a space, directory missing |
| CreateForm.ValidateLooserThanTmux | internal/ui/create.go:61-73 | The form accepts names with a dot, which the tmux client then refuses |
| App.NewLogView | internal/ui/logs.go:20-28 | A new log view is for that session, not ready, and four lines shorter than the screen |
| App.NewModel | internal/app/app.go:98-120 | A new model is on the dashboard with nothing loaded, no prompt, no filter and no error |
| App.Init | internal/app/app.go:123-128 | Start-up asks for a refresh and a tick at the configured interval |
| App.VisibleSessionRows | internal/app/app.go:528-534 | The window is the height less six lines, and at least one row |
| App.TmuxNamesAttachable | internal/app/app.go:24 | Every name the tmux client accepts passes the attach guard |
| App.AttachLooserThanTmux | internal/app/app.go:24 | The attach guard also admits '.' and '/', which the tmux client refuses |
| App.ClampCursorAsWritten | internal/app/app.go:161-163 | As written, a cursor past the end moves to the last index |
| App.ClampCursorAsWrittenGoesNegative | internal/app/app.go:161-163 | With the cursor on row two and the list emptied, the cursor becomes -1, which the later `cursor < len` guards accept |
| App.ClampCursor | internal/app/app.go:161-163 | As intended, the cursor is never negative, is on a row whenever there is one, and stays when it already is |
| App.ClampCursorAgrees | internal/app/app.go:161-163 | Both clamps agree on a non-empty list |
| App.OnSessions | internal/app/app.go:147-164 | A failed refresh records the error and keeps the old list; a good one replaces it; either way the cursor is brought back onto the list |
| App.OnAttach | internal/app/app.go:189-197 | An attach is honoured exactly for a name the pattern accepts, recording the target and quitting; otherwise an error is shown |
| App.Update | internal/app/app.go:131-206 | Every message keeps the model well formed: ctrl+c quits; a kill reply closes the prompt and refreshes; a tick refreshes and re-arms; a create reply shows its error or returns to the dashboard; logs fill the viewer |
| App.HandleKey | internal/app/app.go:208-239 | ctrl+c quits first; an open prompt, then an open filter bar, takes the key before the current view |
| App.CursorUp | internal/app/app.go:245-251 | Up moves the cursor one row, pulling the window along, and does nothing at the top |
| App.CursorDown | internal/app/app.go:252-260 | Down moves the cursor one row, pushing the window along, and does nothing at the last row |
| App.HandleDashboardKey | internal/app/app.go:241-310 | Attaching to and killing a terminal session are refused with a message; enter attaches a managed session; K asks for confirmation; row keys without a row do nothing; "/" opens the filter bar |
| App.HandleLogsKey | internal/app/app.go:312-324 | esc returns to the dashboard, q quits, and other keys go to the viewport |
| App.HandleDetailKey | internal/app/app.go:326-352 | K refuses a terminal session; l opens the pane log of the session under the cursor |
| App.HandleCreateKey | internal/app/app.go:354-379 | esc leaves, tab moves the focus, enter shows the first validation error or creates the session from the trimmed values |
| App.HandleHelpKey | internal/app/app.go:381-387 | esc, ? and q return to the dashboard; other keys do nothing |
| App.HandleConfirmKey | internal/app/app.go:389-401 | y kills the session under the cursor, or closes the prompt when there is none; n and esc close it; a kill starts only from y on a row |
| App.HandleFilterKey | internal/app/app.go:403-421 | enter keeps the typed query and esc clears it, both closing the bar and moving the cursor to the top; other keys edit the query as it is typed |
| App.NavigationKeepsCursorVisible | internal/app/app.go:245-260 | Moving up and down keeps the cursor on a row and inside the drawn window |
| App.NavigationIsLocal | internal/app/app.go:245-260 | Up and down start no command and leave the list, the query and the view alone |
| App.FilterCloseResetsCursor | internal/app/app.go:406-415 | Closing the filter bar either way puts the cursor on the first row |
| App.KillNeedsConfirmation | internal/app/app.go:389-401 | Only a y in an open prompt, with the cursor on a row, ever starts a kill |
| App.AttachOnlyManaged | internal/app/app.go:262-275 | An attach is only ever requested for the managed session under the cursor |
| App.ManagedAttachProceeds | internal/app/app.go:189-197 | A session the tmux client named passes the attach guard, so choosing it quits in order to attach |
| App.RenderScroll | internal/app/app.go:456-464 | The drawn offset is pulled back so the window does not run past the end, and is never negative |
| App.Render | internal/app/app.go:433-503 | A zero width shows loading; otherwise the error, prompt and filter bar appear exactly when set; the count is of the filtered list; the detail view shows the cursor's session exactly when there is one |
| App.RenderedWindowFull | internal/app/app.go:456-464 | On the dashboard the drawn window is always full, whatever the stored offset |
| App.RenderKeepsValidOffset | internal/app/app.go:456-464 | An offset that leaves a full window is drawn as it is |
| Cli.ChecksSetup | cmd/claude-dashboard/main.go:27-53 | The setup check runs for the bare dashboard and for every sub-command except version, help and setup |
| Cli.ChecksSetupExamples | cmd/claude-dashboard/main.go:27-53 | The bare dashboard and "new" check setup; "-h" and "setup" do not |
| Cli.OptionStart | cmd/claude-dashboard/main.go:85-89 | Options start after the name exactly when the token after `new` is not an option |
| Cli.ParseNewArgs | cmd/claude-dashboard/main.go:80-104 | The name is the first token when it is not an option; the path and extra arguments are those of the option scan |
| Cli.ScanIgnoresOtherTokens | cmd/claude-dashboard/main.go:91-104 | Tokens that are neither option leave the defaults |
| Cli.ScanTrailingFlag | cmd/claude-dashboard/main.go:94-101 | A flag at the very end, with no value, is ignored |
| Cli.LaterPathWins | cmd/claude-dashboard/main.go:91-104 | A later `--path` overrides an earlier one, and each option leaves the other alone |
| Cli.OptionValueConsumed | cmd/claude-dashboard/main.go:98-101 | An option's value is consumed even when it looks like an option |
| Cli.FilepathBase | cmd/claude-dashboard/main.go:116 | "." for the empty path and "/" for slashes only; otherwise the whole last element once trailing slashes are removed: a non-empty suffix with no slash, preceded by a slash or the start |
| Cli.DefaultNameAsWritten | cmd/claude-dashboard/main.go:107-118 | As written, a path that starts with the home directory as a string loses that prefix and one slash, and any other path is kept whole; the slashes become dashes, and when nothing is left the base name is used |
| Cli.DefaultNameAsWrittenSplitsWord | cmd/claude-dashboard/main.go:110-114 | "/home/user/proj" with home "/home/u" is named "ser-proj" |
| Cli.DefaultName | cmd/claude-dashboard/main.go:106-118 | As intended: home itself gives its base name; a path below home gives its relative path with dashes; any other non-empty path gives the whole path with dashes; the name is never empty |
| Cli.DefaultNameRelative | cmd/claude-dashboard/main.go:106 | A directory below home is named by its relative path with dashes, as in "~/project/foo" giving "project-foo" |
| Cli.DefaultNameOutsideHome | cmd/claude-dashboard/main.go:106-118 | "/home/user/proj" with home "/home/u" keeps all its components |
| Cli.DefaultNameAgrees | cmd/claude-dashboard/main.go:107-118 | The two names agree for a path inside home and for a path that does not start with it |
| Cli.NewSessionName | cmd/claude-dashboard/main.go:120 | The session is named with the managed prefix |
| Cli.NewCommand | cmd/claude-dashboard/main.go:79-120 | `new` names the session after the given name, or the default name of the chosen directory, under the managed prefix, with the scanned directory and arguments |

## Left out

- Running tmux, ps and lsof, reading and writing files, the clock and the
  home directory. Their results are inputs to the model.
- Concurrency: the mutex around the directory cache, and the asynchronous
  commands of the interface. The cache is a value threaded through the
  calls, and each command is a value returned by `Update`.
- Floating point: the CPU and memory percentages are integers produced by a
  caller-supplied metric parser. `Uptime` takes whole elapsed seconds, not a
  floating-point duration. The session record has no CPU or memory fields,
  so the per-session figures in `Update` (internal/app/app.go:152-159) and the
  CPU and MEM cells of a row are not modelled.
- The session record's last-activity field. Status detection receives the
  activity time directly.
- Detector.Detect: the pane-command fast path of `HasClaudeProcess` and its
  process-tree fallback are an input predicate (`hasClaudeProcess`) instead of
  being composed from `TmuxClient.HasClaudeDescendant`. The search itself is
  modelled in `TmuxClient.HasClaudeDescendant`.
- Detector.ListSessions: which tmux error texts mean "no server" (they give
  empty output in the source) is not modelled. A failure and empty output lead to the same terminal-only path.
- The legacy `ps` fallback of `hasClaudeDescendant`, taken when no index is
  passed. The model always passes an index.
- Detector.DetectStatus: the source takes the clock twice, once per status
  check and once per cache lookup. The model uses one `now` per call.
- The `hasPrompt` branch of `detectStatus`: both of its outcomes are idle,
  so it has no effect.
- TmuxClient.SessionPid: splitting always yields at least one line, so the
  source's "no pane found" branch cannot be reached.
- Strings.ToLower: ASCII only; it folds A to Z and leaves every other
  character alone, while Go's `strings.ToLower` folds every cased letter.
  So `Manager.FilterSessions` and `Manager.FilterSessionsCaseInsensitive`
  treat "É" and "é" as different letters where the source matches them.
  The "claude" tests (`Detector.IsCandidate`, `TmuxClient.MatchesClaude`)
  are exact, because no non-ASCII character lower-cases to c, l, a, u, d
  or e.
- Strings.IsSpace: white space is the six ASCII characters only. Go's
  `unicode.IsSpace` also counts U+0085, U+00A0 and the other Unicode spaces,
  so `Strings.TrimSpace`, `Strings.Fields` and everything built on them
  (`CreateForm.Values`, `TmuxClient.SessionPid`, the ps row scan) treat
  those characters as ordinary text.
- Strings.JoinPath joins two clean pieces. The rest of Go's
  `filepath.Join` clean-up (dot segments, doubled slashes) is not modelled.
- Conversation.FindLatestJSONL: the source sorts with an unstable sort, so
  among logs with equal times it may pick any of them. The model takes the
  first.
- JSON, RFC 3339 timestamps and YAML are decoded by the caller. Timestamps
  keep their text, and the clock rendering is a parameter.
- The scanner's ten-megabyte line limit.
- Unicode display width: widths are string lengths, which is exact for ASCII
  only. Because of this, the final `return s` branch of `truncatePath` cannot
  be reached in the model.
- Dashboard.Truncate: a negative width with a longer string makes the
  source's slice panic, so it is excluded by a precondition.
- Dashboard.RenderDashboard: a negative offset would index before the list
  and panic. It is excluded by a precondition, since `View` clamps the offset
  first.
- Styling, padding and the header row, and the `%d` formatting of row
  numbers (modelled by the decimal printer of natural numbers).
- App.OnSessions: clamps the cursor with the corrected `ClampCursor`, not
  the as-written rule, so it never leaves a negative cursor;
  `App.ClampCursorAsWritten` keeps the source's rule and the finding below
  shows where the two differ. `App.Render` and `App.Update` inherit this
  through `OnSessions`.
- App.Update: requires a well-formed model (cursor and offset not
  negative). This holds because the corrected cursor clamp is used.
- The clamped offset in `View` is not written back, since `View` has a value
  receiver. The model's `Render` leaves the stored offset as it is.
- The text-input and viewport widgets: editing is the `edit` parameter,
  scrolling the viewport is not modelled, and the inputs' character limits
  are recorded but not enforced.
- The detail, help, create-form, log-view, status-bar and help-bar
  renderings. The screen is described by the parts it holds.
- `cleanDA1`, `DrainStdin`, `Run`, `ExecAttach` and `CreateSession` in
  app.go: they run processes and terminals.
- The call sites in app.go, main.go and manager.go that do not match the
  signatures they call: `GetChildProcessInfo` with one argument,
  `manager.Create` with three, and `ListSessions`, `CapturePaneContent`,
  `NewSession`, `KillSession` and `SendKeys` without a context. The model
  follows the callee definitions.
- Cli.NewCommand: names the session with the corrected `Cli.DefaultName`,
  not the source's string-prefix rule. The two agree unless the path
  starts with the home directory's text without being inside it
  (`Cli.DefaultNameAgrees`); `Cli.DefaultNameAsWritten` keeps the source's
  rule, and the finding below shows where they differ.
- main: the version cache, the setup routine itself, and the version, help,
  setup and attach sub-commands. Only the decision whether setup runs is
  modelled. Whether `new` attaches to an existing session depends on a tmux
  failure and is not modelled.

## Findings

| source | as written | input that shows it | evidently intended | confidence | as-written member | corrected member |
|---|---|---|---|---|---|---|
| internal/session/session.go:66-69 | `DisplayName` returns the name unchanged | a session named "cd-myproject" displays as "cd-myproject" | the doc comment and the repository's test expect "myproject", the name without the managed prefix | high, not executed | Sessions.DisplayNameKeepsPrefix | Sessions.DisplayNameStripped |
| internal/app/app.go:161-163 | a cursor past the end moves to `len - 1` whenever it is positive | cursor 1 with an empty list gives -1; the next one-session list keeps -1, which passes `len > 0 && cursor < len` and is used as an index | the cursor moves to the last row, or to 0 when the list is empty | medium, not executed | App.ClampCursorAsWrittenGoesNegative | App.ClampCursor |
| cmd/claude-dashboard/main.go:110-114 | the home directory is matched as a string prefix | path "/home/user/proj" with home "/home/u" gives the name "ser-proj" | only a path inside home, meaning home itself or home followed by "/", is made relative | medium, not executed | Cli.DefaultNameAsWrittenSplitsWord | Cli.DefaultName |
