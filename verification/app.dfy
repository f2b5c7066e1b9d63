/** The dashboard program's state machine (internal/app/app.go): how each
    message and key press changes the model and which command it starts.
    Commands are returned as values; running them (tmux, the session manager,
    the clock) happens elsewhere and comes back as a message. Editing inside
    a text input and scrolling inside the log viewport belong to widgets:
    the former is the `edit` parameter, the latter is not modelled. */
module App {
  import opened Wrappers
  import opened Strings
  import opened Sessions
  import TmuxClient
  import Manager
  import Dashboard
  import CreateForm
  import Configuration

  // ---------------------------------------------------------------------------
  // The model
  // ---------------------------------------------------------------------------

  datatype ViewKind = DashboardView | LogsView | DetailView | CreateView | HelpView

  /** The log viewer: whose logs, what they say, whether they arrived, and the
      viewport size. */
  datatype LogView = LogView(sessionName: string, content: string, ready: bool, width: int, height: int)

  function NewLogView(sessionName: string, width: int, height: int): (l: LogView)
    ensures l.sessionName == sessionName && !l.ready && l.width == width && l.height == height - 4
  {
    LogView(sessionName, "", false, width, height - 4)
  }

  datatype Model = Model(
    sessions: seq<Session>,
    cfg: Configuration.Config,
    view: ViewKind,
    cursor: int,
    scroll: int,
    width: int,
    height: int,
    err: Option<string>,
    confirmMsg: string,
    confirming: bool,
    logView: LogView,
    createForm: CreateForm.Form,
    filterText: string,
    filtering: bool,
    filterQuery: string,
    attachTarget: string)

  /** What `Update` asks the runtime to do next. */
  datatype Cmd =
    | NoCmd
    | Quit
    | Refresh
    | RefreshAndTick(interval: int)
    | Attach(name: string)
    | Kill(name: string)
    | Create(name: string, dir: string)
    | FetchLogs(name: string, lines: int)
    | FetchConversation(path: string, maxMessages: int)
    | FocusInput
    | WidgetCmd

  /** The messages `Update` receives; `err` is the failure text, if any. */
  datatype Msg =
    | WindowSize(w: int, h: int)
    | Tick
    | SessionsMsg(list: seq<Session>, listErr: Option<string>)
    | KillMsg(killErr: Option<string>)
    | CreateMsg(createErr: Option<string>)
    | LogsMsg(content: string, logsErr: Option<string>)
    | AttachMsg(name: string)
    | KeyMsg(key: string)
    | OtherMsg

  datatype Step = Step(model: Model, cmd: Cmd)

  /** The state every reachable model is in: the cursor and the stored scroll
      offset are never negative. */
  predicate Wellformed(m: Model) {
    m.cursor >= 0 && m.scroll >= 0
  }

  /** `New`: the dashboard view with nothing loaded yet. */
  function NewModel(cfg: Configuration.Config): (m: Model)
    ensures Wellformed(m) && m.view == DashboardView && m.sessions == []
    ensures !m.confirming && !m.filtering && m.filterQuery == "" && m.attachTarget == "" && m.err.None?
  {
    Model([], cfg, DashboardView, 0, 0, 0, 0, None, "", false, LogView("", "", false, 0, 0),
          CreateForm.Form(CreateForm.TextInput("", false, 0), CreateForm.TextInput("", false, 0), 0, ""),
          "", false, "", "")
  }

  /** `Init`: the first refresh together with the first tick, the same pair
      every later tick starts. */
  function Init(m: Model): (c: Cmd)
    ensures c.RefreshAndTick? && c.interval == m.cfg.refreshInterval
  {
    RefreshAndTick(m.cfg.refreshInterval)
  }

  /** The sessions the dashboard shows: the list under the current query. */
  function Filtered(m: Model): seq<Session> {
    Manager.FilterSessions(m.sessions, m.filterQuery)
  }

  /** `visibleSessionRows`: the terminal height less six lines of chrome, and
      at least one row. */
  function VisibleSessionRows(height: int): (r: int)
    ensures r >= 1
    ensures height >= 7 ==> r == height - 6
    ensures height < 7 ==> r == 1
  {
    if height - 6 < 1 then 1 else height - 6
  }

  // ---------------------------------------------------------------------------
  // Attach-name guard
  // ---------------------------------------------------------------------------

  predicate IsAttachChar(c: char) {
    ('a' <= c <= 'z') || ('A' <= c <= 'Z') || ('0' <= c <= '9') || c == '_' || c == '.' || c == '/' || c == '-'
  }

  /** `validSessionName`, the pattern `^[a-zA-Z0-9_./-]+$`. */
  predicate ValidAttachName(name: string) {
    |name| > 0 && forall i :: 0 <= i < |name| ==> IsAttachChar(name[i])
  }

  /** Every name the tmux client accepts can be attached to. */
  lemma TmuxNamesAttachable(name: string)
    requires TmuxClient.IsValidSessionName(name)
    ensures ValidAttachName(name)
  {
    forall i | 0 <= i < |name| ensures IsAttachChar(name[i]) {
      assert TmuxClient.IsNameChar(name[i]);
    }
  }

  /** The converse fails: the attach pattern also admits '.' and '/', which
      the tmux client refuses. */
  lemma AttachLooserThanTmux()
    ensures ValidAttachName("a.b") && !TmuxClient.IsValidSessionName("a.b")
  {
    assert !TmuxClient.IsNameChar("a.b"[1]);
  }

  // ---------------------------------------------------------------------------
  // The cursor after a new session list
  // ---------------------------------------------------------------------------

  /** The clamp as written: a cursor past the end moves to the last index,
      which for an empty list is -1. */
  function ClampCursorAsWritten(cursor: int, count: nat): (r: int)
    ensures cursor >= count && cursor > 0 ==> r == count - 1
    ensures !(cursor >= count && cursor > 0) ==> r == cursor
  {
    if cursor >= count && cursor > 0 then count - 1 else cursor
  }

  /** The discrepancy: with the cursor on the second row and the list emptied,
      the cursor becomes -1. It stays -1 when a one-session list arrives next,
      and the guards on the dashboard keys (`len > 0 && cursor < len`) and the
      detail view (`cursor < len`) let it through as an index, which is out of
      range. */
  lemma ClampCursorAsWrittenGoesNegative()
    ensures ClampCursorAsWritten(1, 0) == -1
    ensures var c := ClampCursorAsWritten(ClampCursorAsWritten(1, 0), 1);
      c == -1 && 1 > 0 && c < 1 && !(0 <= c < 1)
  {
  }

  /** The clamp as intended: past the end moves to the last index, and to 0
      when there is none. */
  function ClampCursor(cursor: int, count: nat): (r: int)
    requires cursor >= 0
    ensures r >= 0
    ensures count > 0 ==> r < count
    ensures cursor < count ==> r == cursor
    ensures count == 0 ==> r == 0
  {
    if cursor >= count && cursor > 0 then (if count > 0 then count - 1 else 0) else cursor
  }

  /** The two agree whenever the list is not empty. */
  lemma ClampCursorAgrees(cursor: int, count: nat)
    requires cursor >= 0 && count > 0
    ensures ClampCursor(cursor, count) == ClampCursorAsWritten(cursor, count)
  {
  }

  // ---------------------------------------------------------------------------
  // Messages
  // ---------------------------------------------------------------------------

  /** A refreshed session list: a failure records the error and keeps the old
      list; either way the cursor is brought back into the list. */
  function OnSessions(m: Model, list: seq<Session>, listErr: Option<string>): (r: Model)
    requires Wellformed(m)
    ensures Wellformed(r)
    ensures listErr.Some? ==> r.sessions == m.sessions && r.err == listErr
    ensures listErr.None? ==> r.sessions == list && r.err == m.err
    ensures |r.sessions| > 0 ==> r.cursor < |r.sessions|
    ensures m.cursor < |r.sessions| ==> r.cursor == m.cursor
  {
    var m' := if listErr.Some? then m.(err := listErr) else m.(sessions := list);
    m'.(cursor := ClampCursor(m'.cursor, |m'.sessions|))
  }

  /** An attach request is honoured only for a name the pattern accepts; it
      records the target and quits the interface so the caller can attach. */
  function OnAttach(m: Model, name: string): (r: Step)
    ensures ValidAttachName(name) ==> r.model == m.(attachTarget := name) && r.cmd == Quit
    ensures !ValidAttachName(name) ==>
      r.model == m.(err := Some("invalid session name: " + name)) && r.cmd == NoCmd
  {
    if !ValidAttachName(name) then Step(m.(err := Some("invalid session name: " + name)), NoCmd)
    else Step(m.(attachTarget := name), Quit)
  }

  /** `Update`. */
  function Update(m: Model, msg: Msg, edit: (string, string) -> string): (r: Step)
    requires Wellformed(m)
    ensures Wellformed(r.model)
    ensures msg.KeyMsg? && msg.key == "ctrl+c" ==> r.cmd == Quit && r.model == m.(err := None)
    ensures msg.KillMsg? ==> !r.model.confirming && r.cmd == Refresh
    ensures msg.Tick? ==> r.model == m && r.cmd == RefreshAndTick(m.cfg.refreshInterval)
    ensures msg.CreateMsg? && msg.createErr.Some? ==>
      r.model.view == m.view && r.model.createForm.err == msg.createErr.value && r.cmd == NoCmd
    ensures msg.CreateMsg? && msg.createErr.None? ==> r.model.view == DashboardView && r.cmd == Refresh
    ensures msg.LogsMsg? && msg.logsErr.None? ==>
      r.model.logView.content == msg.content && r.model.logView.ready
  {
    match msg
    case WindowSize(w, h) =>
      var m' := m.(width := w, height := h);
      var m'' := if m.view == LogsView then m'.(logView := m'.logView.(width := w, height := h - 4)) else m';
      Step(m'', NoCmd)
    case Tick => Step(m, RefreshAndTick(m.cfg.refreshInterval))
    case SessionsMsg(list, listErr) => Step(OnSessions(m, list, listErr), NoCmd)
    case KillMsg(killErr) =>
      Step((if killErr.Some? then m.(err := killErr) else m).(confirming := false), Refresh)
    case CreateMsg(createErr) =>
      if createErr.Some? then Step(m.(createForm := m.createForm.(err := createErr.value)), NoCmd)
      else Step(m.(view := DashboardView), Refresh)
    case LogsMsg(content, logsErr) =>
      if logsErr.Some? then Step(m.(err := logsErr), NoCmd)
      else Step(m.(logView := m.logView.(content := content, ready := true)), NoCmd)
    case AttachMsg(name) => OnAttach(m, name)
    case KeyMsg(key) => HandleKey(m.(err := None), key, edit)
    case OtherMsg => Step(m, if m.view == LogsView then WidgetCmd else NoCmd)
  }

  // ---------------------------------------------------------------------------
  // Keys
  // ---------------------------------------------------------------------------

  /** `handleKey`: ctrl+c always quits; a pending confirmation, then an open
      filter bar, take the key before the current view does. */
  function HandleKey(m: Model, key: string, edit: (string, string) -> string): (r: Step)
    requires Wellformed(m)
    ensures Wellformed(r.model)
    ensures key == "ctrl+c" ==> r == Step(m, Quit)
    ensures key != "ctrl+c" && m.confirming ==> r == HandleConfirmKey(m, key)
    ensures key != "ctrl+c" && !m.confirming && m.filtering ==> r == HandleFilterKey(m, key, edit)
  {
    if key == "ctrl+c" then Step(m, Quit)
    else if m.confirming then HandleConfirmKey(m, key)
    else if m.filtering then HandleFilterKey(m, key, edit)
    else match m.view
      case DashboardView => HandleDashboardKey(m, key)
      case LogsView => HandleLogsKey(m, key)
      case DetailView => HandleDetailKey(m, key)
      case CreateView => HandleCreateKey(m, key, edit)
      case HelpView => HandleHelpKey(m, key)
  }

  const AttachRefused: string := "terminal sessions cannot be attached (not a tmux session)"
  const KillRefused: string := "terminal sessions cannot be killed from dashboard"

  function ConfirmText(name: string): string {
    "Kill session '" + name + "'? (y/n)"
  }

  /** The cursor row of the shown list, when the cursor is on one. */
  predicate OnRow(m: Model) {
    m.cursor >= 0 && m.cursor < |Filtered(m)|
  }

  function CursorUp(m: Model): (r: Model)
    requires Wellformed(m)
    ensures Wellformed(r)
    ensures m.cursor > 0 ==> r.cursor == m.cursor - 1 && r.scroll == (if m.cursor - 1 < m.scroll then m.cursor - 1 else m.scroll)
    ensures m.cursor == 0 ==> r == m
  {
    if m.cursor > 0 then
      var c := m.cursor - 1;
      m.(cursor := c, scroll := if c < m.scroll then c else m.scroll)
    else m
  }

  function CursorDown(m: Model): (r: Model)
    requires Wellformed(m)
    ensures Wellformed(r)
    ensures m.cursor < |Filtered(m)| - 1 ==>
      (r.cursor == m.cursor + 1
       && r.scroll == (if m.cursor + 1 >= m.scroll + VisibleSessionRows(m.height)
                       then m.cursor + 2 - VisibleSessionRows(m.height) else m.scroll))
    ensures m.cursor >= |Filtered(m)| - 1 ==> r == m
  {
    if m.cursor < |Filtered(m)| - 1 then
      var c := m.cursor + 1;
      var rows := VisibleSessionRows(m.height);
      m.(cursor := c, scroll := if c >= m.scroll + rows then c - rows + 1 else m.scroll)
    else m
  }

  /** `handleDashboardKey`. */
  function HandleDashboardKey(m: Model, key: string): (r: Step)
    requires Wellformed(m)
    ensures Wellformed(r.model)
    ensures (key == "enter" || key == "K") && OnRow(m) && !Filtered(m)[m.cursor].managed ==>
      r.cmd == NoCmd && r.model.confirming == m.confirming && r.model.view == m.view
      && r.model.err == Some(if key == "enter" then AttachRefused else KillRefused)
    ensures key == "enter" && OnRow(m) && Filtered(m)[m.cursor].managed ==>
      r == Step(m, Attach(Filtered(m)[m.cursor].name))
    ensures key == "K" && OnRow(m) && Filtered(m)[m.cursor].managed ==>
      r.model == m.(confirming := true, confirmMsg := ConfirmText(Filtered(m)[m.cursor].name)) && r.cmd == NoCmd
    ensures (key == "enter" || key == "K" || key == "l" || key == "d") && !OnRow(m) ==> r == Step(m, NoCmd)
    ensures key == "/" ==> r.model == m.(filtering := true, filterText := m.filterQuery) && r.cmd == FocusInput
  {
    var f := Filtered(m);
    if key == "q" then Step(m, Quit)
    else if key == "up" || key == "k" then Step(CursorUp(m), NoCmd)
    else if key == "down" || key == "j" then Step(CursorDown(m), NoCmd)
    else if key == "enter" then
      if |f| > 0 && m.cursor < |f| then
        if !f[m.cursor].managed then Step(m.(err := Some(AttachRefused)), NoCmd)
        else Step(m, Attach(f[m.cursor].name))
      else Step(m, NoCmd)
    else if key == "n" then
      Step(m.(view := CreateView, createForm := CreateForm.NewCreateForm(m.cfg.defaultDir)), FocusInput)
    else if key == "K" then
      if |f| > 0 && m.cursor < |f| then
        if !f[m.cursor].managed then Step(m.(err := Some(KillRefused)), NoCmd)
        else Step(m.(confirming := true, confirmMsg := ConfirmText(f[m.cursor].name)), NoCmd)
      else Step(m, NoCmd)
    else if key == "l" then
      if |f| > 0 && m.cursor < |f| then
        var s := f[m.cursor];
        var m' := m.(view := LogsView, logView := NewLogView(s.name, m.width, m.height));
        if s.managed then Step(m', FetchLogs(s.name, m.cfg.logHistory))
        else Step(m', FetchConversation(s.path, 50))
      else Step(m, NoCmd)
    else if key == "d" then
      if |f| > 0 && m.cursor < |f| then Step(m.(view := DetailView), NoCmd) else Step(m, NoCmd)
    else if key == "/" then Step(m.(filtering := true, filterText := m.filterQuery), FocusInput)
    else if key == "r" then Step(m, Refresh)
    else if key == "?" then Step(m.(view := HelpView), NoCmd)
    else Step(m, NoCmd)
  }

  function HandleLogsKey(m: Model, key: string): (r: Step)
    ensures key == "esc" ==> r == Step(m.(view := DashboardView), NoCmd)
    ensures key == "q" ==> r == Step(m, Quit)
    ensures key != "esc" && key != "q" ==> r.model == m
  {
    if key == "esc" then Step(m.(view := DashboardView), NoCmd)
    else if key == "q" then Step(m, Quit)
    else Step(m, WidgetCmd)
  }

  /** `handleDetailKey`: like the dashboard, K refuses unmanaged sessions; l
      always asks for the tmux pane's logs. */
  function HandleDetailKey(m: Model, key: string): (r: Step)
    requires Wellformed(m)
    ensures Wellformed(r.model)
    ensures key == "K" && OnRow(m) && !Filtered(m)[m.cursor].managed ==>
      r.cmd == NoCmd && r.model.confirming == m.confirming && r.model.err == Some(KillRefused)
    ensures key == "l" && OnRow(m) ==>
      r.model.view == LogsView && r.cmd == FetchLogs(Filtered(m)[m.cursor].name, m.cfg.logHistory)
  {
    var f := Filtered(m);
    if key == "esc" then Step(m.(view := DashboardView), NoCmd)
    else if key == "q" then Step(m, Quit)
    else if key == "l" then
      if m.cursor < |f| then
        var s := f[m.cursor];
        Step(m.(view := LogsView, logView := NewLogView(s.name, m.width, m.height)), FetchLogs(s.name, m.cfg.logHistory))
      else Step(m, NoCmd)
    else if key == "K" then
      if m.cursor < |f| then
        if !f[m.cursor].managed then Step(m.(err := Some(KillRefused)), NoCmd)
        else Step(m.(confirming := true, confirmMsg := ConfirmText(f[m.cursor].name)), NoCmd)
      else Step(m, NoCmd)
    else Step(m, NoCmd)
  }

  /** `handleCreateKey`: tab moves the focus, enter submits a form that passes
      validation with its trimmed values, and other keys edit the focused
      input. */
  function HandleCreateKey(m: Model, key: string, edit: (string, string) -> string): (r: Step)
    ensures key == "esc" ==> r == Step(m.(view := DashboardView), NoCmd)
    ensures key == "tab" ==> r == Step(m.(createForm := CreateForm.FocusNext(m.createForm)), NoCmd)
    ensures key == "enter" && CreateForm.Validate(m.createForm).Some? ==>
      r.cmd == NoCmd && r.model.createForm.err == CreateForm.FormErrorText(CreateForm.Validate(m.createForm).value)
    ensures key == "enter" && CreateForm.Validate(m.createForm).None? ==>
      r.model == m && r.cmd == Create(CreateForm.Values(m.createForm).0, CreateForm.Values(m.createForm).1)
    ensures r.model.cursor == m.cursor && r.model.scroll == m.scroll
  {
    var form := m.createForm;
    if key == "esc" then Step(m.(view := DashboardView), NoCmd)
    else if key == "tab" then Step(m.(createForm := CreateForm.FocusNext(form)), NoCmd)
    else if key == "enter" then
      match CreateForm.Validate(form)
      case Some(e) => Step(m.(createForm := form.(err := CreateForm.FormErrorText(e))), NoCmd)
      case None =>
        var (name, dir) := CreateForm.Values(form);
        Step(m, Create(name, dir))
    else if form.focusIdx == 0 then
      Step(m.(createForm := form.(nameInput := form.nameInput.(value := edit(form.nameInput.value, key)))), WidgetCmd)
    else
      Step(m.(createForm := form.(dirInput := form.dirInput.(value := edit(form.dirInput.value, key)))), WidgetCmd)
  }

  function HandleHelpKey(m: Model, key: string): (r: Step)
    ensures key == "esc" || key == "?" || key == "q" ==> r == Step(m.(view := DashboardView), NoCmd)
    ensures !(key == "esc" || key == "?" || key == "q") ==> r == Step(m, NoCmd)
  {
    if key == "esc" || key == "?" || key == "q" then Step(m.(view := DashboardView), NoCmd)
    else Step(m, NoCmd)
  }

  /** `handleConfirmKey`: y kills the cursor's session when there is one (the
      prompt stays until the kill reports back) and otherwise closes the
      prompt; n and esc close it; other keys are ignored. */
  function HandleConfirmKey(m: Model, key: string): (r: Step)
    requires Wellformed(m)
    ensures (key == "y" || key == "Y") && OnRow(m) ==> r == Step(m, Kill(Filtered(m)[m.cursor].name))
    ensures (key == "y" || key == "Y") && !OnRow(m) ==> r == Step(m.(confirming := false), NoCmd)
    ensures key == "n" || key == "N" || key == "esc" ==> r == Step(m.(confirming := false), NoCmd)
    ensures r.cmd.Kill? ==> OnRow(m) && (key == "y" || key == "Y")
    ensures !(key == "y" || key == "Y" || key == "n" || key == "N" || key == "esc") ==> r == Step(m, NoCmd)
  {
    var f := Filtered(m);
    if key == "y" || key == "Y" then
      if m.cursor < |f| then Step(m, Kill(f[m.cursor].name)) else Step(m.(confirming := false), NoCmd)
    else if key == "n" || key == "N" || key == "esc" then Step(m.(confirming := false), NoCmd)
    else Step(m, NoCmd)
  }

  /** `handleFilterKey`: enter keeps the typed query and esc clears it, both
      closing the bar and returning the cursor to the top; other keys edit
      the query, which applies as it is typed. */
  function HandleFilterKey(m: Model, key: string, edit: (string, string) -> string): (r: Step)
    ensures key == "enter" ==>
      r == Step(m.(filterQuery := m.filterText, filtering := false, cursor := 0), NoCmd)
    ensures key == "esc" ==> r == Step(m.(filterQuery := "", filtering := false, cursor := 0), NoCmd)
    ensures key != "enter" && key != "esc" ==>
      r.model == m.(filterText := edit(m.filterText, key), filterQuery := edit(m.filterText, key))
  {
    if key == "enter" then Step(m.(filterQuery := m.filterText, filtering := false, cursor := 0), NoCmd)
    else if key == "esc" then Step(m.(filterQuery := "", filtering := false, cursor := 0), NoCmd)
    else
      var t := edit(m.filterText, key);
      Step(m.(filterText := t, filterQuery := t), WidgetCmd)
  }

  // ---------------------------------------------------------------------------
  // Properties of key handling
  // ---------------------------------------------------------------------------

  /** The dashboard's keys reach `HandleDashboardKey` when no prompt or filter
      bar is open. */
  predicate AtDashboard(m: Model) {
    m.view == DashboardView && !m.confirming && !m.filtering
  }

  /** The cursor is on a shown row (or at 0 in an empty list) and inside the
      window of rows starting at the scroll offset. */
  predicate CursorVisible(m: Model) {
    && (|Filtered(m)| == 0 ==> m.cursor == 0)
    && (|Filtered(m)| > 0 ==> m.cursor < |Filtered(m)|)
    && 0 <= m.scroll <= m.cursor < m.scroll + VisibleSessionRows(m.height)
  }

  /** Moving up and down keeps the cursor on a row and inside the window. */
  lemma NavigationKeepsCursorVisible(m: Model, key: string, edit: (string, string) -> string)
    requires Wellformed(m) && AtDashboard(m) && CursorVisible(m)
    requires key == "up" || key == "k" || key == "down" || key == "j"
    ensures CursorVisible(Update(m, KeyMsg(key), edit).model)
  {
    var m' := m.(err := None);
    assert Filtered(m') == Filtered(m);
    var r := Update(m, KeyMsg(key), edit);
    assert r == HandleDashboardKey(m', key);
    assert Filtered(r.model) == Filtered(m);
  }

  /** Up and down never start a command and leave the list untouched. */
  lemma NavigationIsLocal(m: Model, key: string, edit: (string, string) -> string)
    requires Wellformed(m) && AtDashboard(m)
    requires key == "up" || key == "k" || key == "down" || key == "j"
    ensures var r := Update(m, KeyMsg(key), edit);
      r.cmd == NoCmd && r.model.sessions == m.sessions && r.model.filterQuery == m.filterQuery
      && r.model.view == DashboardView
  {
  }

  /** Closing the filter bar either way puts the cursor on the first row. */
  lemma FilterCloseResetsCursor(m: Model, key: string, edit: (string, string) -> string)
    requires Wellformed(m) && !m.confirming && m.filtering
    requires key == "enter" || key == "esc"
    ensures var r := Update(m, KeyMsg(key), edit);
      r.model.cursor == 0 && !r.model.filtering
      && r.model.filterQuery == (if key == "enter" then m.filterText else "")
  {
  }

  /** Only a y in the prompt, with the cursor on a row, ever starts a kill. */
  lemma KillNeedsConfirmation(m: Model, msg: Msg, edit: (string, string) -> string)
    requires Wellformed(m)
    ensures Update(m, msg, edit).cmd.Kill? ==>
      m.confirming && msg.KeyMsg? && (msg.key == "y" || msg.key == "Y") && OnRow(m)
  {
    if msg.KeyMsg? && msg.key != "ctrl+c" && !m.confirming {
      var m' := m.(err := None);
      if !m.filtering && m.view == DashboardView {
        assert !HandleDashboardKey(m', msg.key).cmd.Kill?;
      }
    }
  }

  /** Attach is only ever requested for a managed session under the cursor. */
  lemma AttachOnlyManaged(m: Model, msg: Msg, edit: (string, string) -> string)
    requires Wellformed(m)
    ensures Update(m, msg, edit).cmd.Attach? ==>
      AtDashboard(m) && OnRow(m) && Filtered(m)[m.cursor].managed
      && Update(m, msg, edit).cmd.name == Filtered(m)[m.cursor].name
  {
    if msg.KeyMsg? && msg.key != "ctrl+c" && !m.confirming && !m.filtering {
      var m' := m.(err := None);
      assert Filtered(m') == Filtered(m);
    }
  }

  /** A managed session, whose name the tmux client accepted, passes the
      attach guard, so choosing it quits the interface to attach. */
  lemma ManagedAttachProceeds(m: Model, name: string, edit: (string, string) -> string)
    requires Wellformed(m) && TmuxClient.IsValidSessionName(name)
    ensures Update(m, AttachMsg(name), edit) == Step(m.(attachTarget := name), Quit)
  {
    TmuxNamesAttachable(name);
  }

  // ---------------------------------------------------------------------------
  // Drawing
  // ---------------------------------------------------------------------------

  /** The scroll offset `View` draws with: pulled back so the window does not
      run past the end, and never negative. The stored offset is unchanged. */
  function RenderScroll(scroll: int, count: nat, rows: int): (r: int)
    ensures 0 <= r
    ensures r <= (if count - rows > 0 then count - rows else 0)
    ensures 0 <= scroll <= count - rows ==> r == scroll
    ensures scroll > count - rows ==> r == (if count - rows > 0 then count - rows else 0)
  {
    var s := if scroll > count - rows then count - rows else scroll;
    if s < 0 then 0 else s
  }

  /** What the screen holds under the title. */
  datatype Body =
    | DashboardBody(table: Dashboard.View)
    | LogsBody(log: LogView)
    | DetailBody(shown: Option<Session>)
    | CreateBody(form: CreateForm.Form)
    | HelpBody

  datatype Screen =
    | Loading
    | Screen(err: Option<string>, body: Body, confirm: Option<string>, filterBar: Option<string>,
             shownCount: nat, viewName: string)

  function ViewName(v: ViewKind): string {
    match v
    case DashboardView => "dashboard"
    case LogsView => "logs"
    case DetailView => "detail"
    case CreateView => "create"
    case HelpView => "help"
  }

  /** `View`, as the parts it puts on the screen. */
  function Render(m: Model, uptime: Session -> string): (s: Screen)
    requires Wellformed(m)
    ensures m.width == 0 <==> s == Loading
    ensures s.Screen? ==> s.shownCount == |Filtered(m)| && s.err == m.err
    ensures s.Screen? ==> (s.confirm.Some? <==> m.confirming) && (s.filterBar.Some? <==> m.filtering)
    ensures s.Screen? && m.view == DetailView ==>
      s.body.DetailBody? && (s.body.shown.Some? <==> OnRow(m))
      && (OnRow(m) ==> s.body.shown.value == Filtered(m)[m.cursor])
  {
    if m.width == 0 then Loading
    else
      var f := Filtered(m);
      var body := match m.view
        case DashboardView =>
          var rows := VisibleSessionRows(m.height);
          DashboardBody(Dashboard.RenderDashboard(f, m.cursor, m.width, RenderScroll(m.scroll, |f|, rows), rows, uptime))
        case LogsView => LogsBody(m.logView)
        case DetailView => DetailBody(if m.cursor < |f| then Some(f[m.cursor]) else None)
        case CreateView => CreateBody(m.createForm)
        case HelpView => HelpBody;
      Screen(m.err, body,
             if m.confirming then Some("  " + m.confirmMsg) else None,
             if m.filtering then Some(m.filterText) else None,
             |f|, ViewName(m.view))
  }

  /** On the dashboard the drawn window is always full: as many rows as fit,
      or every session when fewer, whatever the stored offset. */
  lemma RenderedWindowFull(m: Model, uptime: Session -> string)
    requires Wellformed(m) && m.width != 0 && m.view == DashboardView && |Filtered(m)| > 0
    ensures var s := Render(m, uptime);
      var rows := VisibleSessionRows(m.height);
      s.body.DashboardBody? && s.body.table.Table?
      && |s.body.table.rows| == (if |Filtered(m)| < rows then |Filtered(m)| else rows)
  {
  }

  /** Drawing starts at the stored offset whenever that leaves a full window. */
  lemma RenderKeepsValidOffset(scroll: int, count: nat, rows: int)
    requires 0 <= scroll && scroll + rows <= count
    ensures RenderScroll(scroll, count, rows) == scroll
  {
  }
}
