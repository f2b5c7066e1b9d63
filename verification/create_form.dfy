/** The new-session form (internal/ui/create.go): two text inputs, which of
    them has the focus, and the checks run before a session is created. The
    inputs are reduced to their text and focus; cursor movement and editing
    belong to the text-input widget. */
module CreateForm {
  import opened Wrappers
  import opened Strings
  import Sessions
  import opened TmuxClient

  /** A text input: its text, whether it has the focus, and the character
      limit it was configured with. */
  datatype TextInput = TextInput(value: string, focused: bool, charLimit: nat)

  datatype Form = Form(nameInput: TextInput, dirInput: TextInput, focusIdx: int, err: string)

  const NameCharLimit: nat := 40
  const DirCharLimit: nat := 200

  /** `NewCreateForm`: the name input focused and empty, the directory input
      holding `defaultDir`, and no error. */
  function NewCreateForm(defaultDir: string): (f: Form)
    ensures f.focusIdx == 0 && f.nameInput.focused && !f.dirInput.focused
    ensures f.nameInput.value == "" && f.dirInput.value == defaultDir && f.err == ""
    ensures f.nameInput.charLimit == 40 && f.dirInput.charLimit == 200
  {
    var nameInput := TextInput("", true, NameCharLimit);
    var dirInput := TextInput("", false, DirCharLimit);
    var dirInput' := if defaultDir != "" then dirInput.(value := defaultDir) else dirInput;
    Form(nameInput, dirInput', 0, "")
  }

  /** The focus agrees with the index: input 0 is the name, any other is the
      directory, and exactly one input is focused. */
  predicate FocusConsistent(f: Form) {
    && (f.focusIdx == 0 ==> f.nameInput.focused && !f.dirInput.focused)
    && (f.focusIdx != 0 ==> f.dirInput.focused && !f.nameInput.focused)
  }

  /** `FocusNext`: from the name to the directory, from anywhere else back to
      the name. The texts are untouched. */
  function FocusNext(f: Form): (r: Form)
    ensures r.focusIdx == (if f.focusIdx == 0 then 1 else 0)
    ensures FocusConsistent(r)
    ensures r.nameInput.value == f.nameInput.value && r.dirInput.value == f.dirInput.value && r.err == f.err
  {
    if f.focusIdx == 0 then
      f.(focusIdx := 1, nameInput := f.nameInput.(focused := false), dirInput := f.dirInput.(focused := true))
    else
      f.(focusIdx := 0, dirInput := f.dirInput.(focused := false), nameInput := f.nameInput.(focused := true))
  }

  lemma NewCreateFormConsistent(defaultDir: string)
    ensures FocusConsistent(NewCreateForm(defaultDir))
  {
  }

  /** Two presses of tab return a form to where it was. */
  lemma FocusNextTwice(f: Form)
    requires f.focusIdx == 0 || f.focusIdx == 1
    requires FocusConsistent(f)
    ensures FocusNext(FocusNext(f)) == f
  {
  }

  /** `Values`: both texts with surrounding white space removed. With
      `TrimmedOfUnique`, these are the only values that fit. */
  function Values(f: Form): (r: (string, string))
    ensures TrimmedOf(f.nameInput.value, r.0) && TrimmedOf(f.dirInput.value, r.1)
    ensures |r.0| <= |f.nameInput.value| && |r.1| <= |f.dirInput.value|
    ensures |r.0| > 0 ==> !IsSpace(r.0[0]) && !IsSpace(r.0[|r.0| - 1])
    ensures |r.1| > 0 ==> !IsSpace(r.1[0]) && !IsSpace(r.1[|r.1| - 1])
  {
    TrimSpaceTrimmed(f.nameInput.value);
    TrimSpaceTrimmed(f.dirInput.value);
    (TrimSpace(f.nameInput.value), TrimSpace(f.dirInput.value))
  }

  /** Trimmed values are already trimmed. */
  lemma ValuesIdempotent(f: Form)
    ensures var (n, d) := Values(f);
      Values(f.(nameInput := f.nameInput.(value := n), dirInput := f.dirInput.(value := d))) == (n, d)
  {
    var (n, d) := Values(f);
    TrimSpaceNoop(n);
    TrimSpaceNoop(d);
  }

  datatype FormError = NameRequired | NameHasSpace | DirRequired

  function FormErrorText(e: FormError): string {
    match e
    case NameRequired => "session name is required"
    case NameHasSpace => "session name cannot contain spaces"
    case DirRequired => "project directory is required"
  }

  /** `Validate`: the first failing check, in the order name missing, name with
      a space, directory missing. */
  function Validate(f: Form): (r: Option<FormError>)
    ensures var (n, d) := Values(f);
      && (r == Some(NameRequired) <==> n == "")
      && (r == Some(NameHasSpace) <==> n != "" && ' ' in n)
      && (r == Some(DirRequired) <==> n != "" && ' ' !in n && d == "")
      && (r.None? <==> n != "" && ' ' !in n && d != "")
  {
    var (name, dir) := Values(f);
    if name == "" then Some(NameRequired)
    else if ' ' in name then Some(NameHasSpace)
    else if dir == "" then Some(DirRequired)
    else None
  }

  /** The form accepts names the tmux session validator rejects, such as one
      with a dot; creating such a session then fails in the manager. */
  lemma ValidateLooserThanTmux(f: Form)
    requires Validate(f).None?
    requires '.' in Values(f).0
    ensures !IsValidSessionName(Sessions.SessionPrefix + Values(f).0)
  {
    DotRejected(Values(f).0);
  }

  lemma DotRejected(name: string)
    requires '.' in name
    ensures !IsValidSessionName(Sessions.SessionPrefix + name)
  {
    var full := Sessions.SessionPrefix + name;
    var i :| 0 <= i < |name| && name[i] == '.';
    assert full[3 + i] == '.';
    assert !IsNameChar(full[3 + i]);
  }
}
