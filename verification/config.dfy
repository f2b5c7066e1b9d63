/** Application settings (internal/config/config.go): the defaults, how the
    YAML file overrides them, and the record written back. The file is read
    and written elsewhere; `Load` receives its decoded contents, `None` when
    the file is missing or is not valid YAML. Durations are nanoseconds and
    their text form is handled by caller-supplied functions. */
module Configuration {
  import opened Wrappers
  import opened Strings

  /** The settings in use. */
  datatype Config = Config(refreshInterval: int, sessionPrefix: string, defaultDir: string, logHistory: int)

  /** The settings as the YAML file spells them. */
  datatype ConfigFile = ConfigFile(refreshInterval: string, sessionPrefix: string, defaultDir: string, logHistory: int)

  const NanosPerSecond: int := 1_000_000_000

  /** Two seconds between refreshes, the managed prefix, no default directory
      and a thousand lines of log history. */
  function DefaultConfig(): (c: Config)
    ensures c.refreshInterval == 2 * NanosPerSecond
    ensures c.sessionPrefix == "cd-" && c.defaultDir == "" && c.logHistory == 1000
  {
    Config(2 * NanosPerSecond, "cd-", "", 1000)
  }

  /** `~/.claude-dashboard/config.yaml` under the given home directory. */
  function ConfigDir(home: string): (r: string)
    ensures home == "" ==> r == ".claude-dashboard"
    ensures home != "" && home[|home| - 1] != '/' ==> r == home + "/.claude-dashboard"
    ensures home != "" && home[|home| - 1] == '/' ==> r == home + ".claude-dashboard"
  {
    JoinPath(home, ".claude-dashboard")
  }

  /** The settings file: `config.yaml` inside `ConfigDir`. */
  function ConfigPath(home: string): (r: string)
    ensures r == ConfigDir(home) + "/config.yaml"
    ensures home != "" && home[|home| - 1] != '/' ==> r == home + "/.claude-dashboard/config.yaml"
  {
    var dir := ConfigDir(home);
    assert dir[|dir| - 1] == 'd';
    JoinPath(dir, "config.yaml")
  }

  /** `Load`: each setting is taken from the file only when the file gives it
      a meaningful value (a duration that parses, a non-empty string, a
      positive line count), and is the default otherwise. */
  function Load(file: Option<ConfigFile>, parseDuration: string -> Option<int>): (c: Config)
    ensures file.None? ==> c == DefaultConfig()
    ensures file.Some? && file.value.refreshInterval != "" && parseDuration(file.value.refreshInterval).Some?
            ==> c.refreshInterval == parseDuration(file.value.refreshInterval).value
    ensures file.Some? && (file.value.refreshInterval == "" || parseDuration(file.value.refreshInterval).None?)
            ==> c.refreshInterval == DefaultConfig().refreshInterval
    ensures file.Some? ==> c.sessionPrefix == (if file.value.sessionPrefix != "" then file.value.sessionPrefix else "cd-")
    ensures file.Some? ==> c.defaultDir == file.value.defaultDir
    ensures file.Some? ==> c.logHistory == (if file.value.logHistory > 0 then file.value.logHistory else 1000)
  {
    var cfg := DefaultConfig();
    match file
    case None => cfg
    case Some(cf) =>
      var refresh :=
        if cf.refreshInterval != "" && parseDuration(cf.refreshInterval).Some?
        then parseDuration(cf.refreshInterval).value else cfg.refreshInterval;
      Config(refresh,
             if cf.sessionPrefix != "" then cf.sessionPrefix else cfg.sessionPrefix,
             if cf.defaultDir != "" then cf.defaultDir else cfg.defaultDir,
             if cf.logHistory > 0 then cf.logHistory else cfg.logHistory)
  }

  /** A file that sets nothing gives exactly the defaults, as a missing one does. */
  lemma LoadEmptyFile(parseDuration: string -> Option<int>)
    ensures Load(Some(ConfigFile("", "", "", 0)), parseDuration) == DefaultConfig()
  {
  }

  /** A duration the parser rejects leaves the refresh interval at its default
      while the other settings still apply. */
  lemma LoadBadDuration(cf: ConfigFile, parseDuration: string -> Option<int>)
    requires parseDuration(cf.refreshInterval).None?
    requires cf.sessionPrefix != "" && cf.logHistory > 0
    ensures Load(Some(cf), parseDuration) == Config(2 * NanosPerSecond, cf.sessionPrefix, cf.defaultDir, cf.logHistory)
  {
  }

  /** `Save`: the record written to the file, the interval in its text form. */
  function Save(cfg: Config, formatDuration: int -> string): (cf: ConfigFile)
    ensures cf.sessionPrefix == cfg.sessionPrefix && cf.defaultDir == cfg.defaultDir
    ensures cf.logHistory == cfg.logHistory
    ensures cf.refreshInterval == formatDuration(cfg.refreshInterval)
  {
    ConfigFile(formatDuration(cfg.refreshInterval), cfg.sessionPrefix, cfg.defaultDir, cfg.logHistory)
  }

  /** Saving and loading again gives back the settings, provided the duration's
      text form is non-empty and parses back to it, and no setting holds the
      value that `Load` treats as unset. */
  lemma SaveLoadRoundTrip(cfg: Config, formatDuration: int -> string, parseDuration: string -> Option<int>)
    requires formatDuration(cfg.refreshInterval) != ""
    requires parseDuration(formatDuration(cfg.refreshInterval)) == Some(cfg.refreshInterval)
    requires cfg.sessionPrefix != "" && cfg.logHistory > 0
    ensures Load(Some(Save(cfg, formatDuration)), parseDuration) == cfg
  {
  }

  /** A non-positive history does not survive the round trip: it comes back as
      the default 1000. */
  lemma SaveLoadResetsHistory(cfg: Config, formatDuration: int -> string, parseDuration: string -> Option<int>)
    requires cfg.logHistory <= 0
    ensures Load(Some(Save(cfg, formatDuration)), parseDuration).logHistory == 1000
  {
  }
}
