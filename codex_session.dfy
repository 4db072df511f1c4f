/** The Codex side of the project session descriptor (`.codex-session`): the
    key-preserving update `_remember_codex_session` makes once a log is bound, and the
    decision `_check_session_health_impl` takes from what it finds on disk. */
module CodexSession {
  import opened Common
  import opened SessionId
  import opened CodexReader
  import opened Descriptor

  const PATH_KEY := "codex_session_path"
  const ID_KEY := "codex_session_id"
  const CMD_KEY := "codex_start_cmd"
  const ACTIVE_KEY := "active"
  const RESUME_PREFIX := "codex resume "

  /** The outcome of the dictionary update: `raised` when `.get(...).startswith` or
      `.get` on a non-object raises, otherwise the new dictionary and `updated`. */
  datatype Update = Raised | Updated(doc: Doc, updated: bool)

  /** `f"codex resume {session_id}" if session_id else None` */
  function ResumeCommand(sessionId: Option<string>): Option<string>
  {
    if sessionId.Some? && sessionId.value != [] then Some(RESUME_PREFIX + sessionId.value) else None
  }

  /** The dictionary part of `_remember_codex_session`. */
  function UpdateDescriptor(loaded: Loaded, pathStr: string, sessionId: Option<string>): (r: Update)
  {
    match loaded
    case NotAnObject => Raised
    case Object(data) =>
      var d1 := if Differs(data, PATH_KEY, pathStr) then data[PATH_KEY := Str(pathStr)] else data;
      var u1 := Differs(data, PATH_KEY, pathStr);
      var hasId := sessionId.Some? && sessionId.value != [];
      var d2 := if hasId && Differs(d1, ID_KEY, sessionId.value) then d1[ID_KEY := Str(sessionId.value)] else d1;
      var u2 := u1 || (hasId && Differs(d1, ID_KEY, sessionId.value));
      var cmd := ResumeCommand(sessionId);
      if cmd.None? && CMD_KEY in d2 && !d2[CMD_KEY].Str? then Raised
      else
        var d3 := if cmd.Some? && Differs(d2, CMD_KEY, cmd.value) then d2[CMD_KEY := Str(cmd.value)] else d2;
        var u3 := u2 || (cmd.Some? && Differs(d2, CMD_KEY, cmd.value));
        var deactivated := ACTIVE_KEY in d3 && d3[ACTIVE_KEY] == Bool(false);
        var d4 := if deactivated then d3[ACTIVE_KEY := Bool(true)] else d3;
        Updated(d4, u3 || deactivated)
  }

  /** The update raises only for a document that is not an object, or, when no
      session id is known, for a start command that is present but not a string. */
  lemma UpdateRaisesIff(loaded: Loaded, pathStr: string, sessionId: Option<string>)
    ensures UpdateDescriptor(loaded, pathStr, sessionId).Raised? <==>
      loaded.NotAnObject?
      || (ResumeCommand(sessionId).None? && CMD_KEY in loaded.doc && !loaded.doc[CMD_KEY].Str?)
  {
  }

  /** After the update the descriptor names the bound log, carries the session id and
      its resume command when an id is known, and is never left inactive. */
  lemma UpdateBindsLog(data: Doc, pathStr: string, sessionId: Option<string>)
    requires UpdateDescriptor(Object(data), pathStr, sessionId).Updated?
    ensures var d := UpdateDescriptor(Object(data), pathStr, sessionId).doc;
      && d[PATH_KEY] == Str(pathStr)
      && (ResumeCommand(sessionId).Some? ==> d[ID_KEY] == Str(sessionId.value) && d[CMD_KEY] == Str(ResumeCommand(sessionId).value))
      && (ACTIVE_KEY in d ==> d[ACTIVE_KEY] != Bool(false))
  {
    assert ResumeCommand(sessionId).Some? <==> sessionId.Some? && sessionId.value != [];
  }

  /** The update adds only the keys it binds, and every other key keeps its value: an
      `active` flag that is not `false`, and, when no id is known, the stored id and
      start command. */
  lemma UpdateKeepsOthers(data: Doc, pathStr: string, sessionId: Option<string>)
    requires UpdateDescriptor(Object(data), pathStr, sessionId).Updated?
    ensures var d := UpdateDescriptor(Object(data), pathStr, sessionId).doc;
      && d.Keys == data.Keys + {PATH_KEY} + (if ResumeCommand(sessionId).Some? then {ID_KEY, CMD_KEY} else {})
      && (forall k :: k in data && k != PATH_KEY && k != ID_KEY && k != CMD_KEY && k != ACTIVE_KEY ==> d[k] == data[k])
      && (ACTIVE_KEY in data && data[ACTIVE_KEY] != Bool(false) ==> d[ACTIVE_KEY] == data[ACTIVE_KEY])
      && (ResumeCommand(sessionId).None? ==> (ID_KEY in data ==> d[ID_KEY] == data[ID_KEY]) && (CMD_KEY in data ==> d[CMD_KEY] == data[CMD_KEY]))
  {
    assert ResumeCommand(sessionId).Some? <==> sessionId.Some? && sessionId.value != [];
  }

  /** The file is rewritten exactly when the update changed the dictionary. */
  lemma UpdatedIffChanged(data: Doc, pathStr: string, sessionId: Option<string>)
    requires UpdateDescriptor(Object(data), pathStr, sessionId).Updated?
    ensures var r := UpdateDescriptor(Object(data), pathStr, sessionId);
      r.updated <==> r.doc != data
  {
    var r := UpdateDescriptor(Object(data), pathStr, sessionId);
    if r.updated {
      var cmd := ResumeCommand(sessionId);
      if Differs(data, PATH_KEY, pathStr) {
        assert r.doc[PATH_KEY] == Str(pathStr);
      } else if sessionId.Some? && sessionId.value != [] && Differs(data, ID_KEY, sessionId.value) {
        assert r.doc[ID_KEY] == Str(sessionId.value);
      } else if cmd.Some? && Differs(data, CMD_KEY, cmd.value) {
        assert r.doc[CMD_KEY] == Str(cmd.value);
      } else {
        assert r.doc[ACTIVE_KEY] == Bool(true);
      }
    }
  }

  /** Binding the same log a second time rewrites nothing. */
  lemma UpdateIdempotent(data: Doc, pathStr: string, sessionId: Option<string>)
    requires UpdateDescriptor(Object(data), pathStr, sessionId).Updated?
    ensures var d := UpdateDescriptor(Object(data), pathStr, sessionId).doc;
      UpdateDescriptor(Object(d), pathStr, sessionId) == Updated(d, false)
  {
    var d := UpdateDescriptor(Object(data), pathStr, sessionId).doc;
    UpdateBindsLog(data, pathStr, sessionId);
    UpdateKeepsOthers(data, pathStr, sessionId);
    assert !Differs(d, PATH_KEY, pathStr);
  }

  /** `_extract_session_id(log_path)` for a log with the given first line and its JSON
      reading. */
  function LookupSessionId(log: Path, firstLine: Option<string>, header: Header): Lookup
  {
    ExtractSessionId(LogFacts(BaseName(log), firstLine, header))
  }

  /** The result of `_remember_codex_session` besides its effect on the reader and on
      `session_info`: what it wrote to the descriptor (nothing when it returned early or
      found nothing to change) and whether it raised. */
  datatype Remembered = Remembered(written: Option<Doc>, raised: bool)

  /** What binding a log leaves behind besides the reader's preferred log:
      `session_info` and the result. */
  datatype Bound = Bound(info: Doc, result: Remembered)

  /** Which log `_remember_codex_session` binds (none when neither the argument nor
      `current_log_path()` gives one), and the reader's preferred log afterwards. */
  function SettleLog(preferred: Option<Path>, logPath: Option<Path>, fs: Fs): (r: Resolution)
  {
    if Normalize(logPath).Some? then Resolution(Normalize(logPath), Normalize(logPath))
    else
      var resolved := ResolveLog(preferred, fs);
      if resolved.log.None? then resolved else Resolution(resolved.log, Normalize(resolved.log))
  }

  /** The descriptor part of `_remember_codex_session` once `log` is bound: `project`
      is the descriptor file and `lookup` what `_extract_session_id` finds for the log.
      When the descriptor loads and nothing raises, it is rewritten if anything changed
      and the binding is recorded in `session_info`. */
  function BindSpec(info: Doc, log: Path, lookup: Lookup, project: ProjectFile): Bound
  {
    if !project.Parsed? then Bound(info, Remembered(None, false))
    else if lookup.Raises? then Bound(info, Remembered(None, true))
    else
      var sid := if lookup.Found? then Some(lookup.id) else None;
      match UpdateDescriptor(project.loaded, log, sid)
      case Raised => Bound(info, Remembered(None, true))
      case Updated(doc, updated) => Bound(RememberInfo(info, log, sid), Remembered(if updated then Some(doc) else None, false))
  }

  class CodexCommunicator {
    /** `session_info`: the descriptor as loaded when the communicator started. */
    var sessionInfo: Doc
    /** `log_reader` */
    const reader: CodexLogReader

    constructor (info: Doc, logPath: Option<Path>)
      ensures sessionInfo == info && fresh(reader) && reader.preferredLog == Normalize(logPath)
    {
      sessionInfo := info;
      reader := new CodexLogReader(logPath);
    }

    /** `_remember_codex_session`: `firstLine` and `header` are what the bound log
        offers the session id lookup. A failed write of the temporary file is only
        reported, so `written` is what was attempted. */
    method RememberCodexSession(logPath: Option<Path>, fs: Fs, firstLine: Option<string>, header: Header, project: ProjectFile)
      returns (r: Remembered)
      modifies this, reader
      ensures var s := SettleLog(old(reader.preferredLog), logPath, fs);
        && reader.preferredLog == s.preferred
        && Bound(sessionInfo, r) ==
             if s.log.None? then Bound(old(sessionInfo), Remembered(None, false))
             else BindSpec(old(sessionInfo), s.log.value, LookupSessionId(s.log.value, firstLine, header), project)
    {
      var log := Normalize(logPath);
      if log.None? {
        log := reader.LatestLog(fs);
        if log.None? {
          return Remembered(None, false);
        }
      }
      reader.SetPreferredLog(log);
      r := RecordBinding(log.value, firstLine, header, project);
    }

    /** The part of `_remember_codex_session` after `set_preferred_log`. */
    method RecordBinding(pathStr: Path, firstLine: Option<string>, header: Header, project: ProjectFile)
      returns (r: Remembered)
      modifies this
      ensures Bound(sessionInfo, r) == BindSpec(old(sessionInfo), pathStr, LookupSessionId(pathStr, firstLine, header), project)
    {
      if !project.Parsed? {
        return Remembered(None, false);
      }
      var lookup := LookupSessionId(pathStr, firstLine, header);
      if lookup.Raises? {
        return Remembered(None, true);
      }
      var sessionId := if lookup.Found? then Some(lookup.id) else None;
      var u := UpdateDescriptor(project.loaded, pathStr, sessionId);
      if u.Raised? {
        return Remembered(None, true);
      }
      r := Remembered(if u.updated then Some(u.doc) else None, false);
      sessionInfo := sessionInfo[PATH_KEY := Str(pathStr)];
      if sessionId.Some? && sessionId.value != [] {
        sessionInfo := sessionInfo[ID_KEY := Str(sessionId.value)];
        sessionInfo := sessionInfo[CMD_KEY := Str(RESUME_PREFIX + sessionId.value)];
      }
    }
  }

  /** `session_info` after a successful bind. */
  function RememberInfo(info: Doc, pathStr: string, sessionId: Option<string>): (r: Doc)
  {
    var i := info[PATH_KEY := Str(pathStr)];
    match ResumeCommand(sessionId)
    case None => i
    case Some(cmd) => i[ID_KEY := Str(sessionId.value)][CMD_KEY := Str(cmd)]
  }

  /** In-memory and on-disk descriptors agree on the binding after a successful
      update: both name the log, and both carry the id and resume command when one is
      known. */
  lemma InfoAgreesWithDescriptor(info: Doc, data: Doc, pathStr: string, sessionId: Option<string>)
    requires UpdateDescriptor(Object(data), pathStr, sessionId).Updated?
    ensures var d := UpdateDescriptor(Object(data), pathStr, sessionId).doc;
      var i := RememberInfo(info, pathStr, sessionId);
      && i[PATH_KEY] == d[PATH_KEY]
      && (ResumeCommand(sessionId).Some? ==> i[ID_KEY] == d[ID_KEY] && i[CMD_KEY] == d[CMD_KEY])
  {
    UpdateBindsLog(data, pathStr, sessionId);
  }

  // ---------------------------------------------------------------------------
  // `_check_session_health_impl`

  /** A pid file: missing, unreadable or not an integer (with the error's text), or
      the pid it holds. */
  datatype PidFile = NoPidFile | Garbled(error: string) | Pid(pid: int)

  /** What the health check finds: `pane_id` (None or "" when unset), whether a backend
      object exists, and the outcomes of the probes it may run (`alive` stands for
      `os.kill(pid, 0)` succeeding, `paneAlive` for the backend's `is_alive(pane_id)`).
      The backend comes from `get_backend_for_session` (`Terminal.BackendForSession`),
      which always yields one, so the program only meets `backendPresent == true`; the
      flag keeps the check's own `not self.backend` guard. */
  datatype HealthFacts = HealthFacts(
    runtimeDirExists: bool,
    terminal: string,
    paneId: Option<string>,
    backendPresent: bool,
    paneAlive: bool,
    codexPid: PidFile,
    bridgePid: PidFile,
    alive: int -> bool,
    fifoExists: bool)

  datatype Health = Health(healthy: bool, status: string)

  predicate IsPaneTerminal(terminal: string)
  {
    terminal == "wezterm" || terminal == "iterm2"
  }

  predicate HasPane(f: HealthFacts)
  {
    f.paneId.Some? && f.paneId.value != []
  }

  /** `_check_session_health_impl(probe_terminal)` */
  function CheckHealth(f: HealthFacts, probe: bool): (r: Health)
  {
    if !f.runtimeDirExists then Health(false, "Runtime directory does not exist")
    else if IsPaneTerminal(f.terminal) then
      if !HasPane(f) then Health(false, f.terminal + " pane_id not found")
      else if probe && (!f.backendPresent || !f.paneAlive) then
        Health(false, f.terminal + " pane does not exist: " + f.paneId.value)
      else Health(true, "Session healthy")
    else match f.codexPid
      case NoPidFile => Health(false, "Codex process PID file not found")
      case Garbled(error) => Health(false, "Health check failed: " + error)
      case Pid(codex) =>
        if !f.alive(codex) then Health(false, "Codex process (PID:" + IntToString(codex) + ") has exited")
        else match f.bridgePid
          case NoPidFile => Health(false, "Bridge process PID file not found")
          case Garbled(_) => Health(false, "Failed to read bridge process PID")
          case Pid(bridge) =>
            if !f.alive(bridge) then Health(false, "Bridge process (PID:" + IntToString(bridge) + ") has exited")
            else if !f.fifoExists then Health(false, "Communication pipe does not exist")
            else Health(true, "Session healthy")
  }

  /** A session is healthy exactly when every check of its mode passes: the pane
      modes need a pane id (and, when probing, a live pane through a backend); tmux
      mode needs both pids readable and alive and the input FIFO present. */
  lemma HealthyIff(f: HealthFacts, probe: bool)
    ensures CheckHealth(f, probe).healthy <==>
      f.runtimeDirExists &&
      if IsPaneTerminal(f.terminal) then HasPane(f) && (probe ==> f.backendPresent && f.paneAlive)
      else f.codexPid.Pid? && f.alive(f.codexPid.pid) && f.bridgePid.Pid? && f.alive(f.bridgePid.pid) && f.fifoExists
  {
  }

  /** Skipping the terminal probe (as `ask_async` does) can only make a session look
      healthier, and changes nothing in tmux mode. */
  lemma ProbeOnlyRejects(f: HealthFacts)
    ensures CheckHealth(f, true).healthy ==> CheckHealth(f, false).healthy
    ensures !IsPaneTerminal(f.terminal) ==> CheckHealth(f, true) == CheckHealth(f, false)
  {
  }
}
