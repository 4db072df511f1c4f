/** The terminal backends that deliver text to the AI panes (tmux, WezTerm, iTerm2):
    how each sanitises the text and which commands it issues, the WezTerm and iTerm2
    argument lists, the choice of backend and pane id from a session descriptor,
    terminal detection and the process-wide backend cache.

    Every `subprocess.run` is a `Command` appended to the log of a `Shell`, whose
    `ok` says whether a command exits with status 0 and `stdout` what it prints. */
module Terminal {
  import opened Common

  datatype Backend = Tmux | Wezterm | Iterm2

  /** One `subprocess.run`: the argument list and the text written to its stdin. */
  datatype Command = Command(args: seq<string>, input: Option<string>)

  /** The commands a call issued, in order, and whether it raised
      `CalledProcessError` (a `check=True` command that failed). */
  datatype Sent = Sent(commands: seq<Command>, raised: bool)

  // ---------------------------------------------------------------------------
  // Choosing the backend and the pane from a session descriptor

  /** The fields of a session descriptor the dispatch reads (None when absent). */
  datatype SessionData = SessionData(terminal: Option<string>, paneId: Option<string>, tmuxSession: Option<string>)

  /** `session_data.get("terminal", "tmux")` */
  function TerminalOf(sd: SessionData): string
  {
    if sd.terminal.Some? then sd.terminal.value else "tmux"
  }

  /** `get_backend_for_session` */
  function BackendForSession(sd: SessionData): Backend
  {
    var t := TerminalOf(sd);
    if t == "wezterm" then Wezterm else if t == "iterm2" then Iterm2 else Tmux
  }

  /** `get_pane_id_from_session` */
  function PaneIdFromSession(sd: SessionData): Option<string>
  {
    var t := TerminalOf(sd);
    if t == "wezterm" then sd.paneId else if t == "iterm2" then sd.paneId else sd.tmuxSession
  }

  /** "wezterm" and "iterm2" select their backends and every other tag (or none)
      selects tmux; the pane id is read from `tmux_session` exactly for tmux and from
      `pane_id` otherwise. */
  lemma SessionDispatch(sd: SessionData)
    ensures BackendForSession(sd) == Wezterm <==> sd.terminal == Some("wezterm")
    ensures BackendForSession(sd) == Iterm2 <==> sd.terminal == Some("iterm2")
    ensures sd.terminal.None? ==> BackendForSession(sd) == Tmux
    ensures PaneIdFromSession(sd) == if BackendForSession(sd) == Tmux then sd.tmuxSession else sd.paneId
  {
  }

  // ---------------------------------------------------------------------------
  // Sanitising the text

  /** `text.replace("\r", "").strip()` (tmux and iTerm2) */
  function Sanitize(text: string): string
  {
    Strip(Remove(text, '\r'))
  }

  /** `text.replace("\r", "").replace("\n", "").strip()` (WezTerm) */
  function SanitizeLine(text: string): string
  {
    Strip(Remove(Remove(text, '\r'), '\n'))
  }

  /** Stripping never brings in a character. */
  lemma StripKeepsOut(s: string, c: char)
    requires c !in s
    ensures c !in Strip(s)
  {
    StripIsInfix(s);
  }

  /** No carriage return survives sanitising, WezTerm's text holds no line feed
      either, and the result is stripped; it is empty exactly when the text without
      carriage returns is all whitespace. */
  lemma SanitizeRemoves(text: string)
    ensures '\r' !in Sanitize(text) && Strip(Sanitize(text)) == Sanitize(text)
    ensures Sanitize(text) == [] <==> AllSpace(Remove(text, '\r'))
    ensures '\r' !in SanitizeLine(text) && '\n' !in SanitizeLine(text)
  {
    StripKeepsOut(Remove(text, '\r'), '\r');
    StripIdempotent(Remove(text, '\r'));
    StripEmptyIff(Remove(text, '\r'));
    var once := Remove(text, '\r');
    var twice := Remove(once, '\n');
    assert '\r' !in twice by {
      RemoveKeepsOthers(once, '\n');
      assert multiset(twice)['\r'] == multiset(once)['\r'];
    }
    StripKeepsOut(twice, '\r');
    StripKeepsOut(twice, '\n');
  }

  // ---------------------------------------------------------------------------
  // `TmuxBackend.send_text`

  /** The longest text sent with `send-keys -l` instead of through a paste buffer. */
  const FAST_LIMIT := 200

  predicate FastPath(s: string)
  {
    '\n' !in s && |s| <= FAST_LIMIT
  }

  function SendKeysLiteral(session: string, s: string): Command
  {
    Command(["tmux", "send-keys", "-t", session, "-l", s], None)
  }

  function SendEnter(session: string): Command
  {
    Command(["tmux", "send-keys", "-t", session, "Enter"], None)
  }

  function LoadBuffer(buffer: string, s: string): Command
  {
    Command(["tmux", "load-buffer", "-b", buffer, "-"], Some(s))
  }

  function PasteBuffer(session: string, buffer: string): Command
  {
    Command(["tmux", "paste-buffer", "-t", session, "-b", buffer, "-p"], None)
  }

  function DeleteBuffer(buffer: string): Command
  {
    Command(["tmux", "delete-buffer", "-b", buffer], None)
  }

  /** `TmuxBackend.send_text(session, text)`; `buffer` is the `tb-<pid>-<ms>` name. The
      paste buffer is deleted in a `finally`, so once it was loaded it is deleted
      whether or not the paste and the Enter succeed; the deletion itself is not
      checked. */
  function TmuxSend(session: string, text: string, buffer: string, ok: Command -> bool): Sent
  {
    TmuxSendClean(session, Sanitize(text), buffer, ok)
  }

  /** What `TmuxBackend.send_text` issues for the sanitised text `s`. */
  function TmuxSendClean(session: string, s: string, buffer: string, ok: Command -> bool): Sent
  {
    if s == [] then Sent([], false)
    else if FastPath(s) then
      if !ok(SendKeysLiteral(session, s)) then Sent([SendKeysLiteral(session, s)], true)
      else Sent([SendKeysLiteral(session, s), SendEnter(session)], !ok(SendEnter(session)))
    else if !ok(LoadBuffer(buffer, s)) then Sent([LoadBuffer(buffer, s)], true)
    else
      var pasted := ok(PasteBuffer(session, buffer));
      var body := if pasted then [PasteBuffer(session, buffer), SendEnter(session)] else [PasteBuffer(session, buffer)];
      Sent([LoadBuffer(buffer, s)] + body + [DeleteBuffer(buffer)], !pasted || !ok(SendEnter(session)))
  }

  /** A command `send_text` checks: every one but the buffer deletion. */
  predicate Checked(c: Command)
  {
    |c.args| >= 2 && c.args[1] != "delete-buffer"
  }

  /** For the sanitised text `s`: blank text issues nothing; short single-line text
      goes through `send-keys -l` and Enter only; other text is loaded into a buffer,
      and once that succeeded the buffer is deleted last. */
  lemma TmuxSendShape(session: string, s: string, buffer: string, ok: Command -> bool)
    ensures var e := TmuxSendClean(session, s, buffer, ok);
      && (s == [] <==> e.commands == [])
      && (s != [] && FastPath(s) ==>
           && e.commands[0] == SendKeysLiteral(session, s)
           && (forall k :: 0 <= k < |e.commands| ==> e.commands[k].args[1] == "send-keys")
           && (!e.raised ==> e.commands == [SendKeysLiteral(session, s), SendEnter(session)]))
      && (s != [] && !FastPath(s) ==>
           && e.commands[0] == LoadBuffer(buffer, s)
           && (ok(LoadBuffer(buffer, s)) ==> e.commands[|e.commands| - 1] == DeleteBuffer(buffer))
           && (!e.raised ==> e.commands == [LoadBuffer(buffer, s), PasteBuffer(session, buffer), SendEnter(session), DeleteBuffer(buffer)]))
  {
  }

  /** `send_text` raises exactly when a checked command failed, and nothing checked
      is issued after a failure. */
  lemma TmuxSendRaises(session: string, s: string, buffer: string, ok: Command -> bool)
    ensures var e := TmuxSendClean(session, s, buffer, ok);
      && (e.raised <==> exists k :: 0 <= k < |e.commands| && Checked(e.commands[k]) && !ok(e.commands[k]))
      && (forall k, m :: 0 <= k < m < |e.commands| && Checked(e.commands[m]) ==> ok(e.commands[k]) || !Checked(e.commands[k]))
  {
    var e := TmuxSendClean(session, s, buffer, ok);
    if s != [] && !FastPath(s) && ok(LoadBuffer(buffer, s)) {
      assert Checked(e.commands[0]) && Checked(e.commands[1]);
      assert !Checked(e.commands[|e.commands| - 1]);
      if ok(PasteBuffer(session, buffer)) {
        assert Checked(e.commands[2]);
      }
    } else if s != [] {
      assert Checked(e.commands[0]);
      if |e.commands| == 2 {
        assert Checked(e.commands[1]);
      }
    }
  }

  // ---------------------------------------------------------------------------
  // `Iterm2Backend.send_text`

  function ItermSendCmd(bin: string, sessionId: string, text: string): Command
  {
    Command([bin, "session", "send", text, "--session", sessionId], None)
  }

  /** `Iterm2Backend.send_text(session_id, text)`: the text, then a separate "\r". */
  function Iterm2Send(bin: string, sessionId: string, text: string, ok: Command -> bool): Sent
  {
    var s := Sanitize(text);
    if s == [] then Sent([], false)
    else if !ok(ItermSendCmd(bin, sessionId, s)) then Sent([ItermSendCmd(bin, sessionId, s)], true)
    else Sent([ItermSendCmd(bin, sessionId, s), ItermSendCmd(bin, sessionId, "\r")], !ok(ItermSendCmd(bin, sessionId, "\r")))
  }

  /** Non-blank text is sent first, and "\r" follows as a second send to the same
      session only when the first succeeded; the call raises exactly when one of them
      failed. */
  lemma Iterm2SendShape(bin: string, sessionId: string, text: string, ok: Command -> bool)
    ensures var s := Sanitize(text); var e := Iterm2Send(bin, sessionId, text, ok);
      && (s == [] <==> e.commands == [])
      && (s != [] ==>
           && e.commands[0] == ItermSendCmd(bin, sessionId, s)
           && (|e.commands| == 2 <==> ok(e.commands[0]))
           && (|e.commands| == 2 ==> e.commands[1] == ItermSendCmd(bin, sessionId, "\r"))
           && (e.raised <==> exists k :: 0 <= k < |e.commands| && !ok(e.commands[k])))
  {
    var s := Sanitize(text);
    var e := Iterm2Send(bin, sessionId, text, ok);
    if s != [] && ok(ItermSendCmd(bin, sessionId, s)) && !ok(ItermSendCmd(bin, sessionId, "\r")) {
      assert !ok(e.commands[1]);
    }
  }

  // ---------------------------------------------------------------------------
  // `WeztermBackend._cli_base_args`

  /** The environment `_cli_base_args` reads: `CODEX_WEZTERM_CLASS`, `WEZTERM_CLASS`,
      `CODEX_WEZTERM_PREFER_MUX`, `CODEX_WEZTERM_NO_AUTO_START`. */
  datatype WeztermEnv = WeztermEnv(codexClass: Option<string>, weztermClass: Option<string>, preferMux: Option<string>, noAutoStart: Option<string>)

  /** `os.environ.get(a) or os.environ.get(b)` */
  function EnvOr(a: Option<string>, b: Option<string>): Option<string>
  {
    if a.Some? && a.value != [] then a else b
  }

  /** `value.lower() in {"1", "true", "yes", "on"}` for a variable (unset reads as ""). */
  predicate Enabled(v: Option<string>)
  {
    v.Some? && AsciiLower(v.value) in {"1", "true", "yes", "on"}
  }

  /** The WezTerm class to pass, None when unset or empty. */
  function WeztermClass(env: WeztermEnv): Option<string>
  {
    var c := EnvOr(env.codexClass, env.weztermClass);
    if c.Some? && c.value != [] then c else None
  }

  /** `_cli_base_args()` with the binary `bin`. */
  function CliBaseArgs(bin: string, env: WeztermEnv): seq<string>
  {
    var cls := WeztermClass(env);
    [bin, "cli"]
    + (if cls.Some? then ["--class", cls.value] else [])
    + (if Enabled(env.preferMux) then ["--prefer-mux"] else [])
    + (if Enabled(env.noAutoStart) then ["--no-auto-start"] else [])
  }

  /** The arguments always start with `[bin, "cli"]`; `--class` follows with the
      class exactly when one is set (`CODEX_WEZTERM_CLASS` first); each switch is
      present exactly when its variable is enabled, unless the class itself is
      spelled like the switch. */
  lemma CliBaseArgsFlags(bin: string, env: WeztermEnv)
    ensures var args := CliBaseArgs(bin, env);
      && args[..2] == [bin, "cli"]
      && (WeztermClass(env).Some? <==> |args| >= 4 && args[2] == "--class")
      && (WeztermClass(env).Some? ==> args[3] == WeztermClass(env).value && WeztermClass(env).value != [])
      && (env.codexClass.Some? && env.codexClass.value != [] ==> WeztermClass(env) == env.codexClass)
      && ("--prefer-mux" in args[2..] <==> Enabled(env.preferMux) || WeztermClass(env) == Some("--prefer-mux"))
      && ("--no-auto-start" in args[2..] <==> Enabled(env.noAutoStart) || WeztermClass(env) == Some("--no-auto-start"))
  {
    var args := CliBaseArgs(bin, env);
    var cls := WeztermClass(env);
    var c := if cls.Some? then ["--class", cls.value] else [];
    var m := if Enabled(env.preferMux) then ["--prefer-mux"] else [];
    var n := if Enabled(env.noAutoStart) then ["--no-auto-start"] else [];
    assert args[2..] == c + m + n;
    assert "--prefer-mux" in c + m + n <==> "--prefer-mux" in c || "--prefer-mux" in m || "--prefer-mux" in n;
    assert "--no-auto-start" in c + m + n <==> "--no-auto-start" in c || "--no-auto-start" in m || "--no-auto-start" in n;
  }

  // ---------------------------------------------------------------------------
  // `WeztermBackend.send_text`

  /** The Enter keystrokes tried in turn on Unix. */
  const ENTER_VARIANTS: seq<string> := ["\r", "\n", "\r\n"]

  /** `[*base, "send-text", "--pane-id", pane, "--no-paste", *tail]` with `input`. */
  function SendTextCmd(base: seq<string>, pane: string, tail: seq<string>, input: Option<string>): Command
  {
    Command(base + ["send-text", "--pane-id", pane, "--no-paste"] + tail, input)
  }

  /** The Enter loop from variant `k`: stop at the first variant that succeeds,
      otherwise fall back to writing "\r" on stdin, unchecked. */
  function EnterAttempts(base: seq<string>, pane: string, ok: Command -> bool, k: nat): seq<Command>
    decreases |ENTER_VARIANTS| - k
  {
    if k >= |ENTER_VARIANTS| then [SendTextCmd(base, pane, [], Some("\r"))]
    else
      var c := SendTextCmd(base, pane, [ENTER_VARIANTS[k]], None);
      if ok(c) then [c] else [c] + EnterAttempts(base, pane, ok, k + 1)
  }

  /** `WeztermBackend.send_text(pane_id, text)`; `windows` is `is_windows()`. */
  function WeztermSend(base: seq<string>, pane: string, text: string, windows: bool, ok: Command -> bool): Sent
  {
    WeztermSendLine(base, pane, SanitizeLine(text), windows, ok)
  }

  /** What `WeztermBackend.send_text` issues for the sanitised text `s`. */
  function WeztermSendLine(base: seq<string>, pane: string, s: string, windows: bool, ok: Command -> bool): Sent
  {
    if s == [] then Sent([], false)
    else
      var first := SendTextCmd(base, pane, [s], None);
      if !ok(first) then Sent([first], true)
      else Sent([first] + EnterKeystroke(base, pane, windows, ok), false)
  }

  /** The Enter that follows the text: on Windows "\r" written on stdin, elsewhere
      the loop over the variants. */
  function EnterKeystroke(base: seq<string>, pane: string, windows: bool, ok: Command -> bool): seq<Command>
  {
    if windows then [SendTextCmd(base, pane, [], Some("\r"))] else EnterAttempts(base, pane, ok, 0)
  }

  /** From variant `k` on, the loop tries the variants in order up to and including
      the first that succeeds; when none does it tries them all and then writes "\r"
      on stdin. */
  lemma {:induction false} EnterAttemptsStop(base: seq<string>, pane: string, ok: Command -> bool, k: nat)
    requires k <= |ENTER_VARIANTS|
    ensures var a := EnterAttempts(base, pane, ok, k);
      && 1 <= |a| <= |ENTER_VARIANTS| - k + 1
      && (forall i :: 0 <= i < |a| - 1 ==> a[i] == SendTextCmd(base, pane, [ENTER_VARIANTS[k + i]], None) && !ok(a[i]))
      && (|a| <= |ENTER_VARIANTS| - k ==> a[|a| - 1] == SendTextCmd(base, pane, [ENTER_VARIANTS[k + |a| - 1]], None) && ok(a[|a| - 1]))
      && (|a| == |ENTER_VARIANTS| - k + 1 ==> a[|a| - 1] == SendTextCmd(base, pane, [], Some("\r")))
    decreases |ENTER_VARIANTS| - k
  {
    if k < |ENTER_VARIANTS| {
      var c := SendTextCmd(base, pane, [ENTER_VARIANTS[k]], None);
      if !ok(c) {
        EnterAttemptsStop(base, pane, ok, k + 1);
        var rest := EnterAttempts(base, pane, ok, k + 1);
        assert EnterAttempts(base, pane, ok, k) == [c] + rest;
        assert forall i :: 1 <= i < |rest| + 1 ==> ([c] + rest)[i] == rest[i - 1];
      }
    }
  }

  /** WezTerm sends non-blank text as one `send-text` whose text has no line break,
      and raises only when that send fails: after it, Unix tries the Enter variants up
      to the first that succeeds (then the stdin fallback), and Windows writes "\r"
      on stdin straight away. */
  lemma WeztermSendShape(base: seq<string>, pane: string, text: string, windows: bool, ok: Command -> bool)
    ensures var s := SanitizeLine(text); var e := WeztermSend(base, pane, text, windows, ok);
      && (s == [] <==> e.commands == [])
      && (s != [] ==>
           && e.commands[0] == SendTextCmd(base, pane, [s], None)
           && '\r' !in s && '\n' !in s
           && (e.raised <==> !ok(e.commands[0]))
           && (ok(e.commands[0]) && !windows ==> e.commands[1..] == EnterAttempts(base, pane, ok, 0))
           && (ok(e.commands[0]) && windows ==> e.commands[1..] == [SendTextCmd(base, pane, [], Some("\r"))]))
  {
    SanitizeRemoves(text);
    EnterAttemptsStop(base, pane, ok, 0);
  }

  // ---------------------------------------------------------------------------
  // `shlex.quote`

  /** A character `shlex.quote` leaves unquoted: ASCII `\w` or one of `@%+=:,./-`. */
  predicate ShellSafe(c: char)
  {
    ('a' <= c <= 'z') || ('A' <= c <= 'Z') || ('0' <= c <= '9') || c == '_'
    || c == '@' || c == '%' || c == '+' || c == '=' || c == ':' || c == ',' || c == '.' || c == '/' || c == '-'
  }

  /** `s.replace("'", "'\"'\"'")` */
  function EscapeQuotes(s: string): string
  {
    if s == [] then []
    else (if s[0] == '\'' then "'\"'\"'" else [s[0]]) + EscapeQuotes(s[1..])
  }

  /** `shlex.quote(s)` */
  function Quote(s: string): (r: string)
    ensures r != []
    ensures (forall i :: 0 <= i < |s| ==> ShellSafe(s[i])) && s != [] ==> r == s
  {
    if s == [] then "''"
    else if forall i :: 0 <= i < |s| ==> ShellSafe(s[i]) then s
    else "'" + EscapeQuotes(s) + "'"
  }

  // ---------------------------------------------------------------------------
  // `Iterm2Backend.create_pane`

  /** The `it2 session split` arguments. */
  function ItermSplitArgs(bin: string, direction: string, parent: Option<string>): seq<string>
  {
    [bin, "session", "split"]
    + (if direction == "right" then ["--vertical"] else [])
    + (if parent.Some? && parent.value != [] then ["--session", parent.value] else [])
  }

  /** `--vertical` is passed exactly for a split to the right, and `--session parent`
      closes the arguments exactly when a parent is given. */
  lemma ItermSplitFlags(bin: string, direction: string, parent: Option<string>)
    ensures var args := ItermSplitArgs(bin, direction, parent);
      var hasParent := parent.Some? && parent.value != [];
      && args[..3] == [bin, "session", "split"]
      && ("--vertical" in args[3..] <==> direction == "right" || (hasParent && parent.value == "--vertical"))
      && (hasParent ==> args[|args| - 2..] == ["--session", parent.value])
      && (!hasParent ==> "--session" !in args[3..])
  {
    var args := ItermSplitArgs(bin, direction, parent);
    var v := if direction == "right" then ["--vertical"] else [];
    var p := if parent.Some? && parent.value != [] then ["--session", parent.value] else [];
    assert args[3..] == v + p;
    assert "--vertical" in v + p <==> "--vertical" in v || "--vertical" in p;
  }

  /** The new session id from `it2`'s output: after the last ':' and stripped, or the
      whole (stripped) output when it has no ':'. */
  function ParsePaneId(stdout: string): (id: string)
    ensures ':' !in id || ':' !in Strip(stdout)
    ensures ':' !in Strip(stdout) ==> id == Strip(stdout)
  {
    var output := Strip(stdout);
    if ':' in output then Strip(AfterLast(output, ':')) else output
  }

  /** "Created new pane: <id>" yields `<id>` stripped, whatever precedes the last ':'
      and whatever whitespace surrounds the output. */
  lemma ParsePaneIdAfterColon(prefix: string, id: string)
    requires ':' !in id
    ensures ParsePaneId(prefix + ":" + id) == Strip(id)
  {
    assert prefix + ":" + id == prefix + [':'] + id;
    var pre, m := StripAroundNonSpace(prefix, ':', id);
    assert ':' !in id[..m] by {
      assert forall n :: 0 <= n < m ==> id[..m][n] == id[n];
    }
    AfterLastSplit(pre, ':', id[..m]);
    StripTrailing(id, m);
  }

  /** What `create_pane` leaves: the commands, whether it raised, and the id it returns. */
  datatype Created = Created(commands: seq<Command>, raised: bool, paneId: string)

  /** What `create_pane` runs in the new session `id` once the split succeeded: `cd`
      to `cwd` and run `cmd`, then "\r" — nothing when the id or the command is empty. */
  function ItermStartup(bin: string, id: string, cmd: string, cwd: string, ok: Command -> bool): Sent
  {
    if id != [] && cmd != [] then
      var run := ItermSendCmd(bin, id, "cd " + Quote(cwd) + " && " + cmd);
      if !ok(run) then Sent([run], true)
      else Sent([run, ItermSendCmd(bin, id, "\r")], !ok(ItermSendCmd(bin, id, "\r")))
    else Sent([], false)
  }

  /** `Iterm2Backend.create_pane(cmd, cwd, direction, percent, parent_pane)`: split,
      then start the command in the session the split reported. */
  function ItermCreate(bin: string, cmd: string, cwd: string, direction: string, parent: Option<string>, ok: Command -> bool, stdout: Command -> string): (c: Created)
    ensures c.commands != [] && c.commands[0] == Command(ItermSplitArgs(bin, direction, parent), None)
  {
    var split := Command(ItermSplitArgs(bin, direction, parent), None);
    if !ok(split) then Created([split], true, "")
    else
      var id := ParsePaneId(stdout(split));
      var startup := ItermStartup(bin, id, cmd, cwd, ok);
      Created([split] + startup.commands, startup.raised, id)
  }

  /** The startup commands all go to the new session, and there are some only when
      its id and the command are non-empty; the "\r" follows only a successful run. */
  lemma ItermStartupTargets(bin: string, id: string, cmd: string, cwd: string, ok: Command -> bool)
    ensures var s := ItermStartup(bin, id, cmd, cwd, ok);
      && (s.commands != [] <==> id != [] && cmd != [])
      && |s.commands| <= 2
      && (forall k :: 0 <= k < |s.commands| ==> |s.commands[k].args| == 6 && s.commands[k].args[4..] == ["--session", id])
      && (|s.commands| == 2 <==> s.commands != [] && ok(s.commands[0]))
      && (s.raised <==> exists k :: 0 <= k < |s.commands| && !ok(s.commands[k]))
  {
    if id != [] && cmd != [] {
      var run := ItermSendCmd(bin, id, "cd " + Quote(cwd) + " && " + cmd);
      var enter := ItermSendCmd(bin, id, "\r");
      assert run.args[4..] == ["--session", id];
      assert enter.args[4..] == ["--session", id];
      var s := ItermStartup(bin, id, cmd, cwd, ok);
      if !ok(run) {
        assert s.commands[0] == run;
      } else if !ok(enter) {
        assert s.commands[1] == enter;
      }
    }
  }

  /** The split comes first; everything after it targets the session id it reported,
      which is what `create_pane` returns, and nothing follows a failed split. */
  lemma ItermCreateTargetsNewPane(bin: string, cmd: string, cwd: string, direction: string, parent: Option<string>, ok: Command -> bool, stdout: Command -> string)
    ensures var c := ItermCreate(bin, cmd, cwd, direction, parent, ok, stdout);
      && c.commands[0] == Command(ItermSplitArgs(bin, direction, parent), None)
      && (|c.commands| > 1 <==> ok(c.commands[0]) && c.paneId != [] && cmd != [])
      && (ok(c.commands[0]) ==> c.paneId == ParsePaneId(stdout(c.commands[0])))
      && (forall k :: 1 <= k < |c.commands| ==> |c.commands[k].args| == 6 && c.commands[k].args[4..] == ["--session", c.paneId])
  {
    var split := Command(ItermSplitArgs(bin, direction, parent), None);
    if ok(split) {
      var id := ParsePaneId(stdout(split));
      ItermStartupTargets(bin, id, cmd, cwd, ok);
    }
  }

  // ---------------------------------------------------------------------------
  // `WeztermBackend.create_pane`

  /** How the new pane starts its command: natively through `shell flag cmd`, or (for
      a Windows WezTerm driven from WSL) through `bash -l -i -c` inside WSL, where
      `wslCwd` is the working directory translated for WSL. */
  datatype Launch = Native(shell: string, flag: string) | Wsl(wslCwd: string, inWslPane: bool)

  /** The placement flags both launches share. */
  function PlacementArgs(direction: string, percent: int, parent: Option<string>): seq<string>
  {
    (if direction == "right" then ["--right"] else if direction == "bottom" then ["--bottom"] else [])
    + ["--percent", IntToString(percent)]
    + (if parent.Some? && parent.value != [] then ["--pane-id", parent.value] else [])
  }

  /** The script a WSL launch runs: `cd <quoted dir> && exec <cmd>`. */
  function StartupScript(wslCwd: string, cmd: string): string
  {
    "cd " + Quote(wslCwd) + " && exec " + cmd
  }

  /** The arguments of `wezterm cli split-pane`. */
  function SplitPaneArgs(base: seq<string>, launch: Launch, cmd: string, cwd: string, direction: string, percent: int, parent: Option<string>): seq<string>
  {
    match launch
    case Native(shell, flag) =>
      base + ["split-pane"] + ["--cwd", cwd] + PlacementArgs(direction, percent, parent) + ["--", shell, flag, cmd]
    case Wsl(wslCwd, inWslPane) =>
      base + ["split-pane"] + PlacementArgs(direction, percent, parent)
      + ["--"] + (if inWslPane then [] else ["wsl.exe"]) + ["bash", "-l", "-i", "-c", StartupScript(wslCwd, cmd)]
  }

  /** The arguments start with the CLI base and `split-pane`; the native launch passes
      the working directory with `--cwd` and ends with `-- shell flag cmd`; the WSL
      launch passes no `--cwd` and ends with the `cd ... && exec cmd` script, through
      `wsl.exe` unless already inside a WSL pane. The percentage is always passed. */
  lemma SplitPaneLayout(base: seq<string>, launch: Launch, cmd: string, cwd: string, direction: string, percent: int, parent: Option<string>)
    ensures var args := SplitPaneArgs(base, launch, cmd, cwd, direction, percent, parent);
      var place := PlacementArgs(direction, percent, parent);
      && args[..|base| + 1] == base + ["split-pane"]
      && (launch.Native? ==>
           && args[|base| + 1..|base| + 3] == ["--cwd", cwd]
           && args[|args| - 4..] == ["--", launch.shell, launch.flag, cmd])
      && (launch.Wsl? ==>
           && args[|base| + 1..|base| + 1 + |place|] == place
           && args[|args| - 5..] == ["bash", "-l", "-i", "-c", StartupScript(launch.wslCwd, cmd)]
           && (args[|args| - 6] == "--" <==> launch.inWslPane))
      && "--percent" in place && IntToString(percent) in place
  {
    var args := SplitPaneArgs(base, launch, cmd, cwd, direction, percent, parent);
    var place := PlacementArgs(direction, percent, parent);
    var d := if direction == "right" then ["--right"] else if direction == "bottom" then ["--bottom"] else [];
    assert place[|d|] == "--percent" && place[|d| + 1] == IntToString(percent);
  }

  /** `WeztermBackend.create_pane`: the new pane id is the stripped output of
      `split-pane`, and a failure is re-raised (as `RuntimeError`). */
  function WeztermCreate(base: seq<string>, launch: Launch, cmd: string, cwd: string, direction: string, percent: int, parent: Option<string>, ok: Command -> bool, stdout: Command -> string): Created
  {
    var split := Command(SplitPaneArgs(base, launch, cmd, cwd, direction, percent, parent), None);
    if ok(split) then Created([split], false, Strip(stdout(split))) else Created([split], true, "")
  }

  // ---------------------------------------------------------------------------
  // `detect_terminal` and `get_backend`

  /** What `detect_terminal` probes, in its order: the variables a running terminal
      sets (`WEZTERM_PANE`, `ITERM_SESSION_ID`, `TMUX`), whether a WezTerm binary is
      found, whether the `it2` override path exists, and whether `it2` and tmux are on
      the PATH. */
  datatype Probe = Probe(
    weztermPane: Option<string>, itermSession: Option<string>, tmux: Option<string>,
    weztermBinFound: bool, it2OverrideExists: bool, it2OnPath: bool, tmuxOnPath: bool)

  predicate Set(v: Option<string>)
  {
    v.Some? && v.value != []
  }

  /** `detect_terminal()` */
  function DetectTerminal(p: Probe): Option<Backend>
  {
    if Set(p.weztermPane) then Some(Wezterm)
    else if Set(p.itermSession) then Some(Iterm2)
    else if Set(p.tmux) then Some(Tmux)
    else if p.weztermBinFound then Some(Wezterm)
    else if p.it2OverrideExists then Some(Iterm2)
    else if p.it2OnPath then Some(Iterm2)
    else if p.tmuxOnPath then Some(Tmux)
    else None
  }

  /** The probes as (holds, backend) pairs in priority order. */
  function Signals(p: Probe): seq<(bool, Backend)>
  {
    [(Set(p.weztermPane), Wezterm), (Set(p.itermSession), Iterm2), (Set(p.tmux), Tmux),
     (p.weztermBinFound, Wezterm), (p.it2OverrideExists, Iterm2), (p.it2OnPath, Iterm2), (p.tmuxOnPath, Tmux)]
  }

  /** The backend of the first pair that holds. */
  function FirstHit(signals: seq<(bool, Backend)>): (r: Option<Backend>)
    ensures r.None? <==> forall i :: 0 <= i < |signals| ==> !signals[i].0
  {
    if signals == [] then None
    else if signals[0].0 then Some(signals[0].1)
    else FirstHit(signals[1..])
  }

  /** The first probe that holds decides: the variables of a running terminal win
      over any installed tool, and nothing is detected only when every probe fails. */
  lemma DetectTerminalPriority(p: Probe)
    ensures DetectTerminal(p) == FirstHit(Signals(p))
    ensures DetectTerminal(p).None? <==> forall i :: 0 <= i < |Signals(p)| ==> !Signals(p)[i].0
  {
    var s := Signals(p);
    assert FirstHit(s[6..]) == if p.tmuxOnPath then Some(Tmux) else None;
    assert FirstHit(s[5..]) == if p.it2OnPath then Some(Iterm2) else FirstHit(s[6..]);
    assert FirstHit(s[4..]) == if p.it2OverrideExists then Some(Iterm2) else FirstHit(s[5..]);
    assert FirstHit(s[3..]) == if p.weztermBinFound then Some(Wezterm) else FirstHit(s[4..]);
    assert FirstHit(s[2..]) == if Set(p.tmux) then Some(Tmux) else FirstHit(s[3..]);
    assert FirstHit(s[1..]) == if Set(p.itermSession) then Some(Iterm2) else FirstHit(s[2..]);
  }

  /** `get_backend` keys its choice by these names. */
  function BackendNamed(t: string): Option<Backend>
  {
    if t == "wezterm" then Some(Wezterm) else if t == "iterm2" then Some(Iterm2) else if t == "tmux" then Some(Tmux) else None
  }

  /** `terminal_type or detect_terminal()` mapped to a backend. */
  function ChooseBackend(terminalType: Option<string>, p: Probe): Option<Backend>
  {
    if terminalType.Some? && terminalType.value != [] then BackendNamed(terminalType.value) else DetectTerminal(p)
  }

  /** The backend `get_backend` returns given the cache: the cached one whenever there
      is one, whatever is asked. */
  function GetBackendSpec(cached: Option<Backend>, terminalType: Option<string>, p: Probe): Option<Backend>
  {
    if cached.Some? then cached else ChooseBackend(terminalType, p)
  }

  /** Once a backend is cached every later call returns it, whatever terminal type it
      asks for and whatever the probes find; an unknown type asked first caches
      nothing. */
  lemma BackendCacheSticky(cached: Option<Backend>, t1: Option<string>, p1: Probe, t2: Option<string>, p2: Probe)
    ensures var first := GetBackendSpec(cached, t1, p1);
      first.Some? ==> GetBackendSpec(first, t2, p2) == first
    ensures cached.None? && t1.Some? && t1.value != [] && t1.value !in {"wezterm", "iterm2", "tmux"} ==> GetBackendSpec(cached, t1, p1).None?
  {
  }

  /** The module-level `_backend_cache`. */
  class BackendCache {
    var cached: Option<Backend>

    constructor ()
      ensures cached.None?
    {
      cached := None;
    }

    /** `get_backend(terminal_type)` */
    method GetBackend(terminalType: Option<string>, p: Probe) returns (b: Option<Backend>)
      modifies this
      ensures b == GetBackendSpec(old(cached), terminalType, p) && cached == b
    {
      if cached.Some? {
        return cached;
      }
      var t: Option<Backend>;
      if terminalType.Some? && terminalType.value != [] {
        t := BackendNamed(terminalType.value);
      } else {
        t := DetectTerminal(p);
      }
      cached := t;
      return t;
    }
  }

  // ---------------------------------------------------------------------------
  // Argument lists built step by step

  /** `WeztermBackend._cli_base_args` */
  method BuildCliBaseArgs(bin: string, env: WeztermEnv) returns (args: seq<string>)
    ensures args == CliBaseArgs(bin, env)
  {
    args := [bin, "cli"];
    var cls := EnvOr(env.codexClass, env.weztermClass);
    if cls.Some? && cls.value != [] {
      args := args + ["--class", cls.value];
    }
    if env.preferMux.Some? && AsciiLower(env.preferMux.value) in {"1", "true", "yes", "on"} {
      args := args + ["--prefer-mux"];
    }
    if env.noAutoStart.Some? && AsciiLower(env.noAutoStart.value) in {"1", "true", "yes", "on"} {
      args := args + ["--no-auto-start"];
    }
  }

  /** The argument list `Iterm2Backend.create_pane` assembles for the split. */
  method BuildItermSplitArgs(bin: string, direction: string, parent: Option<string>) returns (args: seq<string>)
    ensures args == ItermSplitArgs(bin, direction, parent)
  {
    args := [bin, "session", "split"];
    if direction == "right" {
      args := args + ["--vertical"];
    }
    if parent.Some? && parent.value != [] {
      args := args + ["--session", parent.value];
    }
  }

  // ---------------------------------------------------------------------------
  // The command log

  /** The processes the backends start: `log` is every command issued so far. */
  class Shell {
    var log: seq<Command>
    const ok: Command -> bool
    const stdout: Command -> string

    constructor (ok: Command -> bool, stdout: Command -> string)
      ensures log == [] && this.ok == ok && this.stdout == stdout
    {
      log := [];
      this.ok := ok;
      this.stdout := stdout;
    }

    /** `subprocess.run(c.args, input=c.input, check=check)` */
    method Run(c: Command, check: bool) returns (raised: bool)
      modifies this
      ensures log == old(log) + [c] && raised == (check && !ok(c))
    {
      log := log + [c];
      raised := check && !ok(c);
    }

    /** `TmuxBackend.send_text` */
    method TmuxSendText(session: string, text: string, buffer: string) returns (raised: bool)
      modifies this
      ensures var e := TmuxSend(session, text, buffer, ok); log == old(log) + e.commands && raised == e.raised
    {
      var s := Sanitize(text);
      raised := TmuxSendSanitized(session, s, buffer);
    }

    /** The body of `TmuxBackend.send_text` after sanitising. */
    method TmuxSendSanitized(session: string, s: string, buffer: string) returns (raised: bool)
      modifies this
      ensures var e := TmuxSendClean(session, s, buffer, ok); log == old(log) + e.commands && raised == e.raised
    {
      if s == [] {
        return false;
      }
      if '\n' !in s && |s| <= FAST_LIMIT {
        raised := Run(SendKeysLiteral(session, s), true);
        if raised {
          return;
        }
        raised := Run(SendEnter(session), true);
        return;
      }
      raised := Run(LoadBuffer(buffer, s), true);
      if raised {
        return;
      }
      raised := Run(PasteBuffer(session, buffer), true);
      if !raised {
        raised := Run(SendEnter(session), true);
      }
      var _ := Run(DeleteBuffer(buffer), false);
    }

    /** `Iterm2Backend.send_text` */
    method Iterm2SendText(bin: string, sessionId: string, text: string) returns (raised: bool)
      modifies this
      ensures var e := Iterm2Send(bin, sessionId, text, ok); log == old(log) + e.commands && raised == e.raised
    {
      var s := Sanitize(text);
      if s == [] {
        return false;
      }
      raised := Run(ItermSendCmd(bin, sessionId, s), true);
      if raised {
        return;
      }
      raised := Run(ItermSendCmd(bin, sessionId, "\r"), true);
    }

    /** `WeztermBackend.send_text`; `base` is `_cli_base_args()`. */
    method WeztermSendText(base: seq<string>, pane: string, text: string, windows: bool) returns (raised: bool)
      modifies this
      ensures var e := WeztermSend(base, pane, text, windows, ok); log == old(log) + e.commands && raised == e.raised
    {
      var s := SanitizeLine(text);
      raised := SendLine(base, pane, s, windows);
    }

    /** The body of `WeztermBackend.send_text` after sanitising. */
    method SendLine(base: seq<string>, pane: string, s: string, windows: bool) returns (raised: bool)
      modifies this
      ensures var e := WeztermSendLine(base, pane, s, windows, ok); log == old(log) + e.commands && raised == e.raised
    {
      if s == [] {
        return false;
      }
      var first := SendTextCmd(base, pane, [s], None);
      raised := Run(first, true);
      if raised {
        return;
      }
      PressEnter(base, pane, windows);
    }

    /** The Enter after the text in `WeztermBackend.send_text`. */
    method PressEnter(base: seq<string>, pane: string, windows: bool)
      modifies this
      ensures log == old(log) + EnterKeystroke(base, pane, windows, ok)
    {
      if windows {
        var _ := Run(SendTextCmd(base, pane, [], Some("\r")), false);
        return;
      }
      var k := 0;
      while k < |ENTER_VARIANTS|
        invariant 0 <= k <= |ENTER_VARIANTS|
        invariant old(log) + EnterAttempts(base, pane, ok, 0) == log + EnterAttempts(base, pane, ok, k)
      {
        var c := SendTextCmd(base, pane, [ENTER_VARIANTS[k]], None);
        assert EnterAttempts(base, pane, ok, k) == if ok(c) then [c] else [c] + EnterAttempts(base, pane, ok, k + 1);
        var failed := Run(c, true);
        if !failed {
          return;
        }
        k := k + 1;
      }
      var _ := Run(SendTextCmd(base, pane, [], Some("\r")), false);
    }



    /** `Iterm2Backend.create_pane` */
    method Iterm2CreatePane(bin: string, cmd: string, cwd: string, direction: string, parent: Option<string>) returns (raised: bool, paneId: string)
      modifies this
      ensures var c := ItermCreate(bin, cmd, cwd, direction, parent, ok, stdout);
        log == old(log) + c.commands && raised == c.raised && paneId == c.paneId
    {
      var args := BuildItermSplitArgs(bin, direction, parent);
      var split := Command(args, None);
      raised := Run(split, true);
      if raised {
        return true, "";
      }
      paneId := ParsePaneId(stdout(split));
      raised := Iterm2Startup(bin, paneId, cmd, cwd);
    }

    /** The tail of `Iterm2Backend.create_pane`: start `cmd` in the new session. */
    method Iterm2Startup(bin: string, id: string, cmd: string, cwd: string) returns (raised: bool)
      modifies this
      ensures var s := ItermStartup(bin, id, cmd, cwd, ok); log == old(log) + s.commands && raised == s.raised
    {
      if id == [] || cmd == [] {
        return false;
      }
      var script := "cd " + Quote(cwd) + " && " + cmd;
      raised := Run(ItermSendCmd(bin, id, script), true);
      if raised {
        return;
      }
      raised := Run(ItermSendCmd(bin, id, "\r"), true);
    }

    /** `WeztermBackend.create_pane`; `base` is `_cli_base_args()` and `launch` the
        platform's way of starting the command. */
    method WeztermCreatePane(base: seq<string>, launch: Launch, cmd: string, cwd: string, direction: string, percent: int, parent: Option<string>)
      returns (raised: bool, paneId: string)
      modifies this
      ensures var c := WeztermCreate(base, launch, cmd, cwd, direction, percent, parent, ok, stdout);
        log == old(log) + c.commands && raised == c.raised && paneId == c.paneId
    {
      var place := [];
      if direction == "right" {
        place := ["--right"];
      } else if direction == "bottom" {
        place := ["--bottom"];
      }
      place := place + ["--percent", IntToString(percent)];
      if parent.Some? && parent.value != [] {
        place := place + ["--pane-id", parent.value];
      }
      assert place == PlacementArgs(direction, percent, parent);
      var args;
      match launch {
        case Native(shell, flag) =>
          args := base + ["split-pane"] + ["--cwd", cwd] + place + ["--", shell, flag, cmd];
        case Wsl(wslCwd, inWslPane) =>
          var runner := if inWslPane then [] else ["wsl.exe"];
          args := base + ["split-pane"] + place + ["--"] + runner + ["bash", "-l", "-i", "-c", StartupScript(wslCwd, cmd)];
      }
      var split := Command(args, None);
      raised := Run(split, true);
      paneId := if raised then "" else Strip(stdout(split));
    }
  }
}
