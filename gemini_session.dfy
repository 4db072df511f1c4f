/** The Gemini side of the project session descriptor (`.gemini-session`): the update
    `_remember_gemini_session` makes once a session file is bound, how a failure to
    write it reaches `ask_sync`, and the decision `_check_session_health_impl` takes. */
module GeminiSession {
  import opened Common
  import opened Descriptor
  import GeminiReader

  const PATH_KEY := "gemini_session_path"
  const HASH_KEY := "gemini_project_hash"
  const ID_KEY := "gemini_session_id"

  /** The outcome of the dictionary update: `Raised` when `.get` on a non-object
      raises, otherwise the new dictionary and `updated`. */
  datatype Update = Raised | Updated(doc: Doc, updated: bool)

  /** The dictionary part of `_remember_gemini_session`: the session path is always
      recorded; the project hash (the name of the directory above `chats`) and the
      session id (the file's own `sessionId`) only when they are non-empty. */
  function UpdateDescriptor(loaded: Loaded, pathStr: string, projectHash: string, sessionId: string): Update
  {
    match loaded
    case NotAnObject => Raised
    case Object(data) =>
      var d1 := if Differs(data, PATH_KEY, pathStr) then data[PATH_KEY := Str(pathStr)] else data;
      var d2 := if projectHash != [] && Differs(d1, HASH_KEY, projectHash) then d1[HASH_KEY := Str(projectHash)] else d1;
      var d3 := if sessionId != [] && Differs(d2, ID_KEY, sessionId) then d2[ID_KEY := Str(sessionId)] else d2;
      Updated(d3, Differs(data, PATH_KEY, pathStr)
        || (projectHash != [] && Differs(d1, HASH_KEY, projectHash))
        || (sessionId != [] && Differs(d2, ID_KEY, sessionId)))
  }

  /** After the update the descriptor names the session file, carries the project hash
      and session id when they are known, and keeps every other key as it was; the
      keys it had before are all still there. */
  lemma UpdateBindsSession(data: Doc, pathStr: string, projectHash: string, sessionId: string)
    ensures var d := UpdateDescriptor(Object(data), pathStr, projectHash, sessionId).doc;
      && d[PATH_KEY] == Str(pathStr)
      && (projectHash != [] ==> d[HASH_KEY] == Str(projectHash))
      && (sessionId != [] ==> d[ID_KEY] == Str(sessionId))
      && (forall k :: k in data && k != PATH_KEY && k != HASH_KEY && k != ID_KEY ==> k in d && d[k] == data[k])
      && (projectHash == [] && HASH_KEY in data ==> d[HASH_KEY] == data[HASH_KEY])
      && (sessionId == [] && ID_KEY in data ==> d[ID_KEY] == data[ID_KEY])
  {
  }

  /** The update adds the path key, and the hash and id keys when those are known,
      and no other key. */
  lemma UpdateKeys(data: Doc, pathStr: string, projectHash: string, sessionId: string)
    ensures UpdateDescriptor(Object(data), pathStr, projectHash, sessionId).doc.Keys
      == data.Keys + {PATH_KEY} + (if projectHash != [] then {HASH_KEY} else {}) + (if sessionId != [] then {ID_KEY} else {})
  {
  }

  /** `updated` holds exactly when the dictionary changed, so the file is rewritten
      only when something differs, and a second update with the same facts finds
      nothing to do. */
  lemma UpdatedIffChanged(data: Doc, pathStr: string, projectHash: string, sessionId: string)
    ensures var u := UpdateDescriptor(Object(data), pathStr, projectHash, sessionId);
      && (u.updated <==> u.doc != data)
      && UpdateDescriptor(Object(u.doc), pathStr, projectHash, sessionId) == Updated(u.doc, false)
  {
    var u := UpdateDescriptor(Object(data), pathStr, projectHash, sessionId);
    UpdateBindsSession(data, pathStr, projectHash, sessionId);
    if Differs(data, PATH_KEY, pathStr) {
      assert u.doc[PATH_KEY] != (if PATH_KEY in data then data[PATH_KEY] else Null) || PATH_KEY !in data;
    }
    if projectHash != [] && HASH_KEY != PATH_KEY && Differs(data[PATH_KEY := Str(pathStr)], HASH_KEY, projectHash) {
      assert HASH_KEY !in data || data[HASH_KEY] != u.doc[HASH_KEY];
    }
  }

  /** How writing the temporary file and replacing the descriptor ends. */
  datatype Write = Wrote | PermissionDenied | WriteFailed

  /** What `_remember_gemini_session` leaves: the descriptor now on disk when it
      rewrote it, and whether it raised. */
  datatype Remembered = Remembered(stored: Option<Doc>, raised: bool)

  /** `_remember_gemini_session(session_path)` as the source is written:
      `projectFile` is the descriptor, `payloadId` the string `sessionId` of the
      session file when it has one, and `write` how the rewrite ends. The handlers of
      a failed write print to `sys.stderr`, but the module never imports `sys`, so the
      handler itself raises `NameError`. */
  function RememberAsWritten(sessionPath: GeminiReader.Path, projectFile: ProjectFile, payloadId: Option<string>, write: Write): Remembered
  {
    if !projectFile.Parsed? then Remembered(None, false)
    else match UpdateDescriptor(projectFile.loaded, sessionPath, GeminiReader.ProjectHashOf(sessionPath), if payloadId.Some? then payloadId.value else "")
      case Raised => Remembered(None, true)
      case Updated(doc, updated) =>
        if !updated then Remembered(None, false)
        else if write.Wrote? then Remembered(Some(doc), false)
        else Remembered(None, true)
  }

  /** `_remember_gemini_session` as intended: a failed write is reported and the call
      returns normally, as the Codex side does. */
  function RememberGeminiSession(sessionPath: GeminiReader.Path, projectFile: ProjectFile, payloadId: Option<string>, write: Write): (r: Remembered)
  {
    if !projectFile.Parsed? then Remembered(None, false)
    else match UpdateDescriptor(projectFile.loaded, sessionPath, GeminiReader.ProjectHashOf(sessionPath), if payloadId.Some? then payloadId.value else "")
      case Raised => Remembered(None, true)
      case Updated(doc, updated) => Remembered(if updated && write.Wrote? then Some(doc) else None, false)
  }

  /** The intended update raises only on a descriptor that is not an object; when the
      descriptor is missing or unreadable it changes nothing, and whatever it stores
      names the session file. */
  lemma RememberRaisesOnlyOnNonObject(sessionPath: GeminiReader.Path, projectFile: ProjectFile, payloadId: Option<string>, write: Write)
    ensures var r := RememberGeminiSession(sessionPath, projectFile, payloadId, write);
      && (r.raised <==> projectFile == Parsed(NotAnObject))
      && (r.stored.Some? ==> write.Wrote? && PATH_KEY in r.stored.value && r.stored.value[PATH_KEY] == Str(sessionPath))
      && (!projectFile.Parsed? ==> r == Remembered(None, false))
  {
    if projectFile.Parsed? && projectFile.loaded.Object? {
      UpdateBindsSession(projectFile.loaded.doc, sessionPath, GeminiReader.ProjectHashOf(sessionPath), if payloadId.Some? then payloadId.value else "");
    }
  }

  /** The two versions differ only when a needed rewrite fails: there the code as
      written raises. */
  lemma AsWrittenRaisesOnFailedWrite(sessionPath: GeminiReader.Path, projectFile: ProjectFile, payloadId: Option<string>, write: Write)
    ensures RememberAsWritten(sessionPath, projectFile, payloadId, write) != RememberGeminiSession(sessionPath, projectFile, payloadId, write)
      <==> projectFile.Parsed? && projectFile.loaded.Object? && !write.Wrote?
           && UpdateDescriptor(projectFile.loaded, sessionPath, GeminiReader.ProjectHashOf(sessionPath), if payloadId.Some? then payloadId.value else "").updated
  {
  }

  /** The end of `ask_sync` once the wait returned: `_remember_gemini_session` runs
      before the reply is handed back, inside the `try` whose handler returns None. */
  function AskSyncResult(reply: Option<string>, remembered: Remembered): (r: Option<string>)
  {
    if remembered.raised then None else reply
  }

  /** As written, a reply that has arrived is thrown away when the descriptor needs a
      rewrite that fails: a session file `/g/h/chats/s.json` bound to a descriptor
      that still names another file, with a read-only descriptor directory. */
  lemma FailedWriteLosesReply()
    ensures var project := Parsed(Object(map[PATH_KEY := Str("/g/h/chats/old.json")]));
      AskSyncResult(Some("hello"), RememberAsWritten("/g/h/chats/s.json", project, None, PermissionDenied)) == None
  {
    var data := map[PATH_KEY := Str("/g/h/chats/old.json")];
    assert Differs(data, PATH_KEY, "/g/h/chats/s.json");
    NewPathRaisesOnFailedWrite(data, "/g/h/chats/s.json", None, PermissionDenied);
  }

  /** As written, binding a session file the descriptor does not yet name raises
      whenever the rewrite fails. */
  lemma NewPathRaisesOnFailedWrite(data: Doc, sessionPath: GeminiReader.Path, payloadId: Option<string>, write: Write)
    requires Differs(data, PATH_KEY, sessionPath) && !write.Wrote?
    ensures RememberAsWritten(sessionPath, Parsed(Object(data)), payloadId, write) == Remembered(None, true)
  {
  }

  /** With the intended behaviour a reply that has arrived always reaches the caller
      unless the descriptor is not a JSON object. */
  lemma AskSyncKeepsReply(reply: Option<string>, sessionPath: GeminiReader.Path, projectFile: ProjectFile, payloadId: Option<string>, write: Write)
    requires projectFile != Parsed(NotAnObject)
    ensures AskSyncResult(reply, RememberGeminiSession(sessionPath, projectFile, payloadId, write)) == reply
  {
    RememberRaisesOnlyOnNonObject(sessionPath, projectFile, payloadId, write);
  }

  /** Binding a session file `<root>/<hash>/chats/<name>` records `hash` as the
      project. */
  lemma RememberRecordsProjectHash(root: string, hash: string, name: string, data: Doc, payloadId: Option<string>)
    requires '/' !in hash && '/' !in name && hash != []
    ensures var p := root + "/" + hash + "/chats/" + name;
      var r := RememberGeminiSession(p, Parsed(Object(data)), payloadId, Wrote);
      r.stored.Some? ==> HASH_KEY in r.stored.value && r.stored.value[HASH_KEY] == Str(hash)
  {
    var p := root + "/" + hash + "/chats/" + name;
    GeminiReader.ProjectHashOfSession(root, hash, name);
    UpdateBindsSession(data, p, hash, if payloadId.Some? then payloadId.value else "");
  }

  // ---------------------------------------------------------------------------
  // `_check_session_health_impl`

  /** What the health check finds: `pane_id` (None or "" when unset), whether a
      backend object exists, and what the backend's `is_alive(pane_id)` answers. The
      backend comes from `get_backend_for_session` (`Terminal.BackendForSession`),
      which always yields one, so the program only meets `backendPresent == true`; the
      flag keeps the check's own `self.backend and` guard. */
  datatype HealthFacts = HealthFacts(runtimeDirExists: bool, terminal: string, paneId: Option<string>, backendPresent: bool, paneAlive: bool)

  datatype Health = Health(healthy: bool, status: string)

  predicate HasPane(f: HealthFacts)
  {
    f.paneId.Some? && f.paneId.value != []
  }

  /** `_check_session_health_impl(probe_terminal)` */
  function CheckHealth(f: HealthFacts, probe: bool): Health
  {
    if !f.runtimeDirExists then Health(false, "Runtime directory not found")
    else if !HasPane(f) then Health(false, "Session ID not found")
    else if probe && f.backendPresent && !f.paneAlive then Health(false, f.terminal + " session " + f.paneId.value + " not found")
    else Health(true, "Session OK")
  }

  /** A session is healthy exactly when its runtime directory exists, it has a pane
      id, and (when probing through a backend) the pane is alive; a session without a
      backend object passes the probe, and every failure names its cause. */
  lemma HealthyIff(f: HealthFacts, probe: bool)
    ensures CheckHealth(f, probe).healthy <==> f.runtimeDirExists && HasPane(f) && (probe && f.backendPresent ==> f.paneAlive)
    ensures CheckHealth(f, probe).healthy <==> CheckHealth(f, probe).status == "Session OK"
  {
    if !CheckHealth(f, probe).healthy && f.runtimeDirExists && HasPane(f) {
      assert CheckHealth(f, probe).status[|f.terminal|..|f.terminal| + 9] == " session ";
    }
  }

  /** Skipping the probe (as `ask_async` and `ask_sync` do) only lets more sessions
      through, and only those whose pane is gone. */
  lemma ProbeOnlyRejects(f: HealthFacts)
    ensures CheckHealth(f, true).healthy ==> CheckHealth(f, false).healthy
    ensures CheckHealth(f, true) != CheckHealth(f, false) <==> f.runtimeDirExists && HasPane(f) && f.backendPresent && !f.paneAlive
  {
  }
}
