/** `GeminiLogReader`: a count-plus-fingerprint cursor over Gemini's chat session
    files, which Gemini rewrites in place. A cursor remembers how many messages the
    file held, its modification time and size, and the id and content hash of the last
    Gemini message; a reply is detected by growth of the message list or by an in-place
    change of the last Gemini message. The filesystem is a snapshot taken at each turn
    of the polling loop; SHA-256 is a parameter `digest`. */
module GeminiReader {
  import opened Common
  import opened GeminiDoc

  type Path = string

  /** `hashlib.sha256(s.encode("utf-8")).hexdigest()` */
  type Digest = string -> string

  /** One session file: what opening and parsing it gives, and its `stat`. The time is
      an integer number of nanoseconds and stands for both `st_mtime` and
      `st_mtime_ns`. */
  datatype SessionFile = SessionFile(read: FileRead, mtime: int, size: nat)

  /** The reader's view of the filesystem at one moment: whether the root exists, the
      `session-*.json` paths each existing `<root>/<hash>/chats` directory lists (in
      glob order), the `session-*.json` paths of every project's chats directory, and
      every regular file by path. */
  datatype Fs = Fs(rootExists: bool, chats: map<string, seq<Path>>, allSessions: seq<Path>, files: map<Path, SessionFile>)

  predicate Present(fs: Fs, p: Option<Path>)
  {
    p.Some? && p.value in fs.files
  }

  function Mtimes(fs: Fs): map<Path, int>
  {
    map p | p in fs.files :: fs.files[p].mtime
  }

  // ---------------------------------------------------------------------------
  // Finding the session file

  /** `_scan_latest_session_any_project`: the last of the listed files after a stable
      sort by modification time. */
  function ScanAnyProject(fs: Fs): Option<Path>
  {
    if !fs.rootExists then None else NewestLast(fs.allSessions, Mtimes(fs), None)
  }

  /** `_scan_latest_session`: the newest file of the project's own chats directory,
      falling back to every project's when it has none. */
  function ScanLatestSession(fs: Fs, projectHash: string): (r: Option<Path>)
    ensures r.Some? ==> r.value in fs.files
  {
    var own := if projectHash in fs.chats then NewestLast(fs.chats[projectHash], Mtimes(fs), None) else None;
    if own.Some? then own else ScanAnyProject(fs)
  }

  /** The project's own newest session wins whenever its chats directory lists one;
      only otherwise does the scan look at other projects. Among the candidates it
      scans, the result is at least as new as every other one and strictly newer than
      every one listed after it. */
  lemma ScanLatestSessionNewest(fs: Fs, projectHash: string)
    ensures var r := ScanLatestSession(fs, projectHash);
      var own := if projectHash in fs.chats then fs.chats[projectHash] else [];
      var ps := if exists j :: 0 <= j < |own| && own[j] in fs.files then own
                else if fs.rootExists then fs.allSessions else [];
      && (r.None? <==> forall j :: 0 <= j < |ps| ==> ps[j] !in fs.files)
      && (r.Some? ==>
           && (forall j :: 0 <= j < |ps| && ps[j] in fs.files ==> fs.files[ps[j]].mtime <= fs.files[r.value].mtime)
           && exists i :: 0 <= i < |ps| && ps[i] == r.value
                && forall j :: i < j < |ps| && ps[j] in fs.files ==> fs.files[ps[j]].mtime < fs.files[r.value].mtime)
  {
    var own := if projectHash in fs.chats then fs.chats[projectHash] else [];
    NewestLastIsNewest(own, Mtimes(fs), None);
    NewestLastIsNewest(fs.allSessions, Mtimes(fs), None);
    if projectHash !in fs.chats {
      assert NewestLast(own, Mtimes(fs), None) == None;
    }
  }

  /** `latest.parent.parent.name`: the project hash directory a session file lies in. */
  function ProjectHashOf(p: Path): string
  {
    BaseName(DirName(DirName(p)))
  }

  /** A session file `<root>/<hash>/chats/<name>` lies in project `hash`. */
  lemma ProjectHashOfSession(root: string, hash: string, name: string)
    requires '/' !in hash && '/' !in name
    ensures ProjectHashOf(root + "/" + hash + "/chats/" + name) == hash
  {
    assert root + "/" + hash + "/chats/" + name == (root + "/" + hash + "/chats") + "/" + name;
    DirNameBaseName(root + "/" + hash + "/chats", name);
    assert root + "/" + hash + "/chats" == (root + "/" + hash) + "/" + "chats";
    DirNameBaseName(root + "/" + hash, "chats");
    DirNameBaseName(root, hash);
  }

  /** `(session, _preferred_session, _project_hash)` after `_latest_session`. */
  datatype Resolution = Resolution(session: Option<Path>, preferred: Option<Path>, projectHash: string)

  /** `_latest_session`: the scanned file replaces the preferred one (and moves the
      project hash to the file's project) only when it is strictly newer, a missing
      preferred file counting as time 0. When the scan finds nothing, a preferred file
      that no longer exists is dropped from the answer but kept in the field. */
  function ResolveSession(preferred: Option<Path>, projectHash: string, fs: Fs): (r: Resolution)
    ensures r.preferred == preferred || r.preferred == ScanLatestSession(fs, projectHash)
    ensures r.session == r.preferred || (r.session.None? && r.preferred == preferred)
  {
    var latest := ScanLatestSession(fs, projectHash);
    if latest.None? then Resolution(if Present(fs, preferred) then preferred else None, preferred, projectHash)
    else if !Present(fs, preferred) || latest != preferred then
      var preferredMtime := if Present(fs, preferred) then fs.files[preferred.value].mtime else 0;
      if fs.files[latest.value].mtime > preferredMtime then
        var h := ProjectHashOf(latest.value);
        Resolution(latest, latest, if h != "" then h else projectHash)
      else Resolution(preferred, preferred, projectHash)
    else Resolution(preferred, preferred, projectHash)
  }

  /** Resolving again against the same files changes nothing, as long as the scan
      still sees the same newest file under the (possibly moved) project hash. */
  lemma ResolveSessionIdempotent(preferred: Option<Path>, projectHash: string, fs: Fs)
    requires var r := ResolveSession(preferred, projectHash, fs);
      ScanLatestSession(fs, r.projectHash) == ScanLatestSession(fs, projectHash)
    ensures var r := ResolveSession(preferred, projectHash, fs);
      ResolveSession(r.preferred, r.projectHash, fs) == r
  {
  }

  /** The resolve rule itself: the scanned file takes over (as answer and as preferred
      file) exactly when it is strictly newer than the preferred one, a missing
      preferred file counting as time 0; otherwise the preferred file and the project
      hash stay, and an existing preferred file is the answer. */
  lemma ResolveSessionReplacesOnlyWhenNewer(preferred: Option<Path>, projectHash: string, fs: Fs)
    ensures var r := ResolveSession(preferred, projectHash, fs);
      var latest := ScanLatestSession(fs, projectHash);
      var newer := latest.Some? && fs.files[latest.value].mtime > (if Present(fs, preferred) then fs.files[preferred.value].mtime else 0);
      && (newer ==> r.session == latest && r.preferred == latest)
      && (!newer ==> r.preferred == preferred && r.projectHash == projectHash)
      && (!newer && Present(fs, preferred) ==> r.session == preferred)
  {
  }

  /** Whatever file is answered is at least as new as the newest file the scan found. */
  lemma ResolveSessionIsNewest(preferred: Option<Path>, projectHash: string, fs: Fs)
    ensures var r := ResolveSession(preferred, projectHash, fs);
      var latest := ScanLatestSession(fs, projectHash);
      Present(fs, r.session) && latest.Some? ==> fs.files[latest.value].mtime <= fs.files[r.session.value].mtime
  {
  }

  // ---------------------------------------------------------------------------
  // The state dictionary and `capture_state`

  /** The state dictionary of `capture_state` and `_read_since`: `mtime_ns` is absent
      (None) in the one state returned when no session exists. */
  datatype State = State(
    sessionPath: Option<Path>,
    msgCount: int,
    mtime: int,
    mtimeNs: Option<int>,
    size: int,
    lastId: Option<string>,
    lastHash: Option<string>)

  /** What `capture_state` leaves: the state, or `CaptureRaised` when `len()` of a scalar
      `messages` raises. */
  datatype Capture = Captured(state: State) | CaptureRaised

  const ATTEMPTS: nat := 10

  /** The retry loop of `capture_state` from attempt `k`: a parse error is retried, up
      to ten attempts in all; an unreadable file or a non-object ends the loop without
      data. `attempts(k)` is what attempt `k` sees. */
  function FirstParse(attempts: nat -> FileRead, k: nat): (r: Option<Data>)
    ensures r.Some? ==> r.value.Object?
    decreases ATTEMPTS - k
  {
    if k >= ATTEMPTS then None
    else match attempts(k)
      case Decoded(d) => if d.Object? then Some(d) else None
      case Unreadable => None
      case Undecodable => FirstParse(attempts, k + 1)
  }

  /** The baseline fields of `capture_state` for a document that parsed. */
  function Baseline(session: Path, f: SessionFile, data: Data, digest: Digest): Capture
  {
    match MessageList(data)
    case None => CaptureRaised
    case Some(ms) =>
      var last := LastGemini(data);
      Captured(State(Some(session), |ms|, f.mtime, Some(f.mtime), f.size,
        if last.Some? then last.value.id else None,
        if last.Some? then Some(digest(last.value.content)) else None))
  }

  /** `capture_state` against a snapshot, with the reader's fields afterwards. */
  datatype Captures = Captures(capture: Capture, preferred: Option<Path>, projectHash: string)

  function CaptureSpec(preferred: Option<Path>, projectHash: string, fs: Fs, attempts: nat -> FileRead, digest: Digest): Captures
  {
    var res := ResolveSession(preferred, projectHash, fs);
    var capture :=
      if !Present(fs, res.session) then Captured(State(res.session, 0, 0, Some(0), 0, None, None))
      else
        var f := fs.files[res.session.value];
        (match FirstParse(attempts, 0)
         case None => Captured(State(res.session, -1, f.mtime, Some(f.mtime), f.size, None, None))
         case Some(data) => Baseline(res.session.value, f, data, digest));
    Captures(capture, res.preferred, res.projectHash)
  }

  /** The count is -1 (an unknown baseline) exactly when the session file exists but
      no attempt parsed it to an object; otherwise it is the number of messages, and the
      id and hash are those of the last Gemini message. Without a session file every
      field is 0 or none; an unknown baseline carries no id or hash. */
  lemma CaptureCounts(preferred: Option<Path>, projectHash: string, fs: Fs, attempts: nat -> FileRead, digest: Digest)
    ensures var c := CaptureSpec(preferred, projectHash, fs, attempts, digest).capture;
      var s := ResolveSession(preferred, projectHash, fs).session;
      && (!Present(fs, s) ==> c == Captured(State(s, 0, 0, Some(0), 0, None, None)))
      && (c.Captured? && c.state.msgCount == -1 ==> c.state.lastId.None? && c.state.lastHash.None?)
      && (c.Captured? ==>
        && (c.state.msgCount == -1 <==> Present(fs, s) && FirstParse(attempts, 0).None?)
        && (c.state.msgCount >= 0 ==>
             && (Present(fs, s) ==> c.state.msgCount == |MessageList(FirstParse(attempts, 0).value).value|)
             && (Present(fs, s) ==> var last := LastGemini(FirstParse(attempts, 0).value);
                  c.state.lastId == (if last.Some? then last.value.id else None)
                  && c.state.lastHash == (if last.Some? then Some(digest(last.value.content)) else None))))
  {
  }

  // ---------------------------------------------------------------------------
  // `_read_since`

  /** The loop variables of `_read_since`: `prev_count`, `unknown_baseline`,
      `prev_mtime`, `prev_mtime_ns`, `prev_size`, `prev_last_gemini_id` and
      `prev_last_gemini_hash`. */
  datatype Track = Track(count: int, unknown: bool, mtime: int, mtimeNs: int, size: int, lastId: Option<string>, lastHash: Option<string>)

  /** The loop variables as `_read_since` attempts them from the state. */
  function InitTrack(s: State): Track
  {
    Track(s.msgCount, s.msgCount < 0, s.mtime, if s.mtimeNs.Some? then s.mtimeNs.value else s.mtime, s.size, s.lastId, s.lastHash)
  }

  /** The state `_read_since` returns without a reply once a session exists. */
  function Snapshot(session: Path, t: Track): State
  {
    State(Some(session), t.count, t.mtime, Some(t.mtimeNs), t.size, t.lastId, t.lastHash)
  }

  /** One turn of the outer loop as far as the reader can tell: the filesystem, whether
      the rescan interval has elapsed, whether the forced-read interval has elapsed,
      and whether the deadline has passed once the turn's sleep is over. */
  datatype Tick = Tick(fs: Fs, rescanDue: bool, forceDue: bool, expiredAfterSleep: bool)

  /** What a call returns: a reply or none with the new state, `Raises` when Python
      raises, or `StillWaiting` when the turns on offer ran out before it returned. */
  datatype Poll = Returned(reply: Option<string>, state: State) | Raises | StillWaiting

  /** A message of the new slice that can be delivered: its stripped content, id and hash. */
  datatype Candidate = Candidate(content: string, id: Option<string>, hash: string)

  /** The loop over `messages[prev_count:]`: `Bad` when `msg.get` or `.strip()`
      raises, otherwise the last candidate found. */
  datatype Growth = Bad | Found(candidate: Candidate) | NoneFound

  /** `ms[i]` breaks the growth loop: not an object, or a Gemini message whose content
      is not a string. */
  predicate Breaks(m: Msg)
  {
    m.NonDict? || (IsGemini(m) && StrippedContent(m.content).None?)
  }

  /** `ms[i]` is a non-empty Gemini reply that differs in (id, hash) from the previous one. */
  predicate Fresh(m: Msg, lastId: Option<string>, lastHash: Option<string>, digest: Digest)
  {
    && IsGemini(m) && StrippedContent(m.content).Some? && StrippedContent(m.content).value != []
    && !(m.id == lastId && Some(digest(StrippedContent(m.content).value)) == lastHash)
  }

  function CandidateOf(m: Msg, digest: Digest): Candidate
    requires m.Dict? && StrippedContent(m.content).Some?
  {
    var c := StrippedContent(m.content).value;
    Candidate(c, m.id, digest(c))
  }

  /** The growth loop from message `i` on, with the candidate found so far. */
  function NewReplyFrom(ms: seq<Msg>, i: nat, lastId: Option<string>, lastHash: Option<string>, digest: Digest, found: Option<Candidate>): Growth
    decreases |ms| - i
  {
    if i >= |ms| then (if found.Some? then Found(found.value) else NoneFound)
    else
      var m := ms[i];
      if Breaks(m) then Bad
      else if Fresh(m, lastId, lastHash, digest) then NewReplyFrom(ms, i + 1, lastId, lastHash, digest, Some(CandidateOf(m, digest)))
      else NewReplyFrom(ms, i + 1, lastId, lastHash, digest, found)
  }

  /** The index of the last fresh message in `ms[lo..hi]`. */
  function LastFresh(ms: seq<Msg>, lo: nat, hi: nat, lastId: Option<string>, lastHash: Option<string>, digest: Digest): (r: Option<nat>)
    requires lo <= hi <= |ms|
    ensures r.Some? ==> lo <= r.value < hi && Fresh(ms[r.value], lastId, lastHash, digest)
    ensures r.Some? ==> forall j :: r.value < j < hi ==> !Fresh(ms[j], lastId, lastHash, digest)
    ensures r.None? ==> forall j :: lo <= j < hi ==> !Fresh(ms[j], lastId, lastHash, digest)
    decreases hi
  {
    if hi == lo then None
    else if Fresh(ms[hi - 1], lastId, lastHash, digest) then Some(hi - 1)
    else LastFresh(ms, lo, hi - 1, lastId, lastHash, digest)
  }

  /** The growth loop raises exactly when some message of the slice breaks it;
      otherwise it delivers the LAST fresh message of the slice, or nothing when the
      slice has none. */
  lemma NewReplyIsLastFresh(ms: seq<Msg>, i: nat, lastId: Option<string>, lastHash: Option<string>, digest: Digest)
    requires i <= |ms|
    ensures NewReplyFrom(ms, i, lastId, lastHash, digest, None) ==
      if exists j :: i <= j < |ms| && Breaks(ms[j]) then Bad
      else match LastFresh(ms, i, |ms|, lastId, lastHash, digest)
        case Some(k) => Found(CandidateOf(ms[k], digest))
        case None => NoneFound
  {
    NewReplyBadIff(ms, i, lastId, lastHash, digest, None);
    if !exists j :: i <= j < |ms| && Breaks(ms[j]) {
      NewReplyFound(ms, i, lastId, lastHash, digest, None);
    }
  }

  /** The growth loop raises exactly when a message of the slice breaks it. */
  lemma {:induction false} NewReplyBadIff(ms: seq<Msg>, i: nat, lastId: Option<string>, lastHash: Option<string>, digest: Digest, found: Option<Candidate>)
    requires i <= |ms|
    ensures NewReplyFrom(ms, i, lastId, lastHash, digest, found).Bad? <==> exists j :: i <= j < |ms| && Breaks(ms[j])
    decreases |ms| - i
  {
    if i < |ms| && !Breaks(ms[i]) {
      var m := ms[i];
      var next := if Fresh(m, lastId, lastHash, digest) then Some(CandidateOf(m, digest)) else found;
      assert NewReplyFrom(ms, i, lastId, lastHash, digest, found) == NewReplyFrom(ms, i + 1, lastId, lastHash, digest, next);
      NewReplyBadIff(ms, i + 1, lastId, lastHash, digest, next);
      assert (exists j :: i <= j < |ms| && Breaks(ms[j])) ==> (exists j :: i + 1 <= j < |ms| && Breaks(ms[j]));
    }
  }

  /** Over a slice no message breaks, the growth loop delivers its last fresh message,
      or the candidate it started with when the slice has none. */
  lemma {:induction false} NewReplyFound(ms: seq<Msg>, i: nat, lastId: Option<string>, lastHash: Option<string>, digest: Digest, found: Option<Candidate>)
    requires i <= |ms|
    requires forall j :: i <= j < |ms| ==> !Breaks(ms[j])
    ensures NewReplyFrom(ms, i, lastId, lastHash, digest, found) ==
      match LastFresh(ms, i, |ms|, lastId, lastHash, digest)
      case Some(k) => Found(CandidateOf(ms[k], digest))
      case None => if found.Some? then Found(found.value) else NoneFound
    decreases |ms| - i
  {
    if i < |ms| {
      var m := ms[i];
      var next := if Fresh(m, lastId, lastHash, digest) then Some(CandidateOf(m, digest)) else found;
      assert NewReplyFrom(ms, i, lastId, lastHash, digest, found) == NewReplyFrom(ms, i + 1, lastId, lastHash, digest, next);
      NewReplyFound(ms, i + 1, lastId, lastHash, digest, next);
      LastFreshFromBelow(ms, i, |ms|, lastId, lastHash, digest);
    }
  }

  /** Scanning from one message earlier finds the same last fresh message, unless the
      rest of the slice has none, when it finds the earlier message if that is fresh. */
  lemma LastFreshFromBelow(ms: seq<Msg>, lo: nat, hi: nat, lastId: Option<string>, lastHash: Option<string>, digest: Digest)
    requires lo < hi <= |ms|
    ensures var tail := LastFresh(ms, lo + 1, hi, lastId, lastHash, digest);
      LastFresh(ms, lo, hi, lastId, lastHash, digest) ==
        if tail.Some? then tail else if Fresh(ms[lo], lastId, lastHash, digest) then Some(lo) else None
  {
    var tail := LastFresh(ms, lo + 1, hi, lastId, lastHash, digest);
    if tail.Some? {
      LastFreshUnique(ms, lo, hi, lastId, lastHash, digest, tail.value);
    } else if Fresh(ms[lo], lastId, lastHash, digest) {
      LastFreshUnique(ms, lo, hi, lastId, lastHash, digest, lo);
    }
  }

  /** `LastFresh` names the only fresh index with no fresh index after it. */
  lemma LastFreshUnique(ms: seq<Msg>, lo: nat, hi: nat, lastId: Option<string>, lastHash: Option<string>, digest: Digest, k: nat)
    requires lo <= k < hi <= |ms|
    requires Fresh(ms[k], lastId, lastHash, digest)
    requires forall j :: k < j < hi ==> !Fresh(ms[j], lastId, lastHash, digest)
    ensures LastFresh(ms, lo, hi, lastId, lastHash, digest) == Some(k)
  {
    var r := LastFresh(ms, lo, hi, lastId, lastHash, digest);
    assert r.Some?;
  }

  /** How one turn of the loop ends, once the session file is known: a stop with what
      the call returns, or another turn with the loop variables. */
  datatype Decision = Stop(poll: Poll) | Again(track: Track)

  /** The end of a turn without a reply: a non-blocking call returns the state; a
      blocking one sleeps and returns it only when the deadline has passed. */
  function Finish(session: Path, t: Track, tick: Tick, block: bool): Decision
  {
    if !block || tick.expiredAfterSleep then Stop(Returned(None, Snapshot(session, t))) else Again(t)
  }

  /** `(last_msg.get("content") or "").strip()`: None where a truthy non-string content
      makes `.strip()` raise. */
  function BaselineContent(c: Content): Option<string>
  {
    match c
    case NoContent => Some("")
    case NullContent => Some("")
    case Text(s) => Some(Strip(s))
    case OtherContent(_) => None
  }

  /** The unknown-baseline branch: the first successful read delivers the last
      message when it is a non-empty Gemini reply and the file changed since the
      baseline `stat`; otherwise the read becomes the baseline and the flag clears. */
  function ReadUnknown(session: Path, f: SessionFile, data: Data, ms: seq<Msg>, t: Track, tick: Tick, block: bool, digest: Digest): Decision
    requires MessageList(data) == Some(ms)
  {
    var last := if |ms| > 0 then ms[|ms| - 1] else NonDict;
    if last.Dict? && BaselineContent(last.content).None? then Stop(Raises)
    else
      var content := if last.Dict? then BaselineContent(last.content).value else "";
      if IsGemini(last) && content != "" && (f.mtime > t.mtimeNs || f.size != t.size) then
        Stop(Returned(Some(content), State(Some(session), |ms|, f.mtime, Some(f.mtime), f.size, last.id, Some(digest(content)))))
      else
        var lg := LastGemini(data);
        var base := Track(|ms|, false, f.mtime, f.mtime, f.size,
          if lg.Some? then lg.value.id else t.lastId,
          if lg.Some? then (if lg.value.content != "" then Some(digest(lg.value.content)) else None) else t.lastHash);
        Finish(session, base, tick, block)
  }

  /** The read of a known baseline: growth of the list delivers the last fresh message
      of the new slice; otherwise an in-place change of the last Gemini message's id or
      hash delivers it. Without a reply, the count, time and size become the current
      ones, and the id and hash those of the last Gemini message (the hash is kept
      when its content is empty). */
  function ReadKnown(session: Path, f: SessionFile, data: Data, ms: seq<Msg>, t: Track, tick: Tick, block: bool, digest: Digest): Decision
    requires MessageList(data) == Some(ms)
  {
    var grown := |ms| > t.count;
    var growth := if grown then NewReplyFrom(ms, if t.count < 0 then 0 else t.count, t.lastId, t.lastHash, digest, None) else NoneFound;
    var lg := LastGemini(data);
    if growth.Bad? then Stop(Raises)
    else if growth.Found? then
      var c := growth.candidate;
      Stop(Returned(Some(c.content), State(Some(session), |ms|, f.mtime, Some(f.mtime), f.size, c.id, Some(c.hash))))
    else if !grown && lg.Some? && lg.value.content != []
         && (lg.value.id != t.lastId || Some(digest(lg.value.content)) != t.lastHash) then
      Stop(Returned(Some(lg.value.content), State(Some(session), |ms|, f.mtime, Some(f.mtime), f.size, lg.value.id, Some(digest(lg.value.content)))))
    else
      var settled := Track(|ms|, t.unknown, f.mtime, f.mtime, f.size,
        if lg.Some? then lg.value.id else t.lastId,
        if lg.Some? && lg.value.content != [] then Some(digest(lg.value.content)) else t.lastHash);
      Finish(session, settled, tick, block)
  }

  /** A turn once `session` exists: a blocking call skips the read while the `stat`
      shows no change and no forced read is due; a file that cannot be opened or
      parsed ends the turn unchanged; a document that is not an object, or whose
      `messages` is a scalar, raises. */
  function ReadSession(session: Path, f: SessionFile, t: Track, tick: Tick, block: bool, digest: Digest): Decision
  {
    if block && f.mtime <= t.mtimeNs && f.size == t.size && !tick.forceDue then
      (if tick.expiredAfterSleep then Stop(Returned(None, Snapshot(session, t))) else Again(t))
    else match f.read
      case Unreadable => Finish(session, t, tick, block)
      case Undecodable => Finish(session, t, tick, block)
      case Decoded(data) =>
        match MessageList(data)
        case None => Stop(Raises)
        case Some(ms) =>
          if t.unknown then ReadUnknown(session, f, data, ms, t, tick, block, digest)
          else ReadKnown(session, f, data, ms, t, tick, block, digest)
  }

  /** The periodic rescan: a newest file other than the preferred one becomes
      preferred, and when it is not the session of the state the count, time, size, id
      and hash restart from 0 and none. `prev_mtime_ns` and the unknown-baseline flag
      are left as they were. */
  datatype Rescanned = Rescanned(preferred: Option<Path>, track: Track)

  function Rescan(preferred: Option<Path>, projectHash: string, t: Track, prevSession: Option<Path>, tick: Tick): (r: Rescanned)
    ensures r.track.mtimeNs == t.mtimeNs && r.track.unknown == t.unknown
  {
    var latest := ScanLatestSession(tick.fs, projectHash);
    if tick.rescanDue && latest.Some? && latest != preferred then
      Rescanned(latest, if latest != prevSession then t.(count := 0, mtime := 0, size := 0, lastId := None, lastHash := None) else t)
    else Rescanned(preferred, t)
  }

  /** One turn of the outer loop: the reader's fields after it, and either what the
      call returns or the loop variables for the next turn. */
  datatype Step = Done(poll: Poll, preferred: Option<Path>, projectHash: string) | Next(preferred: Option<Path>, projectHash: string, track: Track)

  function Iterate(preferred: Option<Path>, projectHash: string, t: Track, original: State, tick: Tick, block: bool, digest: Digest): Step
  {
    var rescanned := Rescan(preferred, projectHash, t, original.sessionPath, tick);
    var t1 := rescanned.track;
    var res := ResolveSession(rescanned.preferred, projectHash, tick.fs);
    if !Present(tick.fs, res.session) then
      if !block then Done(Returned(None, State(None, 0, 0, None, 0, t1.lastId, t1.lastHash)), res.preferred, res.projectHash)
      else if tick.expiredAfterSleep then Done(Returned(None, original), res.preferred, res.projectHash)
      else Next(res.preferred, res.projectHash, t1)
    else
      match ReadSession(res.session.value, tick.fs.files[res.session.value], t1, tick, block, digest)
      case Stop(poll) => Done(poll, res.preferred, res.projectHash)
      case Again(t2) => Next(res.preferred, res.projectHash, t2)
  }

  /** `_read_since` over the turns on offer, with the reader's fields afterwards. */
  datatype Outcome = Outcome(poll: Poll, preferred: Option<Path>, projectHash: string)

  function ReadSinceSpec(preferred: Option<Path>, projectHash: string, t: Track, original: State, ticks: seq<Tick>, block: bool, digest: Digest): Outcome
    decreases |ticks|
  {
    if ticks == [] then Outcome(StillWaiting, preferred, projectHash)
    else match Iterate(preferred, projectHash, t, original, ticks[0], block, digest)
      case Done(poll, p, h) => Outcome(poll, p, h)
      case Next(p, h, t2) => ReadSinceSpec(p, h, t2, original, ticks[1..], block, digest)
  }

  // ---------------------------------------------------------------------------
  // Properties of `_read_since`

  /** When the list grew, the reply is the last fresh message of the new slice, and the
      returned state records the current count and that message's id and hash. */
  lemma GrowthDeliversLastFresh(session: Path, f: SessionFile, data: Data, ms: seq<Msg>, t: Track, tick: Tick, block: bool, digest: Digest)
    requires MessageList(data) == Some(ms) && !t.unknown && 0 <= t.count < |ms|
    requires forall j :: t.count <= j < |ms| ==> !Breaks(ms[j])
    ensures var d := ReadKnown(session, f, data, ms, t, tick, block, digest);
      match LastFresh(ms, t.count, |ms|, t.lastId, t.lastHash, digest)
      case Some(k) =>
        var c := StrippedContent(ms[k].content).value;
        d == Stop(Returned(Some(c), State(Some(session), |ms|, f.mtime, Some(f.mtime), f.size, ms[k].id, Some(digest(c)))))
      case None => d.Again? || (d.poll.Returned? && d.poll.reply.None?)
  {
    NewReplyFound(ms, t.count, t.lastId, t.lastHash, digest, None);
  }

  /** Without growth the last Gemini message is delivered exactly when its content is
      non-empty and its id or hash differs from the recorded pair; so a placeholder ""
      rewritten in place to "hello" is delivered once, as "hello". */
  lemma InPlaceEditDelivered(session: Path, f: SessionFile, data: Data, ms: seq<Msg>, t: Track, tick: Tick, block: bool, digest: Digest)
    requires MessageList(data) == Some(ms) && !t.unknown && |ms| <= t.count
    ensures var d := ReadKnown(session, f, data, ms, t, tick, block, digest);
      var lg := LastGemini(data);
      (d.Stop? && d.poll.Returned? && d.poll.reply.Some?) <==>
        lg.Some? && lg.value.content != [] && (lg.value.id != t.lastId || Some(digest(lg.value.content)) != t.lastHash)
    ensures var d := ReadKnown(session, f, data, ms, t, tick, block, digest);
      d.Stop? && d.poll.Returned? && d.poll.reply.Some? ==>
        d.poll.reply.value == LastGemini(data).value.content
        && d.poll.state.lastId == LastGemini(data).value.id
        && d.poll.state.lastHash == Some(digest(LastGemini(data).value.content))
  {
  }

  /** A read that delivers nothing resets the baseline to the current count, time and
      size; the id follows the last Gemini message, whose hash is recorded only when
      its content is non-empty (otherwise the previous hash is kept). */
  lemma NoReplyResetsBaseline(session: Path, f: SessionFile, data: Data, ms: seq<Msg>, t: Track, tick: Tick, block: bool, digest: Digest)
    requires MessageList(data) == Some(ms) && !t.unknown
    requires var d := ReadKnown(session, f, data, ms, t, tick, block, digest);
      !d.Stop? || (d.poll.Returned? && d.poll.reply.None?)
    ensures var d := ReadKnown(session, f, data, ms, t, tick, block, digest);
      var s := if d.Again? then d.track else InitTrack(d.poll.state);
      var lg := LastGemini(data);
      && s.count == |ms| && s.mtime == f.mtime && s.mtimeNs == f.mtime && s.size == f.size
      && s.lastId == (if lg.Some? then lg.value.id else t.lastId)
      && s.lastHash == (if lg.Some? && lg.value.content != [] then Some(digest(lg.value.content)) else t.lastHash)
  {
  }

  /** With an unknown baseline, the first successful read delivers the last message
      exactly when it is a non-empty Gemini reply and the file's time grew or its size
      changed; otherwise (an empty list or a last message that is not an object
      included) that read becomes the baseline and the flag clears. */
  lemma UnknownBaselineResolves(session: Path, f: SessionFile, data: Data, ms: seq<Msg>, t: Track, tick: Tick, block: bool, digest: Digest)
    requires MessageList(data) == Some(ms)
    requires var last := if |ms| > 0 then ms[|ms| - 1] else NonDict;
      last.Dict? ==> BaselineContent(last.content).Some?
    ensures var d := ReadUnknown(session, f, data, ms, t, tick, block, digest);
      var last := if |ms| > 0 then ms[|ms| - 1] else NonDict;
      var content := if last.Dict? then BaselineContent(last.content).value else "";
      && (d.Stop? && d.poll.Returned? && d.poll.reply.Some? <==>
           IsGemini(last) && content != [] && (f.mtime > t.mtimeNs || f.size != t.size))
      && (d.Stop? && d.poll.Returned? && d.poll.reply.Some? ==> d.poll.reply.value == content && d.poll.state.msgCount == |ms|)
      && (d.Again? ==> !d.track.unknown && d.track.count == |ms| && d.track.mtimeNs == f.mtime && d.track.size == f.size)
  {
  }

  /** A rescan that finds a new session file restarts the count, time, size, id and
      hash from 0 and none, but keeps `prev_mtime_ns`: the time the next read compares
      against is still the old file's. */
  lemma RotationResetsCounters(preferred: Option<Path>, projectHash: string, t: Track, prevSession: Option<Path>, tick: Tick)
    requires tick.rescanDue
    requires var latest := ScanLatestSession(tick.fs, projectHash); latest.Some? && latest != preferred && latest != prevSession
    ensures var r := Rescan(preferred, projectHash, t, prevSession, tick);
      && r.preferred == ScanLatestSession(tick.fs, projectHash)
      && r.track == Track(0, t.unknown, 0, t.mtimeNs, 0, None, None)
  {
  }

  /** Re-polling a document that has not changed since a reply was delivered delivers
      nothing, provided the delivered message is still the last Gemini message of the
      list: the returned state stores the delivered id and hash. */
  lemma NoDuplicateDelivery(session: Path, f: SessionFile, data: Data, ms: seq<Msg>, delivered: State, tick: Tick, block: bool, digest: Digest)
    requires MessageList(data) == Some(ms) && delivered.msgCount == |ms|
    requires delivered.lastHash.Some? && delivered.mtimeNs.Some?
    requires var lg := LastGemini(data);
      lg.Some? && lg.value.id == delivered.lastId && delivered.lastHash == Some(digest(lg.value.content))
    ensures var d := ReadKnown(session, f, data, ms, InitTrack(delivered), tick, block, digest);
      !(d.Stop? && d.poll.Returned? && d.poll.reply.Some?)
  {
  }

  /** Without that proviso a message is delivered twice. The new slice holds a fresh
      reply A followed by B, a copy of the previously delivered message; the read
      delivers A and records A's pair, and the next poll of the same document delivers
      B, which had already been delivered before. */
  lemma DuplicateAfterSkippedCopy(digest: Digest)
    requires digest("B") == "hb" && digest("A") == "ha"
    ensures var a := Dict(Some("gemini"), Some("a"), Text("A"));
      var b := Dict(Some("gemini"), Some("b"), Text("B"));
      var ms := [a, b];
      var data := Object(List(ms));
      var f := SessionFile(Decoded(data), 5, 10);
      var before := Track(0, false, 0, 0, 0, Some("b"), Some("hb"));
      var tick := Tick(Fs(true, map[], [], map[]), false, true, false);
      var first := ReadKnown("s", f, data, ms, before, tick, false, digest);
      && first == Stop(Returned(Some("A"), State(Some("s"), 2, 5, Some(5), 10, Some("a"), Some("ha"))))
      && ReadKnown("s", f, data, ms, InitTrack(first.poll.state), tick, false, digest).poll.reply == Some("B")
  {
    var a := Dict(Some("gemini"), Some("a"), Text("A"));
    var b := Dict(Some("gemini"), Some("b"), Text("B"));
    var ms := [a, b];
    assert Strip("A") == "A" by {
      assert SkipSpaces("A", 0) == 0;
      assert SkipSpacesBack("A", 0, 1) == 1;
    }
    assert Strip("B") == "B" by {
      assert SkipSpaces("B", 0) == 0;
      assert SkipSpacesBack("B", 0, 1) == 1;
    }
    assert Fresh(a, Some("b"), Some("hb"), digest);
    assert !Fresh(b, Some("b"), Some("hb"), digest);
    var ca := Candidate("A", Some("a"), "ha");
    assert CandidateOf(a, digest) == ca;
    assert NewReplyFrom(ms, 2, Some("b"), Some("hb"), digest, Some(ca)) == Found(ca);
    assert NewReplyFrom(ms, 1, Some("b"), Some("hb"), digest, Some(ca)) == Found(ca);
    assert NewReplyFrom(ms, 0, Some("b"), Some("hb"), digest, None) == Found(ca);
    assert LastGemini(Object(List(ms))) == Some(Last(Some("b"), "B"));
  }

  /** A state captured from a document is a baseline that document cannot beat: read
      again unchanged, it delivers nothing. So a reply Gemini finished before
      `capture_state` ran (as `ask_sync` captures only after sending) is never
      delivered by the wait that follows. */
  lemma CapturedReplyNotRedelivered(session: Path, f: SessionFile, data: Data, tick: Tick, block: bool, digest: Digest)
    requires f.read == Decoded(data) && MessageList(data).Some?
    ensures var c := Baseline(session, f, data, digest);
      var d := ReadSession(session, f, InitTrack(c.state), tick, block, digest);
      c.Captured? && !(d.Stop? && d.poll.Returned? && d.poll.reply.Some?)
  {
    var ms := MessageList(data).value;
    var c := Baseline(session, f, data, digest);
    NoDuplicateAfterCapture(session, f, data, ms, c.state, tick, block, digest);
  }

  lemma NoDuplicateAfterCapture(session: Path, f: SessionFile, data: Data, ms: seq<Msg>, s: State, tick: Tick, block: bool, digest: Digest)
    requires f.read == Decoded(data) && MessageList(data) == Some(ms)
    requires s == Baseline(session, f, data, digest).state
    ensures var d := ReadSession(session, f, InitTrack(s), tick, block, digest);
      !(d.Stop? && d.poll.Returned? && d.poll.reply.Some?)
  {
    var t := InitTrack(s);
    assert !t.unknown && t.count == |ms|;
  }

  /** A blocking call with no session file anywhere keeps waiting until the deadline
      and then returns the state it was given, unchanged. */
  lemma {:induction false} NoSessionTimeoutKeepsState(preferred: Option<Path>, projectHash: string, t: Track, original: State, ticks: seq<Tick>, digest: Digest)
    requires |ticks| > 0 && ticks[|ticks| - 1].expiredAfterSleep
    requires forall k :: 0 <= k < |ticks| ==> ticks[k].fs.files == map[] && (k < |ticks| - 1 ==> !ticks[k].expiredAfterSleep)
    ensures ReadSinceSpec(preferred, projectHash, t, original, ticks, true, digest).poll == Returned(None, original)
    decreases |ticks|
  {
    var r := Rescan(preferred, projectHash, t, original.sessionPath, ticks[0]);
    var res := ResolveSession(r.preferred, projectHash, ticks[0].fs);
    assert !Present(ticks[0].fs, res.session);
    if |ticks| > 1 {
      NoSessionTimeoutKeepsState(res.preferred, res.projectHash, r.track, original, ticks[1..], digest);
      assert ticks[1..][|ticks[1..]| - 1] == ticks[|ticks| - 1];
    }
  }

  // ---------------------------------------------------------------------------
  // Intervals

  /** `_poll_interval` in milliseconds: `GEMINI_POLL_INTERVAL` (50 ms when absent or
      not a number) clamped to [20, 500]. */
  function PollIntervalMs(env: Option<int>): (ms: int)
    ensures 20 <= ms <= 500
    ensures env.None? ==> ms == 50
    ensures env.Some? && 20 <= env.value <= 500 ==> ms == env.value
  {
    Clamp(20, 500, if env.Some? then env.value else 50)
  }

  /** `_force_read_interval` in milliseconds: `GEMINI_FORCE_READ_INTERVAL` (1000 ms by
      default) clamped to [200, 5000]. */
  function ForceReadIntervalMs(env: Option<int>): (ms: int)
    ensures 200 <= ms <= 5000
    ensures env.None? ==> ms == 1000
    ensures env.Some? && 200 <= env.value <= 5000 ==> ms == env.value
  {
    Clamp(200, 5000, if env.Some? then env.value else 1000)
  }

  /** `rescan_interval` in milliseconds: half the timeout, clamped to [200, 2000]. */
  function RescanIntervalMs(timeoutMs: int): (ms: int)
    ensures 200 <= ms <= 2000
    ensures 400 <= timeoutMs <= 4000 ==> ms == timeoutMs / 2
  {
    Clamp(200, 2000, timeoutMs / 2)
  }

  // ---------------------------------------------------------------------------
  // The reader object

  /** The project directory the reader looks in: the stripped `GEMINI_PROJECT_HASH`
      when it is non-blank, otherwise the digest of the working directory. */
  function ProjectHashFor(forcedHash: Option<string>, workDir: string, sha256: Digest): (h: string)
    ensures forcedHash.Some? && !AllSpace(forcedHash.value) ==> h == Strip(forcedHash.value) && Strip(h) == h && h != []
    ensures (forcedHash.None? || AllSpace(forcedHash.value)) ==> h == sha256(workDir)
  {
    var raw := if forcedHash.Some? then forcedHash.value else "";
    StripEmptyIff(raw);
    StripIdempotent(raw);
    var forced := Strip(raw);
    if forced != [] then forced else sha256(workDir)
  }

  class GeminiLogReader {
    /** `_preferred_session` */
    var preferredSession: Option<Path>
    /** `_project_hash` */
    var projectHash: string

    /** `projectHash` is `GEMINI_PROJECT_HASH` when set, otherwise the digest of the
        working directory. */
    /** `forcedHash` is `GEMINI_PROJECT_HASH` and `sha256` the hex digest
        `_get_project_hash` applies to the working directory. */
    constructor (forcedHash: Option<string>, workDir: string, sha256: Digest)
      ensures preferredSession == None && projectHash == ProjectHashFor(forcedHash, workDir, sha256)
    {
      preferredSession := None;
      var forced := Strip(if forcedHash.Some? then forcedHash.value else "");
      if forced != [] {
        projectHash := forced;
      } else {
        projectHash := sha256(workDir);
      }
    }

    /** `set_preferred_session`: only an existing file is accepted. */
    method SetPreferredSession(sessionPath: Option<Path>, fs: Fs)
      modifies this
      ensures preferredSession == (if sessionPath.Some? && sessionPath.value != [] && Present(fs, sessionPath) then sessionPath else old(preferredSession))
      ensures projectHash == old(projectHash)
    {
      if sessionPath.None? || sessionPath.value == [] {
        return;
      }
      if Present(fs, sessionPath) {
        preferredSession := sessionPath;
      }
    }

    /** `_latest_session` (also `current_session_path`) */
    method LatestSession(fs: Fs) returns (session: Option<Path>)
      modifies this
      ensures Resolution(session, preferredSession, projectHash) == ResolveSession(old(preferredSession), old(projectHash), fs)
    {
      var preferred := preferredSession;
      var latest := ScanLatestSession(fs, projectHash);
      if latest.Some? {
        if !Present(fs, preferred) || latest != preferred {
          var preferredMtime := if Present(fs, preferred) then fs.files[preferred.value].mtime else 0;
          if fs.files[latest.value].mtime > preferredMtime {
            preferredSession := latest;
            var hash := ProjectHashOf(latest.value);
            if hash != "" {
              projectHash := hash;
            }
            return latest;
          }
        }
        return preferred;
      }
      return if Present(fs, preferred) then preferred else None;
    }

    /** `_extract_last_gemini` */
    static method ExtractLastGemini(data: Data) returns (last: Option<Last>)
      ensures last == LastGemini(data)
    {
      if !(data.Object? && data.messages.List?) {
        return None;
      }
      var ms := data.messages.items;
      var i := |ms|;
      while i > 0
        invariant 0 <= i <= |ms|
        invariant LastGeminiIndex(ms, |ms|) == LastGeminiIndex(ms, i)
      {
        var m := ms[i - 1];
        if m.Dict? && m.msgType == Some("gemini") {
          return Some(Last(m.id, Strip(ContentString(m.content))));
        }
        i := i - 1;
      }
      return None;
    }

    /** `capture_state`; `attempts(k)` is what the `k`-th parse attempt sees. */
    method CaptureState(fs: Fs, attempts: nat -> FileRead, digest: Digest) returns (capture: Capture)
      modifies this
      ensures Captures(capture, preferredSession, projectHash) == CaptureSpec(old(preferredSession), old(projectHash), fs, attempts, digest)
    {
      var session := LatestSession(fs);
      if !Present(fs, session) {
        return Captured(State(session, 0, 0, Some(0), 0, None, None));
      }
      var f := fs.files[session.value];
      var data: Option<Data> := None;
      var attempt := 0;
      while attempt < ATTEMPTS
        invariant 0 <= attempt <= ATTEMPTS
        invariant FirstParse(attempts, 0) == FirstParse(attempts, attempt)
        decreases ATTEMPTS - attempt
      {
        var read := attempts(attempt);
        if read.Decoded? {
          if read.data.Object? {
            data := Some(read.data);
          }
          break;
        }
        if read.Unreadable? {
          break;
        }
        attempt := attempt + 1;
      }
      if data.None? {
        return Captured(State(session, -1, f.mtime, Some(f.mtime), f.size, None, None));
      }
      var ms := MessageList(data.value);
      if ms.None? {
        return CaptureRaised;
      }
      var last := ExtractLastGemini(data.value);
      var lastId: Option<string> := None;
      var lastHash: Option<string> := None;
      if last.Some? {
        lastId := last.value.id;
        lastHash := Some(digest(last.value.content));
      }
      return Captured(State(session, |ms.value|, f.mtime, Some(f.mtime), f.size, lastId, lastHash));
    }

    /** `latest_message` */
    method LatestMessage(fs: Fs) returns (message: Latest)
      modifies this
      ensures var res := ResolveSession(old(preferredSession), old(projectHash), fs);
        && preferredSession == res.preferred && projectHash == res.projectHash
        && message == if Present(fs, res.session) then LatestMessageOf(fs.files[res.session.value].read) else NoReply
    {
      var session := LatestSession(fs);
      if !Present(fs, session) {
        return NoReply;
      }
      var read := fs.files[session.value].read;
      if !read.Decoded? {
        return NoReply;
      }
      var ms := MessageList(read.data);
      if ms.None? {
        return Raised;
      }
      var items := ms.value;
      var i := |items|;
      while i > 0
        invariant 0 <= i <= |items|
        invariant LatestIn(items, |items|) == LatestIn(items, i)
      {
        var m := items[i - 1];
        if m.NonDict? {
          return Raised;
        }
        if m.msgType == Some("gemini") {
          var content := StrippedContent(m.content);
          if content.None? {
            return Raised;
          }
          return Reply(content.value);
        }
        i := i - 1;
      }
      return NoReply;
    }

    /** The loop over `messages[from:]` of `_read_since` when the list grew. */
    static method ScanNewMessages(ms: seq<Msg>, from: nat, lastId: Option<string>, lastHash: Option<string>, digest: Digest)
      returns (growth: Growth)
      ensures growth == NewReplyFrom(ms, from, lastId, lastHash, digest, None)
    {
      var found: Option<Candidate> := None;
      var i := from;
      while i < |ms|
        invariant from <= i || i >= |ms|
        invariant NewReplyFrom(ms, from, lastId, lastHash, digest, None) == NewReplyFrom(ms, i, lastId, lastHash, digest, found)
        decreases |ms| - i
      {
        var m := ms[i];
        if m.NonDict? {
          return Bad;
        }
        if m.msgType == Some("gemini") {
          var content := StrippedContent(m.content);
          if content.None? {
            return Bad;
          }
          if content.value != [] {
            var hash := digest(content.value);
            if !(m.id == lastId && Some(hash) == lastHash) {
              found := Some(Candidate(content.value, m.id, hash));
            }
          }
        }
        i := i + 1;
      }
      return if found.Some? then Found(found.value) else NoneFound;
    }

    /** `_read_since`, `wait_for_message` (`block`) and `try_get_message` (not `block`),
        over the turns `ticks` of its polling loop. */
    method ReadSince(state: State, ticks: seq<Tick>, block: bool, digest: Digest) returns (result: Poll)
      modifies this
      ensures Outcome(result, preferredSession, projectHash)
        == ReadSinceSpec(old(preferredSession), old(projectHash), InitTrack(state), state, ticks, block, digest)
    {
      var t := InitTrack(state);
      var i := 0;
      while i < |ticks|
        invariant 0 <= i <= |ticks|
        invariant ReadSinceSpec(old(preferredSession), old(projectHash), InitTrack(state), state, ticks, block, digest)
          == ReadSinceSpec(preferredSession, projectHash, t, state, ticks[i..], block, digest)
      {
        var tick := ticks[i];
        ghost var step := Iterate(preferredSession, projectHash, t, state, tick, block, digest);
        assert ticks[i..][1..] == ticks[i + 1..];
        assert ReadSinceSpec(preferredSession, projectHash, t, state, ticks[i..], block, digest)
          == (match step
              case Done(poll, p, h) => Outcome(poll, p, h)
              case Next(p, h, t2) => ReadSinceSpec(p, h, t2, state, ticks[i + 1..], block, digest));
        var rescanned := Rescan(preferredSession, projectHash, t, state.sessionPath, tick);
        preferredSession := rescanned.preferred;
        t := rescanned.track;
        var session := LatestSession(tick.fs);
        if !Present(tick.fs, session) {
          if !block {
            return Returned(None, State(None, 0, 0, None, 0, t.lastId, t.lastHash));
          }
          if tick.expiredAfterSleep {
            return Returned(None, state);
          }
        } else {
          var decision := ReadTurn(session.value, tick.fs.files[session.value], t, tick, block, digest);
          if decision.Stop? {
            return decision.poll;
          }
          t := decision.track;
        }
        i := i + 1;
      }
      return StillWaiting;
    }

    /** The body of the loop of `_read_since` once the session file exists. */
    static method ReadTurn(session: Path, f: SessionFile, t: Track, tick: Tick, block: bool, digest: Digest)
      returns (decision: Decision)
      ensures decision == ReadSession(session, f, t, tick, block, digest)
    {
      if block && f.mtime <= t.mtimeNs && f.size == t.size && !tick.forceDue {
        return if tick.expiredAfterSleep then Stop(Returned(None, Snapshot(session, t))) else Again(t);
      }
      if !f.read.Decoded? {
        return Finish(session, t, tick, block);
      }
      var data := f.read.data;
      var list := MessageList(data);
      if list.None? {
        return Stop(Raises);
      }
      var ms := list.value;
      if t.unknown {
        decision := ReadUnknownTurn(session, f, data, ms, t, tick, block, digest);
      } else {
        decision := ReadKnownTurn(session, f, data, ms, t, tick, block, digest);
      }
    }

    /** The unknown-baseline branch of the loop body. */
    static method ReadUnknownTurn(session: Path, f: SessionFile, data: Data, ms: seq<Msg>, t: Track, tick: Tick, block: bool, digest: Digest)
      returns (decision: Decision)
      requires MessageList(data) == Some(ms)
      ensures decision == ReadUnknown(session, f, data, ms, t, tick, block, digest)
    {
      var last := if |ms| > 0 then ms[|ms| - 1] else NonDict;
      if last.Dict? && BaselineContent(last.content).None? {
        return Stop(Raises);
      }
      var content := if last.Dict? then BaselineContent(last.content).value else "";
      if last.Dict? && last.msgType == Some("gemini") && content != "" && (f.mtime > t.mtimeNs || f.size != t.size) {
        return Stop(Returned(Some(content), State(Some(session), |ms|, f.mtime, Some(f.mtime), f.size, last.id, Some(digest(content)))));
      }
      var lg := ExtractLastGemini(data);
      var base := Track(|ms|, false, f.mtime, f.mtime, f.size, t.lastId, t.lastHash);
      if lg.Some? {
        base := base.(lastId := lg.value.id, lastHash := if lg.value.content != "" then Some(digest(lg.value.content)) else None);
      }
      return Finish(session, base, tick, block);
    }

    /** The known-baseline branch of the loop body: growth, then an in-place edit,
        then the settled baseline. */
    static method ReadKnownTurn(session: Path, f: SessionFile, data: Data, ms: seq<Msg>, t: Track, tick: Tick, block: bool, digest: Digest)
      returns (decision: Decision)
      requires MessageList(data) == Some(ms)
      ensures decision == ReadKnown(session, f, data, ms, t, tick, block, digest)
    {
      var lg := ExtractLastGemini(data);
      if |ms| > t.count {
        var growth := ScanNewMessages(ms, if t.count < 0 then 0 else t.count, t.lastId, t.lastHash, digest);
        if growth.Bad? {
          return Stop(Raises);
        }
        if growth.Found? {
          var c := growth.candidate;
          return Stop(Returned(Some(c.content), State(Some(session), |ms|, f.mtime, Some(f.mtime), f.size, c.id, Some(c.hash))));
        }
      } else if lg.Some? && lg.value.content != [] {
        var hash := digest(lg.value.content);
        if lg.value.id != t.lastId || Some(hash) != t.lastHash {
          return Stop(Returned(Some(lg.value.content), State(Some(session), |ms|, f.mtime, Some(f.mtime), f.size, lg.value.id, Some(hash))));
        }
      }
      var settled := t.(count := |ms|, mtime := f.mtime, mtimeNs := f.mtime, size := f.size);
      if lg.Some? {
        settled := settled.(lastId := lg.value.id);
        if lg.value.content != [] {
          settled := settled.(lastHash := Some(digest(lg.value.content)));
        }
      }
      return Finish(session, settled, tick, block);
    }
  }
}
