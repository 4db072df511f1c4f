/** Recovering a Codex session id from a log file (`CodexCommunicator._extract_session_id`):
    the first match of the 8-4-4-4-12 hexadecimal UUID string form (section 3 of
    RFC 4122, matched case-insensitively) in the file stem, the file name, the first
    line, and then three fields of the first line's JSON object. */
module SessionId {
  import opened Common

  const UUID_LEN: nat := 36

  predicate IsHexDigit(c: char)
  {
    ('0' <= c <= '9') || ('a' <= c <= 'f') || ('A' <= c <= 'F')
  }

  predicate IsDashPosition(k: int)
  {
    k == 8 || k == 13 || k == 18 || k == 23
  }

  /** `[0-9a-f]{8}-[0-9a-f]{4}-[0-9a-f]{4}-[0-9a-f]{4}-[0-9a-f]{12}` with IGNORECASE. */
  predicate IsUuidShaped(s: string)
  {
    |s| == UUID_LEN && forall k :: 0 <= k < |s| ==> if IsDashPosition(k) then s[k] == '-' else IsHexDigit(s[k])
  }

  predicate MatchesAt(s: string, i: int)
  {
    0 <= i && i + UUID_LEN <= |s| && IsUuidShaped(s[i..i + UUID_LEN])
  }

  function SearchFrom(s: string, i: nat): (r: Option<nat>)
    requires i <= |s|
    ensures r.Some? ==> i <= r.value && MatchesAt(s, r.value) && forall j :: i <= j < r.value ==> !MatchesAt(s, j)
    ensures r.None? ==> forall j :: i <= j <= |s| ==> !MatchesAt(s, j)
    decreases |s| - i
  {
    if i + UUID_LEN > |s| then None
    else if IsUuidShaped(s[i..i + UUID_LEN]) then Some(i)
    else SearchFrom(s, i + 1)
  }

  /** `SESSION_ID_PATTERN.search(s)`: the leftmost UUID-shaped substring. */
  function Search(s: string): (r: Option<string>)
    ensures r.Some? ==> IsUuidShaped(r.value)
    ensures r.Some? ==> exists i :: MatchesAt(s, i) && s[i..i + UUID_LEN] == r.value && forall j :: 0 <= j < i ==> !MatchesAt(s, j)
    ensures r.None? <==> forall i :: 0 <= i <= |s| ==> !MatchesAt(s, i)
  {
    match SearchFrom(s, 0)
    case None => None
    case Some(i) => Some(s[i..i + UUID_LEN])
  }

  /** `session` inside the payload of the first line: absent (reads as `{}`), an object
      with an optional string `id`, or any other value, on which `.get` raises. */
  datatype SessionField = NoSession | SessionObject(id: Option<string>) | SessionNonObject

  /** `payload` of the first line: an object (a missing payload reads as `{}`, i.e.
      `PayloadObject(None, NoSession)`) or any non-object value. */
  datatype PayloadField = PayloadObject(id: Option<string>, session: SessionField) | PayloadNonObject

  /** The first line after `json.loads`: not JSON, a non-object value, or an object with
      its string `session_id` (None when absent or not a string) and its payload. */
  datatype Header = NotJson | HeaderNonObject | HeaderObject(sessionId: Option<string>, payload: PayloadField)

  /** What the file offers: its name, its first line (None when it cannot be opened;
      "" when it is empty) and that line's JSON reading. */
  datatype LogFacts = LogFacts(name: string, firstLine: Option<string>, header: Header)

  datatype Lookup = Found(id: string) | NotFound | Raises

  /** `Path.stem`: the name without its last suffix (`0 < i < len(name) - 1` for the
      last dot at `i`). */
  function Stem(name: string): (r: string)
    ensures |r| <= |name| && r == name[..|r|]
  {
    LastDotStem(name, |name|)
  }

  function LastDotStem(name: string, k: nat): (r: string)
    requires k <= |name|
    ensures |r| <= |name| && r == name[..|r|]
    decreases k
  {
    if k == 0 then name
    else if name[k - 1] == '.' then
      (if 0 < k - 1 < |name| - 1 then name[..k - 1] else name)
    else LastDotStem(name, k - 1)
  }

  /** The three header candidates, in the source's order. Building the list evaluates
      `payload.get("session", {}).get("id")` eagerly, so a non-object `session` raises
      even when an earlier candidate would have matched. */
  function HeaderCandidates(h: Header): (r: Option<seq<Option<string>>>)
    ensures r.None? <==> h.HeaderObject? && h.payload.PayloadObject? && h.payload.session.SessionNonObject?
  {
    match h
    case NotJson => Some([])
    case HeaderNonObject => Some([None, None, None])
    case HeaderObject(sid, PayloadNonObject) => Some([sid, None, None])
    case HeaderObject(sid, PayloadObject(pid, NoSession)) => Some([sid, pid, None])
    case HeaderObject(sid, PayloadObject(pid, SessionObject(id))) => Some([sid, pid, id])
    case HeaderObject(sid, PayloadObject(pid, SessionNonObject)) => None
  }

  /** A candidate that is present and holds a UUID-shaped substring. */
  predicate Hits(c: Option<string>)
  {
    c.Some? && Search(c.value).Some?
  }

  /** `for candidate in candidates: ... match = SESSION_ID_PATTERN.search(candidate)`:
      the match of the first candidate that has one. */
  function FirstCandidateMatch(cs: seq<Option<string>>): (r: Option<string>)
    ensures r.Some? ==> IsUuidShaped(r.value)
    ensures r.Some? ==> exists k :: 0 <= k < |cs| && Hits(cs[k]) && Search(cs[k].value) == r && forall j :: 0 <= j < k ==> !Hits(cs[j])
    ensures r.None? <==> forall k :: 0 <= k < |cs| && cs[k].Some? ==> Search(cs[k].value).None?
  {
    if cs == [] then None
    else if Hits(cs[0]) then Search(cs[0].value)
    else
      var r := FirstCandidateMatch(cs[1..]);
      assert forall k :: 1 <= k < |cs| ==> cs[k] == cs[1..][k - 1];
      r
  }

  /** The candidates are tried in order: the first one that holds a UUID decides,
      whatever the later ones hold. */
  lemma {:induction false} FirstCandidateMatchAt(cs: seq<Option<string>>, k: nat)
    requires k < |cs| && Hits(cs[k])
    requires forall j :: 0 <= j < k ==> !Hits(cs[j])
    ensures FirstCandidateMatch(cs) == Search(cs[k].value)
    decreases k
  {
    if k > 0 {
      assert forall j :: 0 <= j < k - 1 ==> cs[1..][j] == cs[j + 1];
      FirstCandidateMatchAt(cs[1..], k - 1);
    }
  }

  /** `CodexCommunicator._extract_session_id` */
  function ExtractSessionId(f: LogFacts): (r: Lookup)
    ensures r.Found? ==> IsUuidShaped(r.id)
  {
    var stem := Stem(f.name);
    if Search(stem).Some? then Found(Search(stem).value)
    else if Search(f.name).Some? then Found(Search(f.name).value)
    else match f.firstLine
      case None => NotFound
      case Some(line) =>
        if line == [] then NotFound
        else if Search(line).Some? then Found(Search(line).value)
        else if f.header.NotJson? then NotFound
        else match HeaderCandidates(f.header)
          case None => Raises
          case Some(cs) =>
            match FirstCandidateMatch(cs)
            case Some(id) => Found(id)
            case None => NotFound
  }

  /** A UUID in the file name wins over anything inside the file, whatever the file
      holds (it is not even opened). */
  lemma NameWins(f: LogFacts, u: string)
    requires Search(f.name) == Some(u)
    ensures ExtractSessionId(f).Found?
    ensures ExtractSessionId(f) == Found(u) || ExtractSessionId(f) == Found(Search(Stem(f.name)).value)
  {
  }

  /** An empty or unreadable file yields an id only through its name. */
  lemma NoFirstLineNoContentId(f: LogFacts)
    requires f.firstLine == None || f.firstLine == Some([])
    ensures ExtractSessionId(f).Found? <==> Search(Stem(f.name)).Some? || Search(f.name).Some?
    ensures !ExtractSessionId(f).Raises?
  {
  }

  /** When no source holds a UUID-shaped substring the lookup never succeeds, and it
      raises only for an object header whose `payload.session` is not an object. */
  lemma NoUuidAnywhere(f: LogFacts)
    requires Search(f.name).None? && Search(Stem(f.name)).None?
    requires f.firstLine.Some? && f.firstLine.value != [] && Search(f.firstLine.value).None?
    requires f.header.HeaderObject? ==> (f.header.sessionId.Some? ==> Search(f.header.sessionId.value).None?)
    requires f.header.HeaderObject? && f.header.payload.PayloadObject? ==>
      (f.header.payload.id.Some? ==> Search(f.header.payload.id.value).None?)
      && (f.header.payload.session.SessionObject? && f.header.payload.session.id.Some? ==> Search(f.header.payload.session.id.value).None?)
    ensures ExtractSessionId(f) == (if f.header.HeaderObject? && f.header.payload.PayloadObject? && f.header.payload.session.SessionNonObject? then Raises else NotFound)
  {
    match HeaderCandidates(f.header)
    case None =>
    case Some(cs) =>
      assert forall k :: 0 <= k < |cs| && cs[k].Some? ==> Search(cs[k].value).None?;
  }

  /** Once the name holds no UUID, a UUID in the non-empty first line wins over every
      field of its JSON reading. */
  lemma FirstLineBeforeHeader(f: LogFacts, u: string)
    requires Search(f.name).None? && Search(Stem(f.name)).None?
    requires f.firstLine.Some? && f.firstLine.value != [] && Search(f.firstLine.value) == Some(u)
    ensures ExtractSessionId(f) == Found(u)
  {
  }

  /** With no UUID in the name or the raw first line, the header fields are tried in
      the source's order: `session_id`, then `payload.id`, then `payload.session.id`. */
  lemma HeaderFieldOrder(f: LogFacts)
    requires Search(f.name).None? && Search(Stem(f.name)).None?
    requires f.firstLine.Some? && f.firstLine.value != [] && Search(f.firstLine.value).None?
    requires f.header.HeaderObject? && !(f.header.payload.PayloadObject? && f.header.payload.session.SessionNonObject?)
    ensures var h := f.header;
      && (Hits(h.sessionId) ==> ExtractSessionId(f) == Found(Search(h.sessionId.value).value))
      && (!Hits(h.sessionId) && h.payload.PayloadObject? && Hits(h.payload.id) ==>
            ExtractSessionId(f) == Found(Search(h.payload.id.value).value))
      && (!Hits(h.sessionId) && h.payload.PayloadObject? && !Hits(h.payload.id)
          && h.payload.session.SessionObject? && Hits(h.payload.session.id) ==>
            ExtractSessionId(f) == Found(Search(h.payload.session.id.value).value))
  {
    var h := f.header;
    var cs := HeaderCandidates(h).value;
    assert cs[0] == h.sessionId;
    if Hits(h.sessionId) {
      FirstCandidateMatchAt(cs, 0);
    } else if h.payload.PayloadObject? && Hits(h.payload.id) {
      assert cs[1] == h.payload.id;
      FirstCandidateMatchAt(cs, 1);
    } else if h.payload.PayloadObject? && h.payload.session.SessionObject? && Hits(h.payload.session.id) {
      assert cs[1] == h.payload.id && cs[2] == h.payload.session.id;
      FirstCandidateMatchAt(cs, 2);
    }
  }

  /** A UUID in the stem is found at the same leftmost place in the whole name (the
      stem is a prefix of the name), so searching the name second never changes the
      answer once the stem matched. */
  lemma StemMatchIsNameMatch(name: string)
    requires Search(Stem(name)).Some?
    ensures Search(name) == Search(Stem(name))
  {
    var stem := Stem(name);
    var i :| MatchesAt(stem, i) && stem[i..i + UUID_LEN] == Search(stem).value && forall j :: 0 <= j < i ==> !MatchesAt(stem, j);
    assert name[i..i + UUID_LEN] == stem[i..i + UUID_LEN];
    assert MatchesAt(name, i);
    forall j | 0 <= j < i ensures !MatchesAt(name, j) {
      assert name[j..j + UUID_LEN] == stem[j..j + UUID_LEN];
      assert !MatchesAt(stem, j);
      assert !IsUuidShaped(name[j..j + UUID_LEN]);
    }
    var r := Search(name);
    var i' :| MatchesAt(name, i') && name[i'..i' + UUID_LEN] == r.value && forall j :: 0 <= j < i' ==> !MatchesAt(name, j);
    assert i' == i;
  }
}
