/** A Gemini chat session file (`session-*.json`) after `json.load`, and the rules
    that read replies out of it: `GeminiLogReader._extract_last_gemini` and the scan of
    `latest_message`. The whole document is rewritten in place by Gemini, so readers
    look at its `messages` list rather than at byte offsets. */
module GeminiDoc {
  import opened Common

  /** A message's `content`: absent, a string, `null`, or some other (truthy, non-string)
      JSON value, which `str()` renders as `repr`. */
  datatype Content = NoContent | Text(s: string) | NullContent | OtherContent(repr: string)

  /** One element of `messages`: not an object, or an object with its string `type`
      (None when absent or not a string), its `id` and its `content`. */
  datatype Msg = NonDict | Dict(msgType: Option<string>, id: Option<string>, content: Content)

  /** The `messages` field: absent, a list, or a scalar (number, boolean, null), for
      which `len()` and `reversed()` raise. */
  datatype Messages = Missing | List(items: seq<Msg>) | Scalar

  /** The top-level JSON value. */
  datatype Data = NotObject | Object(messages: Messages)

  /** One attempt to open and parse the file: it cannot be opened, it is not (yet)
      valid JSON, or it parses. */
  datatype FileRead = Unreadable | Undecodable | Decoded(data: Data)

  /** `(id, content)` as `_extract_last_gemini` returns it. */
  datatype Last = Last(id: Option<string>, content: string)

  /** `msg.get("type") == "gemini"` on an object. */
  predicate IsGemini(m: Msg)
  {
    m.Dict? && m.msgType == Some("gemini")
  }

  /** `content = msg.get("content", ""); if not isinstance(content, str): content = str(content)` */
  function ContentString(c: Content): string
  {
    match c
    case NoContent => ""
    case Text(s) => s
    case NullContent => "None"
    case OtherContent(repr) => repr
  }

  /** `data.get("messages", [])` followed by `len()`: None where Python raises. */
  function MessageList(data: Data): Option<seq<Msg>>
  {
    match data
    case NotObject => None
    case Object(Missing) => Some([])
    case Object(List(ms)) => Some(ms)
    case Object(Scalar) => None
  }

  /** The index of the last Gemini message in `ms[..i]`. */
  function LastGeminiIndex(ms: seq<Msg>, i: nat): (r: Option<nat>)
    requires i <= |ms|
    ensures r.Some? ==> r.value < i && IsGemini(ms[r.value])
    decreases i
  {
    if i == 0 then None
    else if IsGemini(ms[i - 1]) then Some(i - 1)
    else LastGeminiIndex(ms, i - 1)
  }

  /** No Gemini message lies between the one found and `i`, and nothing is found
      exactly when there is none below `i`. */
  lemma {:induction false} LastGeminiIndexIsLast(ms: seq<Msg>, i: nat)
    requires i <= |ms|
    ensures var r := LastGeminiIndex(ms, i);
      && (r.Some? ==> forall j :: r.value < j < i ==> !IsGemini(ms[j]))
      && (r.None? <==> forall j :: 0 <= j < i ==> !IsGemini(ms[j]))
    decreases i
  {
    if i > 0 && !IsGemini(ms[i - 1]) {
      LastGeminiIndexIsLast(ms, i - 1);
    }
  }

  /** `_extract_last_gemini(payload)` */
  function LastGemini(data: Data): Option<Last>
  {
    var ms := if data.Object? && data.messages.List? then data.messages.items else [];
    match LastGeminiIndex(ms, |ms|)
    case None => None
    case Some(k) => Some(Last(ms[k].id, Strip(ContentString(ms[k].content))))
  }

  /** `_extract_last_gemini` yields the id and stripped content of the last object in
      `messages` whose type is "gemini", skipping every other element, and nothing
      when there is no such message or `messages` is not a list. */
  lemma LastGeminiIsLast(data: Data)
    ensures LastGemini(data).Some? ==>
      data.Object? && data.messages.List?
      && var ms := data.messages.items;
        exists k :: 0 <= k < |ms| && IsGemini(ms[k])
          && LastGemini(data) == Some(Last(ms[k].id, Strip(ContentString(ms[k].content))))
          && forall j :: k < j < |ms| ==> !IsGemini(ms[j])
    ensures LastGemini(data).None? <==>
      !(data.Object? && data.messages.List?) || forall j :: 0 <= j < |data.messages.items| ==> !IsGemini(data.messages.items[j])
  {
    var ms := if data.Object? && data.messages.List? then data.messages.items else [];
    LastGeminiIndexIsLast(ms, |ms|);
  }

  /** What `latest_message` makes of one read of the file. */
  datatype Latest = NoReply | Reply(text: string) | Raised

  /** `msg.get("content", "").strip()`: None where a non-string content makes `.strip()` raise. */
  function StrippedContent(c: Content): Option<string>
  {
    match c
    case NoContent => Some("")
    case Text(s) => Some(Strip(s))
    case NullContent => None
    case OtherContent(_) => None
  }

  /** The backwards scan of `latest_message` over `ms[..i]`: `msg.get` raises on a
      non-object met before a Gemini message is found. */
  function LatestIn(ms: seq<Msg>, i: nat): Latest
    requires i <= |ms|
    decreases i
  {
    if i == 0 then NoReply
    else
      var m := ms[i - 1];
      if m.NonDict? then Raised
      else if m.msgType == Some("gemini") then
        match StrippedContent(m.content)
        case Some(text) => Reply(text)
        case None => Raised
      else LatestIn(ms, i - 1)
  }

  /** `latest_message` on one read of the session file: an unreadable or undecodable
      file gives nothing; a document that is not an object, or whose `messages` is a
      scalar, raises. */
  function LatestMessageOf(read: FileRead): Latest
  {
    match read
    case Unreadable => NoReply
    case Undecodable => NoReply
    case Decoded(NotObject) => Raised
    case Decoded(Object(Missing)) => NoReply
    case Decoded(Object(Scalar)) => Raised
    case Decoded(Object(List(ms))) => LatestIn(ms, |ms|)
  }

  /** When the scan neither raises nor meets a non-string content, `latest_message`
      returns exactly the content `_extract_last_gemini` extracts (possibly ""), and it
      returns nothing exactly when there is no Gemini message. */
  lemma {:induction false} LatestInAgreesWithLastGemini(ms: seq<Msg>, i: nat)
    requires i <= |ms|
    requires forall j :: 0 <= j < i ==> ms[j].Dict? && (IsGemini(ms[j]) ==> StrippedContent(ms[j].content).Some?)
    ensures var k := LastGeminiIndex(ms, i);
      LatestIn(ms, i) == if k.None? then NoReply else Reply(Strip(ContentString(ms[k.value].content)))
    decreases i
  {
    if i > 0 && !IsGemini(ms[i - 1]) {
      LatestInAgreesWithLastGemini(ms, i - 1);
    }
  }
}
