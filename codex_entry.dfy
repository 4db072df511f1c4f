/** One decoded record of a Codex JSONL session log and the rule that picks the
    assistant's reply text out of it (`CodexLogReader._extract_message`). */
module CodexEntry {
  import opened Common

  /** An element of `payload.content`; a missing or null `text` reads as "" (both are
      dropped by the join, exactly as Python's `filter(None, ...)` drops them). */
  datatype ContentItem = ContentItem(itemType: Option<string>, text: string)

  /** `payload`: its `type` (None when absent or not a string), its `content` list
      (`payload.get("content") or []`), and the legacy `message` field when it is a string. */
  datatype Payload = Payload(payloadType: Option<string>, content: seq<ContentItem>, message: Option<string>)

  /** One JSON object of the log; a missing `payload` behaves like `{}`. */
  datatype Entry = Entry(entryType: Option<string>, payload: Option<Payload>)

  /** One complete line of the log after UTF-8 decoding and `json.loads`:
      blank and undecodable lines are both skipped by every reader. */
  datatype Line = Undecodable | Decoded(entry: Entry)

  predicate IsOutputText(item: ContentItem)
  {
    item.itemType == Some("output_text")
  }

  /** `[item.get("text", "") for item in content if item.get("type") == "output_text"]` */
  function OutputTexts(content: seq<ContentItem>): (texts: seq<string>)
    ensures |texts| <= |content|
    ensures texts == [] <==> forall i :: 0 <= i < |content| ==> !IsOutputText(content[i])
    ensures forall k :: 0 <= k < |texts| ==> exists i :: 0 <= i < |content| && IsOutputText(content[i]) && content[i].text == texts[k]
  {
    if content == [] then []
    else
      var rest := OutputTexts(content[1..]);
      assert forall i :: 1 <= i < |content| ==> content[i] == content[1..][i - 1];
      if IsOutputText(content[0]) then [content[0].text] + rest else rest
  }

  /** The entry is an assistant message record: `type == "response_item"` and
      `payload.type == "message"`. */
  predicate IsResponseMessage(e: Entry)
  {
    e.entryType == Some("response_item") && e.payload.Some? && e.payload.value.payloadType == Some("message")
  }

  /** `CodexLogReader._extract_message`: the joined `output_text` fragments, or the
      legacy `payload.message` when there is no `output_text` item at all. */
  function ExtractMessage(e: Entry): (r: Option<string>)
    ensures r.Some? ==> IsResponseMessage(e)
    ensures r.Some? ==> Strip(r.value) == r.value
  {
    if !IsResponseMessage(e) then None
    else
      var p := e.payload.value;
      var texts := OutputTexts(p.content);
      if texts != [] then
        StripIdempotent(JoinNonEmpty("\n", texts));
        Some(Strip(JoinNonEmpty("\n", texts)))
      else if p.message.Some? && Strip(p.message.value) != [] then
        StripIdempotent(p.message.value);
        Some(Strip(p.message.value))
      else None
  }

  /** The reply can be the empty string, and that happens exactly when the record has
      `output_text` items and every one of their texts is blank. Callers that test
      `is not None` deliver such a reply; callers that test truthiness skip it. */
  lemma ExtractMessageEmptyIff(e: Entry)
    ensures ExtractMessage(e) == Some("") <==>
      IsResponseMessage(e) && OutputTexts(e.payload.value.content) != []
      && forall k :: 0 <= k < |OutputTexts(e.payload.value.content)| ==> AllSpace(OutputTexts(e.payload.value.content)[k])
  {
    if IsResponseMessage(e) {
      var texts := OutputTexts(e.payload.value.content);
      JoinNonEmptyAllSpace("\n", texts);
      StripEmptyIff(JoinNonEmpty("\n", texts));
      if e.payload.value.message.Some? {
        StripEmptyIff(e.payload.value.message.value);
      }
    }
  }

  /** The legacy `payload.message` only matters when there is no `output_text` item:
      replacing it changes nothing for a record that has one. */
  lemma LegacyMessageIgnoredWithOutputText(e: Entry, other: Option<string>)
    requires IsResponseMessage(e) && OutputTexts(e.payload.value.content) != []
    ensures ExtractMessage(e.(payload := Some(e.payload.value.(message := other)))) == ExtractMessage(e)
  {
  }

  /** Without `output_text` items the fallback yields a reply exactly when the legacy
      message is a non-blank string, and that reply is never empty. */
  lemma FallbackReply(e: Entry)
    requires IsResponseMessage(e) && OutputTexts(e.payload.value.content) == []
    ensures ExtractMessage(e).Some? <==> e.payload.value.message.Some? && !AllSpace(e.payload.value.message.value)
    ensures ExtractMessage(e).Some? ==> ExtractMessage(e).value != []
  {
    if e.payload.value.message.Some? {
      StripEmptyIff(e.payload.value.message.value);
    }
  }
}
