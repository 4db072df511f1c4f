/** The project session descriptor (`.codex-session`, `.gemini-session`): a JSON
    object the launcher writes and the communicators update in place, keeping every
    key they do not own. */
module Descriptor {

  /** A JSON value of the descriptor, as far as the updates look at it: strings and
      booleans are compared; null and every other value are only kept. */
  datatype Value = Str(s: string) | Bool(b: bool) | Null | Other

  type Doc = map<string, Value>

  /** What `json.load` made of the descriptor file. */
  datatype Loaded = NotAnObject | Object(doc: Doc)

  /** `project_session_file` as an update finds it: not configured, missing,
      unreadable or not JSON, or loaded. */
  datatype ProjectFile = NotConfigured | Missing | Unloadable | Parsed(loaded: Loaded)

  /** `data.get(key) != value`: a missing key reads as `None`, which differs from any string. */
  predicate Differs(data: Doc, key: string, value: string)
  {
    key !in data || data[key] != Str(value)
  }
}
