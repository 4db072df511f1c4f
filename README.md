# claude_code_bridge: log readers, session binding and terminal backends in Dafny

This project models the core of the bridge that lets one AI assistant talk to Codex
and Gemini running in terminal panes:

- `CodexLogReader` (`lib/codex_comm.py`): a byte-offset cursor over Codex's
  append-only JSONL session logs. It picks the newest log and keeps it as the
  preferred one. It reads complete lines only, and it extracts the assistant's
  reply from each record. It follows a log rotation, and it reads the tail of the
  log for `latest_message`.
- `CodexCommunicator` (`lib/codex_comm.py`): how a log is bound to the project's
  `.codex-session` descriptor. It recovers the session id from the log's name or
  first line, makes the dictionary update, and keeps the in-memory `session_info`.
  The health decision is also modelled.
- `GeminiLogReader` (`lib/gemini_comm.py`): a cursor over Gemini's chat session
  files, which Gemini rewrites in place. The cursor records the message count, the
  modification time, the size, and the id and content hash of the last Gemini
  message. A reply is detected by growth of the message list or by an in-place
  edit of the last Gemini message. Also modelled: the project-hash directory, the
  periodic rescan, the unknown-baseline path and `capture_state`'s retry loop.
- `GeminiCommunicator` (`lib/gemini_comm.py`): the `.gemini-session` descriptor
  update, how a failed write reaches `ask_sync`, and the health decision.
- The terminal backends (`lib/terminal.py`):
  - what tmux, iTerm2 and WezTerm each do to the text they send, and the exact
    commands they issue, in order;
  - which commands are checked;
  - the WezTerm CLI base arguments and `split-pane` arguments;
  - iTerm2 pane creation and the parsing of its new pane id;
  - terminal detection order, and the process-wide backend cache;
  - the choice of backend and pane id from a session descriptor.

The files are modules that follow the source:

| file | module |
|---|---|
| `common.dfy` | `Common`: `str.strip`, `str.replace`, path names, the newest-file pass |
| `descriptor.dfy` | `Descriptor`: JSON values of the session descriptors |
| `codex_entry.dfy` | `CodexEntry`: one log record and `_extract_message` |
| `session_id.dfy` | `SessionId`: `_extract_session_id` |
| `codex_reader.dfy` | `CodexReader`: `CodexLogReader` |
| `codex_session.dfy` | `CodexSession`: the Codex descriptor binding and health check |
| `gemini_doc.dfy` | `GeminiDoc`: the session document and `_extract_last_gemini` |
| `gemini_reader.dfy` | `GeminiReader`: `GeminiLogReader` |
| `gemini_session.dfy` | `GeminiSession`: the Gemini descriptor binding and health check |
| `terminal.dfy` | `Terminal`: the backends, detection and the backend cache |

The filesystem, the clock and the subprocesses are parameters:

- Filesystem: each turn of a polling loop sees a snapshot of the files, their
  contents and their modification times.
- Clock: a turn says only whether a rescan or a forced read is due, and whether the
  deadline passed after the turn's sleep. For Codex it also says how many
  `readline` calls fit before the deadline.
- Subprocesses: a `Shell` object logs every command a backend issues. Its `ok`
  function says whether a command exits with status 0, and `stdout` gives what the
  command prints.
- Decoding: the rule that turns one Codex log line into a reply (UTF-8 decoding,
  `json.loads`, `_extract_message`) is a parameter of the reader. It is also
  modelled on its own in `CodexEntry`.
- Hashing: SHA-256 is a parameter.

Where a source function loops, the model is a method with a loop. That method is
proved equal to a specification function, and the properties are lemmas about that
function.

Where a backend object or reader updates its fields, the model is a class. Its
methods state the new fields in terms of the old ones.

## Model

| member | source | states |
|---|---|---|
| CodexEntry.OutputTexts | lib/codex_comm.py:266-269 | the `output_text` fragments come from `output_text` items of the content, at most one per item, and there are none exactly when no item is `output_text` |
| CodexEntry.ExtractMessage | lib/codex_comm.py:258-274 | a reply comes only from a `response_item` whose payload is a `message`, and it is always stripped |
| CodexEntry.ExtractMessageEmptyIff | lib/codex_comm.py:266-270 | the reply is `""` exactly when the record has `output_text` items and all their texts are blank |
| CodexEntry.LegacyMessageIgnoredWithOutputText | lib/codex_comm.py:266-274 | the legacy `payload.message` has no effect once an `output_text` item exists |
| CodexEntry.FallbackReply | lib/codex_comm.py:271-274 | without `output_text` items a reply is produced exactly when the legacy message is a non-blank string, and it is non-empty |
| SessionId.SearchFrom | lib/codex_comm.py:26 | the first UUID-shaped position at or after `i`; none exactly when no position from `i` on matches |
| SessionId.Search | lib/codex_comm.py:26 | `SESSION_ID_PATTERN.search`: the result is UUID-shaped and is the leftmost match; no result exactly when nothing matches |
| SessionId.Stem | lib/codex_comm.py:625-626 | `Path.stem` is a prefix of the name |
| SessionId.LastDotStem | lib/codex_comm.py:625-626 | the stem search from the last dot yields a prefix of the name |
| SessionId.HeaderCandidates | lib/codex_comm.py:643-651 | building the candidate list fails exactly when the first line's `payload.session` is a non-object |
| SessionId.FirstCandidateMatch | lib/codex_comm.py:652-658 | the id found is UUID-shaped and is the match of a candidate that holds one while no earlier candidate does; none exactly when no candidate matches |
| SessionId.FirstCandidateMatchAt | lib/codex_comm.py:652-658 | when candidate `k` is the first that holds a UUID, the result is its match, whatever later candidates hold |
| SessionId.ExtractSessionId | lib/codex_comm.py:623-659 | any id found is UUID-shaped; the lookup order (stem, name, first line, then the header fields) is proved in NameWins, StemMatchIsNameMatch, FirstLineBeforeHeader and HeaderFieldOrder |
| SessionId.NameWins | lib/codex_comm.py:625-628 | a UUID in the file name is returned whatever the file holds |
| SessionId.FirstLineBeforeHeader | lib/codex_comm.py:639-641 | with no UUID in the name, a UUID in the non-empty first line is returned, whatever its JSON reading holds |
| SessionId.HeaderFieldOrder | lib/codex_comm.py:643-658 | with no UUID in the name or the raw first line, `session_id` wins over `payload.id`, which wins over `payload.session.id` |
| SessionId.NoFirstLineNoContentId | lib/codex_comm.py:630-637 | an empty or unreadable file yields an id only through its name, and never raises |
| SessionId.NoUuidAnywhere | lib/codex_comm.py:623-659 | with no UUID in any source the lookup finds nothing, and raises only for a non-object `payload.session` |
| SessionId.StemMatchIsNameMatch | lib/codex_comm.py:625-628 | a UUID in the stem is also the leftmost UUID of the name |
| Common.NewestLastIsNewest | lib/codex_comm.py:64-75 | the `>=` pass ends on a file at least as new as every candidate and strictly newer than every later one; nothing only when all are below the floor |
| CodexReader.ScanLatestSpec | lib/codex_comm.py:58-76 | the scan returns a listed, existing file |
| CodexReader.ScanLatestNewest | lib/codex_comm.py:58-76 | nothing without the root; otherwise the newest listed file, ties going to the later one |
| CodexReader.ScanLatest | lib/codex_comm.py:58-76 | the loop computes `ScanLatestSpec` |
| CodexReader.Normalize | lib/codex_comm.py:48-56 | definition: `None` and `""` mean no path; used by SetPreferredLog and the constructor |
| CodexReader.ResolveLog | lib/codex_comm.py:78-95 | `_latest_log` returns an existing file, returns nothing exactly when neither the preferred log nor a scanned log exists, and changes the preferred log only to the scanned one |
| CodexReader.ResolveLogReplacesOnlyWhenNewer | lib/codex_comm.py:82-95 | the preferred log is replaced exactly when the scanned file is strictly newer (a missing preferred log counts as 0) |
| CodexReader.ResolveLogIsNewest | lib/codex_comm.py:78-95 | the resolved log is at least as new as every enumerated file |
| CodexReader.ResolveLogIdempotent | lib/codex_comm.py:78-95 | resolving a second time against the same files changes nothing |
| CodexReader.LineEnd | lib/codex_comm.py:214 | `readline` stops just past the next newline or at the end, and moves exactly when bytes remain |
| CodexReader.ScanLines | lib/codex_comm.py:210-234 | a pass of the inner read loop never moves the offset backwards or past the end |
| CodexReader.ScanLinesStops | lib/codex_comm.py:210-234 | a pass stops after the complete line carrying the reply, before a partial last line, or on the deadline (only when it has one) |
| CodexReader.LineEndAppend | lib/codex_comm.py:214-222 | a complete line ends at the same place after bytes are appended |
| CodexReader.ScanLinesAppend | lib/codex_comm.py:214-234 | appending to the log never changes what a completed pass saw; a pass that ran out continues where a read of the longer file would |
| CodexReader.ScanLinesBudget | lib/codex_comm.py:211-212 | the deadline only stops a pass early; the unbounded pass resumes from that offset to the same result |
| CodexReader.ReadLines | lib/codex_comm.py:210-234 | the loop returns what `ScanLines` says: the reply and the offset past its line, or the offset where it stopped |
| CodexReader.EnsureLog | lib/codex_comm.py:168-179 | `ensure_log` prefers an existing preferred log, then the state's log, then the scanned one (which becomes preferred) |
| CodexReader.StartOffset | lib/codex_comm.py:195-200 | the read starts at the end for a missing baseline and is pulled back to the file size otherwise |
| CodexReader.Iterate | lib/codex_comm.py:158-256 | a non-blocking turn always returns, and every stop is a return of the call |
| CodexReader.IterateReplyLine | lib/codex_comm.py:214-234 | a reply is returned with the offset just past its own complete line |
| CodexReader.IterateOffsetOnLineBoundary | lib/codex_comm.py:195-234 | the offset kept is the start offset or just past a newline; a waiting cursor has only a partial line beyond it |
| CodexReader.IterateOffsetMonotonic | lib/codex_comm.py:195-234 | on the same log the offset never moves backwards |
| CodexReader.ReadSinceSpec | lib/codex_comm.py:158-256 | definition: the turns of the outer loop until one returns; properties in BlockingWithoutLogWaits, PollTwiceAsOnce and the Iterate lemmas |
| CodexReader.BlockingWithoutLogWaits | lib/codex_comm.py:181-188 | a blocking call with no log anywhere keeps waiting, whatever the deadline |
| CodexReader.PollTwiceAsOnce | lib/codex_comm.py:195-256 | two non-blocking polls across a growing log deliver what one poll of the grown log would |
| CodexReader.RotationLosesNothing | lib/codex_comm.py:236-248 | after a rotation the new log is read from byte 0, so a reply already in it is delivered by the next poll |
| CodexReader.TailStart | lib/codex_comm.py:127-137 | the backwards read never starts after `position` |
| CodexReader.TailStartStops | lib/codex_comm.py:127-137 | it stops only at byte 0, at 256 KiB or with 50 newlines; it moves in whole 4096-byte chunks except the last; it overshoots 256 KiB by less than a chunk |
| CodexReader.ReadTail | lib/codex_comm.py:127-137 | the chunked loop yields exactly the file from `TailStart` on |
| CodexReader.SplitLines | lib/codex_comm.py:138 | definition: `splitlines()` on '\n'; properties in SplitLinesRoundTrip and SplitLinesHaveNoNewline |
| CodexReader.SplitLinesRoundTrip | lib/codex_comm.py:138 | joining the split lines gives back the buffer (plus a final newline when it had none) |
| CodexReader.SplitLinesHaveNoNewline | lib/codex_comm.py:138 | no split line holds a newline |
| CodexReader.LastReply | lib/codex_comm.py:142-155 | definition: the reversed scan for the first non-empty reply; properties in LastReplyIsLast |
| CodexReader.LatestMessageSpec | lib/codex_comm.py:124-156 | definition: resolve the log, read its tail, split it and scan back; properties in LatestMessageStable, TailStartStops and LastReplyIsLast |
| CodexReader.LastReplyIsLast | lib/codex_comm.py:142-155 | the scan finds the non-empty reply of the last line that has one, and nothing exactly when no line has one |
| CodexReader.LatestMessageStable | lib/codex_comm.py:124-156 | two `latest_message` calls against the same files give the same answer |
| CodexReader.CodexLogReader.constructor | lib/codex_comm.py:35-37 | the preferred log is the normalised `log_path` |
| CodexReader.CodexLogReader.SetPreferredLog | lib/codex_comm.py:45-56 | the preferred log is the normalised path, where `None` and `""` mean none |
| CodexReader.CodexLogReader.LatestLog | lib/codex_comm.py:78-98 | the result and the new preferred log are `ResolveLog` of the old one |
| CodexReader.CodexLogReader.CaptureState | lib/codex_comm.py:100-114 | the state holds the resolved log and its size, or no log and -1 |
| CodexReader.CodexLogReader.LatestMessage | lib/codex_comm.py:124-156 | the reply and preferred log follow `LatestMessageSpec` |
| CodexReader.CodexLogReader.EnsureLogStep | lib/codex_comm.py:168-179 | the log and preferred log follow `EnsureLog` |
| CodexReader.CodexLogReader.ReadSince | lib/codex_comm.py:158-256 | the outcome and preferred log follow `ReadSinceSpec` over the turns offered |
| CodexSession.ResumeCommand | lib/codex_comm.py:581 | definition: `codex resume <id>` for a non-empty id, otherwise none; used by UpdateBindsLog |
| CodexSession.UpdateDescriptor | lib/codex_comm.py:579-599 | definition: the dictionary update and its `updated` flag; properties in UpdateRaisesIff, UpdateBindsLog, UpdateKeepsOthers, UpdatedIffChanged and UpdateIdempotent |
| CodexSession.LookupSessionId | lib/codex_comm.py:580 | definition: `_extract_session_id` on the bound log (`SessionId.ExtractSessionId`) |
| CodexSession.SettleLog | lib/codex_comm.py:554-565 | definition: the given log, or else the latest one, which becomes the preferred log; used by RememberCodexSession |
| CodexSession.BindSpec | lib/codex_comm.py:567-621 | definition: nothing without a readable descriptor; a raise from the lookup or the update; otherwise the rewritten descriptor and the new `session_info`; properties in InfoAgreesWithDescriptor and the Update lemmas |
| CodexSession.RememberInfo | lib/codex_comm.py:617-621 | definition: `session_info` after a successful bind; properties in InfoAgreesWithDescriptor |
| CodexSession.UpdateRaisesIff | lib/codex_comm.py:579-599 | the update raises exactly for a non-object descriptor, or for a non-string start command when no id is known |
| CodexSession.UpdateBindsLog | lib/codex_comm.py:579-599 | the descriptor names the log, carries the id and resume command when known, and is never left inactive |
| CodexSession.UpdateKeepsOthers | lib/codex_comm.py:579-599 | exactly the bound keys are added, and every other key keeps its value |
| CodexSession.UpdatedIffChanged | lib/codex_comm.py:579-601 | the file is rewritten exactly when the dictionary changed |
| CodexSession.UpdateIdempotent | lib/codex_comm.py:579-599 | binding the same log again rewrites nothing |
| CodexSession.CodexCommunicator.constructor | lib/codex_comm.py:313-318 | the reader starts on the descriptor's `codex_session_path` |
| CodexSession.CodexCommunicator.RememberCodexSession | lib/codex_comm.py:554-621 | it settles the log (given, else the latest), makes it preferred, and binds it as `BindSpec` says |
| CodexSession.CodexCommunicator.RecordBinding | lib/codex_comm.py:566-621 | `session_info` and the descriptor written follow `BindSpec` |
| CodexSession.InfoAgreesWithDescriptor | lib/codex_comm.py:579-621 | after a bind, `session_info` and the descriptor agree on the log, the id and the resume command |
| CodexSession.CheckHealth | lib/codex_comm.py:379-422 | definition: the checks in the source's order with their messages; properties in HealthyIff and ProbeOnlyRejects |
| CodexSession.HealthyIff | lib/codex_comm.py:379-422 | healthy exactly when every check of the mode passes (pane modes: a pane id and, when probing, a live pane; tmux: both pids alive and the FIFO present) |
| CodexSession.ProbeOnlyRejects | lib/codex_comm.py:379-422 | skipping the probe only admits more sessions, and changes nothing in tmux mode |
| GeminiDoc.LastGeminiIndex | lib/gemini_comm.py:436-445 | the index found is below `i` and holds a Gemini message |
| GeminiDoc.LastGeminiIndexIsLast | lib/gemini_comm.py:436-445 | no Gemini message lies after it, and nothing is found exactly when there is none |
| GeminiDoc.LastGemini | lib/gemini_comm.py:432-446 | definition: `_extract_last_gemini`; properties in LastGeminiIsLast |
| GeminiDoc.LastGeminiIsLast | lib/gemini_comm.py:432-446 | `_extract_last_gemini` returns the id and stripped content of the last Gemini message, and nothing exactly when there is none or `messages` is not a list |
| GeminiDoc.LatestInAgreesWithLastGemini | lib/gemini_comm.py:194-208 | on a well-formed list, `latest_message`'s scan returns the content `_extract_last_gemini` extracts, and nothing exactly when there is no Gemini message |
| GeminiDoc.LatestMessageOf | lib/gemini_comm.py:199-208 | definition: `latest_message` on one read of the file, raises included; properties in LatestInAgreesWithLastGemini |
| GeminiReader.ScanAnyProject | lib/gemini_comm.py:63-74 | definition: the last file after a stable sort by modification time; properties in ScanLatestSessionNewest |
| GeminiReader.ScanLatestSession | lib/gemini_comm.py:76-93 | the scan returns an existing file |
| GeminiReader.ScanLatestSessionNewest | lib/gemini_comm.py:63-93 | the project's own newest session wins when it has one; the result is at least as new as every candidate and strictly newer than later ones |
| GeminiReader.ProjectHashOf | lib/gemini_comm.py:108-110 | definition: `latest.parent.parent.name`; properties in ProjectHashOfSession |
| GeminiReader.ProjectHashOfSession | lib/gemini_comm.py:109-112 | a file `<root>/<hash>/chats/<name>` lies in project `hash` |
| GeminiReader.ResolveSession | lib/gemini_comm.py:95-118 | the preferred session changes only to the scanned file; the answer is the preferred session, or nothing when it has vanished; the switching rule is proved in ResolveSessionReplacesOnlyWhenNewer and ResolveSessionIsNewest |
| GeminiReader.ResolveSessionIdempotent | lib/gemini_comm.py:95-118 | resolving again against the same files changes nothing |
| GeminiReader.ResolveSessionReplacesOnlyWhenNewer | lib/gemini_comm.py:99-113 | the scanned file becomes the answer and the preferred file exactly when it is strictly newer than the preferred file, a missing one counting as 0; otherwise the preferred file and the project hash stay, and an existing preferred file is answered |
| GeminiReader.ResolveSessionIsNewest | lib/gemini_comm.py:99-113 | an answered file is at least as new as the newest file the scan found |
| GeminiReader.FirstParse | lib/gemini_comm.py:153-165 | the retry loop returns only a parsed object |
| GeminiReader.Baseline | lib/gemini_comm.py:166-175 | definition: the count, time, size, id and hash a parsed document gives as the baseline; properties in CaptureCounts and CapturedReplyNotRedelivered |
| GeminiReader.CaptureSpec | lib/gemini_comm.py:133-184 | definition: `capture_state` against a snapshot; properties in CaptureCounts |
| GeminiReader.CaptureCounts | lib/gemini_comm.py:133-184 | the count is -1 exactly when the file exists but never parsed to an object; otherwise it is the message count, with the last Gemini id and hash; without a file the state is count 0, times and size 0 and no id or hash; an unknown (-1) baseline carries no id or hash |
| GeminiReader.LastFresh | lib/gemini_comm.py:355-373 | the index found is the last fresh message of the slice, and nothing means no fresh message |
| GeminiReader.NewReplyIsLastFresh | lib/gemini_comm.py:349-373 | the growth loop raises exactly when a message breaks it; otherwise it delivers the last fresh message of the new slice |
| GeminiReader.NewReplyBadIff | lib/gemini_comm.py:355-366 | the growth loop raises exactly when a message of the slice is a non-object or has non-string content |
| GeminiReader.NewReplyFound | lib/gemini_comm.py:355-373 | over an unbroken slice the loop delivers the last fresh message, or its starting candidate |
| GeminiReader.LastFreshFromBelow | lib/gemini_comm.py:355-373 | scanning from one message earlier finds the same last fresh message, or the earlier one when the rest has none |
| GeminiReader.LastFreshUnique | lib/gemini_comm.py:355-373 | the last fresh index is the only fresh index with none after it |
| GeminiReader.NewReplyFrom | lib/gemini_comm.py:355-366 | definition: the growth loop over `messages[prev_count:]`; properties in NewReplyIsLastFresh, NewReplyBadIff and NewReplyFound |
| GeminiReader.ReadUnknown | lib/gemini_comm.py:287-347 | definition: the unknown-baseline branch; properties in UnknownBaselineResolves |
| GeminiReader.ReadKnown | lib/gemini_comm.py:349-404 | definition: growth, then an in-place edit, then the settled baseline; properties in GrowthDeliversLastFresh, InPlaceEditDelivered, NoReplyResetsBaseline and NoDuplicateDelivery |
| GeminiReader.ReadSession | lib/gemini_comm.py:256-404 | definition: one turn once the session file exists (stat, skip, read, branch); properties in NoDuplicateAfterCapture |
| GeminiReader.Rescan | lib/gemini_comm.py:228-240 | the rescan keeps `prev_mtime_ns` and the unknown-baseline flag |
| GeminiReader.Iterate | lib/gemini_comm.py:227-425 | definition: one turn of the outer loop (rescan, no session, read, return or sleep); properties in RotationResetsCounters and NoSessionTimeoutKeepsState |
| GeminiReader.ReadSinceSpec | lib/gemini_comm.py:210-425 | definition: the turns of the outer loop until one returns; properties in NoSessionTimeoutKeepsState |
| GeminiReader.GrowthDeliversLastFresh | lib/gemini_comm.py:349-373 | when the list grew, the reply is the last fresh message, and the state records the count and its id and hash |
| GeminiReader.InPlaceEditDelivered | lib/gemini_comm.py:374-390 | without growth, the last Gemini message is delivered exactly when it is non-empty and its (id, hash) changed |
| GeminiReader.NoReplyResetsBaseline | lib/gemini_comm.py:392-399 | a read with no reply resets count, time and size; the id follows the last Gemini message and the hash changes only for non-empty content |
| GeminiReader.UnknownBaselineResolves | lib/gemini_comm.py:284-347 | with an unknown baseline, the last message is delivered exactly when it is a non-empty Gemini reply and the file changed; otherwise (an empty list and a non-object last message included) the read becomes the baseline |
| GeminiReader.RotationResetsCounters | lib/gemini_comm.py:228-240 | a rescan to a new session restarts count, time, size, id and hash, but keeps `prev_mtime_ns` |
| GeminiReader.NoDuplicateDelivery | lib/gemini_comm.py:349-399 | re-polling an unchanged document after a delivery delivers nothing, while the delivered message is still the last Gemini message |
| GeminiReader.DuplicateAfterSkippedCopy | lib/gemini_comm.py:349-390 | without that proviso a message is delivered twice (a concrete document) |
| GeminiReader.CapturedReplyNotRedelivered | lib/gemini_comm.py:133-184 | a captured baseline is one the same document cannot beat |
| GeminiReader.NoDuplicateAfterCapture | lib/gemini_comm.py:256-399 | reading an unchanged document from a captured state delivers nothing |
| GeminiReader.NoSessionTimeoutKeepsState | lib/gemini_comm.py:242-254 | a blocking call with no session file waits until the deadline and returns the state unchanged |
| GeminiReader.PollIntervalMs | lib/gemini_comm.py:46-50 | the poll interval lies in [20, 500] ms, is 50 ms by default and keeps an in-range setting unchanged |
| GeminiReader.ForceReadIntervalMs | lib/gemini_comm.py:53-57 | the forced-read interval lies in [200, 5000] ms, is 1000 ms by default and keeps an in-range setting unchanged |
| GeminiReader.RescanIntervalMs | lib/gemini_comm.py:223 | the rescan interval lies in [200, 2000] ms and is half the timeout between those bounds |
| GeminiReader.ProjectHashFor | lib/gemini_comm.py:25-34 | a non-blank `GEMINI_PROJECT_HASH` is used stripped; otherwise the digest of the working directory |
| GeminiReader.GeminiLogReader.constructor | lib/gemini_comm.py:40-45 | no preferred session, and the project hash from `ProjectHashFor` |
| GeminiReader.GeminiLogReader.SetPreferredSession | lib/gemini_comm.py:120-128 | only a non-empty path to an existing file is accepted; the project hash is untouched |
| GeminiReader.GeminiLogReader.LatestSession | lib/gemini_comm.py:95-118 | the fields and the answer follow `ResolveSession`, whose switching rule is proved in ResolveSessionReplacesOnlyWhenNewer |
| GeminiReader.GeminiLogReader.ExtractLastGemini | lib/gemini_comm.py:432-446 | the backwards loop returns `LastGemini` |
| GeminiReader.GeminiLogReader.CaptureState | lib/gemini_comm.py:133-184 | the state and fields follow `CaptureSpec` |
| GeminiReader.GeminiLogReader.LatestMessage | lib/gemini_comm.py:194-208 | resolves the session as `ResolveSession`, then answers as `LatestMessageOf` on its read |
| GeminiReader.GeminiLogReader.ScanNewMessages | lib/gemini_comm.py:355-366 | the loop over the new slice computes `NewReplyFrom` |
| GeminiReader.GeminiLogReader.ReadSince | lib/gemini_comm.py:210-425 | the outcome and fields follow `ReadSinceSpec` over the turns offered |
| GeminiReader.GeminiLogReader.ReadTurn | lib/gemini_comm.py:256-404 | one loop body once the session exists follows `ReadSession` |
| GeminiReader.GeminiLogReader.ReadUnknownTurn | lib/gemini_comm.py:284-347 | the unknown-baseline branch follows `ReadUnknown` |
| GeminiReader.GeminiLogReader.ReadKnownTurn | lib/gemini_comm.py:349-399 | the known-baseline branch follows `ReadKnown` |
| GeminiSession.UpdateDescriptor | lib/gemini_comm.py:661-684 | definition: the dictionary update and its `updated` flag; properties in UpdateBindsSession, UpdateKeys and UpdatedIffChanged |
| GeminiSession.UpdateBindsSession | lib/gemini_comm.py:661-684 | the descriptor names the session file, carries the hash and id when known, and keeps every other key |
| GeminiSession.UpdateKeys | lib/gemini_comm.py:661-684 | exactly the path key, plus the hash and id keys when known, are added |
| GeminiSession.UpdatedIffChanged | lib/gemini_comm.py:661-689 | the file is rewritten exactly when the dictionary changed, and a repeat finds nothing to do |
| GeminiSession.RememberAsWritten | lib/gemini_comm.py:648-708 | definition of the code as written: a failed rewrite raises `NameError` from its handler; properties in AsWrittenRaisesOnFailedWrite, NewPathRaisesOnFailedWrite and FailedWriteLosesReply |
| GeminiSession.RememberGeminiSession | lib/gemini_comm.py:648-708 | definition of the intended behaviour: a failed rewrite is reported and the call returns; properties in RememberRaisesOnlyOnNonObject and AskSyncKeepsReply |
| GeminiSession.AskSyncResult | lib/gemini_comm.py:620-633 | definition: the reply, or None when `_remember_gemini_session` raised inside the `try`; properties in FailedWriteLosesReply and AskSyncKeepsReply |
| GeminiSession.RememberRaisesOnlyOnNonObject | lib/gemini_comm.py:648-708 | intended version: raises only on a non-object descriptor, changes nothing when the descriptor is missing or unreadable, and stores the session path |
| GeminiSession.AsWrittenRaisesOnFailedWrite | lib/gemini_comm.py:690-708 | the written and intended versions differ exactly when a needed rewrite fails |
| GeminiSession.FailedWriteLosesReply | lib/gemini_comm.py:620-633 | as written, a reply that arrived is lost when the descriptor rewrite fails (a concrete case) |
| GeminiSession.NewPathRaisesOnFailedWrite | lib/gemini_comm.py:661-708 | as written, binding a new session file raises whenever the rewrite fails |
| GeminiSession.AskSyncKeepsReply | lib/gemini_comm.py:620-633 | with the intended behaviour, an arrived reply always reaches the caller unless the descriptor is not an object |
| GeminiSession.RememberRecordsProjectHash | lib/gemini_comm.py:667-673 | binding `<root>/<hash>/chats/<name>` records `hash` as the project |
| GeminiSession.CheckHealth | lib/gemini_comm.py:546-556 | definition: the three checks with their messages; properties in HealthyIff and ProbeOnlyRejects |
| GeminiSession.HealthyIff | lib/gemini_comm.py:546-556 | healthy exactly when the runtime dir exists, a pane id is set, and (when probing a backend) the pane is alive; healthy exactly when the status reads "Session OK" |
| GeminiSession.ProbeOnlyRejects | lib/gemini_comm.py:546-556 | skipping the probe admits exactly the sessions whose pane is gone |
| Terminal.BackendForSession | lib/terminal.py:425-431 | definition: the backend for the descriptor's `terminal` tag; properties in SessionDispatch |
| Terminal.PaneIdFromSession | lib/terminal.py:434-440 | definition: `tmux_session` or `pane_id` by backend; properties in SessionDispatch |
| Terminal.Sanitize | lib/terminal.py:136 | definition: remove "\r", then strip (tmux and iTerm2); properties in SanitizeRemoves |
| Terminal.SanitizeLine | lib/terminal.py:289 | definition: remove "\r" and "\n", then strip (WezTerm); properties in SanitizeRemoves |
| Terminal.SessionDispatch | lib/terminal.py:425-440 | "wezterm" and "iterm2" select their backends and anything else tmux; the pane id comes from `tmux_session` for tmux and `pane_id` otherwise |
| Terminal.StripKeepsOut | lib/terminal.py:136 | stripping introduces no character |
| Terminal.SanitizeRemoves | lib/terminal.py:136 | no carriage return survives (nor a line feed in WezTerm's variant at line 289); the result is stripped and empty exactly when the text is blank |
| Terminal.TmuxSend | lib/terminal.py:135-155 | definition: sanitise, then `TmuxSendClean`; properties in TmuxSendShape, TmuxSendRaises and SanitizeRemoves |
| Terminal.TmuxSendClean | lib/terminal.py:137-155 | definition: the commands `send_text` issues for sanitised text and whether it raises; properties in TmuxSendShape and TmuxSendRaises |
| Terminal.TmuxSendShape | lib/terminal.py:135-155 | blank text issues nothing; short one-line text is `send-keys -l` then Enter; other text is loaded into a buffer, which is deleted last once loaded |
| Terminal.TmuxSendRaises | lib/terminal.py:135-155 | `send_text` raises exactly when a checked command failed, and nothing checked follows a failure |
| Terminal.Iterm2Send | lib/terminal.py:188-204 | definition: the text send, then "\r" when it succeeded; properties in Iterm2SendShape |
| Terminal.Iterm2SendShape | lib/terminal.py:188-204 | non-blank text is sent, then "\r" to the same session only if that succeeded; raises exactly when one failed |
| Terminal.CliBaseArgs | lib/terminal.py:268-279 | definition: `[bin, "cli"]`, the class and the switches; properties in CliBaseArgsFlags |
| Terminal.CliBaseArgsFlags | lib/terminal.py:268-279 | `[bin, "cli"]` first; `--class` exactly when a class is set; each switch exactly when its variable is enabled |
| Terminal.EnterAttemptsStop | lib/terminal.py:298-321 | the Enter variants are tried in order up to the first success, then "\r" on stdin when none succeeds |
| Terminal.WeztermSend | lib/terminal.py:288-321 | definition: sanitise, then `WeztermSendLine`; properties in WeztermSendShape and SanitizeRemoves |
| Terminal.WeztermSendLine | lib/terminal.py:290-321 | definition: the `send-text` of the line, then the platform's Enter; properties in WeztermSendShape and EnterAttemptsStop |
| Terminal.WeztermSendShape | lib/terminal.py:288-321 | non-blank text is one `send-text` with no line break; raises only when it fails; Enter follows as the platform requires |
| Terminal.Quote | lib/terminal.py:249 | `shlex.quote` (also applied at line 363) never returns empty and leaves safe non-empty text unchanged |
| Terminal.ItermSplitArgs | lib/terminal.py:230-235 | definition: the `it2 session split` arguments; properties in ItermSplitFlags |
| Terminal.ItermSplitFlags | lib/terminal.py:230-235 | `--vertical` exactly for a right split; `--session parent` last exactly when a parent is given |
| Terminal.ParsePaneId | lib/terminal.py:239-245 | the id holds no ':' when the output had one, and is the stripped output otherwise |
| Terminal.ParsePaneIdAfterColon | lib/terminal.py:239-245 | "Created new pane: <id>" yields `<id>` stripped |
| Terminal.ItermCreate | lib/terminal.py:228-262 | the split is the first command |
| Terminal.ItermStartupTargets | lib/terminal.py:248-260 | startup commands all target the new session, run only with a non-empty id and command, and "\r" follows only a successful run |
| Terminal.ItermCreateTargetsNewPane | lib/terminal.py:228-262 | every command after the split targets the id it reported, which is returned; nothing follows a failed split |
| Terminal.SplitPaneLayout | lib/terminal.py:339-379 | `split-pane` arguments: native passes `--cwd` and ends `-- shell flag cmd`; WSL ends with the `cd … && exec` script, via `wsl.exe` unless inside WSL; the percentage is always passed |
| Terminal.SplitPaneArgs | lib/terminal.py:340-379 | definition: the `split-pane` arguments of both launches; properties in SplitPaneLayout |
| Terminal.WeztermCreate | lib/terminal.py:339-383 | definition: run `split-pane`, return its stripped output or raise; used by WeztermCreatePane |
| Terminal.DetectTerminal | lib/terminal.py:389-408 | definition: the probes in the source's order; properties in DetectTerminalPriority |
| Terminal.FirstHit | lib/terminal.py:389-408 | nothing exactly when no probe holds |
| Terminal.DetectTerminalPriority | lib/terminal.py:389-408 | the first probe that holds decides, in the source's priority order |
| Terminal.GetBackendSpec | lib/terminal.py:411-422 | definition: the cached backend, or the one named by the type or the detection; properties in BackendCacheSticky |
| Terminal.BackendCacheSticky | lib/terminal.py:411-422 | once cached, every later call returns the cached backend; an unknown type asked first caches nothing |
| Terminal.BackendCache.constructor | lib/terminal.py:386 | the cache starts empty |
| Terminal.BackendCache.GetBackend | lib/terminal.py:411-422 | the result follows `GetBackendSpec` and is what the cache now holds |
| Terminal.BuildCliBaseArgs | lib/terminal.py:268-279 | the list built step by step is `CliBaseArgs` |
| Terminal.BuildItermSplitArgs | lib/terminal.py:230-235 | the list built step by step is `ItermSplitArgs` |
| Terminal.Shell.Run | lib/terminal.py:143-155 | appends the command and raises exactly for a failing checked command |
| Terminal.Shell.TmuxSendText | lib/terminal.py:135-155 | the commands issued and the raise follow `TmuxSend` |
| Terminal.Shell.TmuxSendSanitized | lib/terminal.py:138-155 | the commands issued and the raise follow `TmuxSendClean` |
| Terminal.Shell.Iterm2SendText | lib/terminal.py:188-204 | the commands issued and the raise follow `Iterm2Send` |
| Terminal.Shell.WeztermSendText | lib/terminal.py:288-321 | the commands issued and the raise follow `WeztermSend` |
| Terminal.Shell.SendLine | lib/terminal.py:290-321 | the commands issued and the raise follow `WeztermSendLine` |
| Terminal.Shell.PressEnter | lib/terminal.py:298-321 | the loop issues exactly `EnterKeystroke` |
| Terminal.Shell.Iterm2CreatePane | lib/terminal.py:228-262 | the commands, raise and id follow `ItermCreate` |
| Terminal.Shell.Iterm2Startup | lib/terminal.py:248-260 | the commands and raise follow `ItermStartup` |
| Terminal.Shell.WeztermCreatePane | lib/terminal.py:339-383 | the commands, raise and id follow `WeztermCreate` |

## Left out

- File I/O, `json.load` and UTF-8 decoding are not modelled. Each read is a value of the filesystem snapshot. For Codex, the line-to-reply rule is a parameter. For Gemini, the parse outcome is a datatype.
- The clock and `time.sleep` are not modelled. Each turn of a polling loop carries the facts the loop needs from the clock.
- The Codex poll interval (`CODEX_POLL_INTERVAL`) only sets how long the loop sleeps, so it is not modelled.
- The tmux and WezTerm Enter delays are not modelled, because they only sleep.
- Modification times are integers. Python's float `st_mtime` and its `st_mtime_ns` are one number here.
- `OSError` from `stat` during a scan is not modelled. A listed file that no longer exists is skipped.
- `splitlines()` is modelled on '\n' only. The other Unicode line separators and "\r\n" are not modelled.
- `CodexLogReader._session_id_filter` is stored by the source but never read, so it is left out.
- SHA-256 is a parameter (`Digest`). `_get_project_hash`'s `expanduser().absolute()` is left out; the working directory is given already normalised.
- Path normalisation (`expanduser`, `Path(...)` of a non-string) is not modelled. A path is a string, and `None` and `""` mean no path.
- `_load_session_info` is not modelled. Neither are `_send_message`, `ask_async`, `consume_pending`, `ping`, `get_status` or the CLI `main` of both communicators: they print, send or read the descriptor files.
- The terminal backends' `is_alive`, `kill_pane` and `activate` are not modelled. Each is a single subprocess query or action with no logic of its own. The health checks take `is_alive`'s answer as a fact.
- The pid liveness check `os.kill(pid, 0)` in the Codex health check is a parameter.
- `TmuxBackend.create_pane` is not modelled.
- The `_bin` caches, `_get_wezterm_bin` and `_load_cached_wezterm_bin` are not modelled: they probe the environment and the filesystem.
- `is_windows`, `is_wsl`, `_is_windows_wezterm` and `_default_shell` are not modelled. The platform enters as the `windows` flag and the `Launch` value.
- The WSL working-directory translation (the `wsl.localhost` regex and `wslpath`) is not modelled. `wslCwd` is given already translated.
- The temporary-file cleanup after a failed descriptor write is not modelled; only whether the write succeeded matters.
- `tmux load-buffer` is fed bytes in the source. Here its input is the text.
- `.lower()` in `_cli_base_args` is modelled as ASCII lower-casing.
- CodexEntry.ExtractMessage: the source raises `AttributeError` or `TypeError` for a line that decodes to a non-object, for a `payload` that is `null` or not an object (once `type` is `response_item`), for a `content` element that is not an object, and for a truthy `text` that is not a string (lib/codex_comm.py:259-274). `Entry` and `Payload` cannot hold these shapes, so these raises are not modelled.
- CodexReader.CodexLogReader.ReadSince: the reply rule (`ReplyRule`) gives a reply or nothing for each line and cannot raise. The source catches only `JSONDecodeError` (lib/codex_comm.py:228-231), so a line of one of the shapes above makes `_read_since` raise. `ReadSinceSpec` and its lemmas (`PollTwiceAsOnce`, `RotationLosesNothing` and the others) hold only for logs without such a line.
- CodexReader.CodexLogReader.LatestMessage: the same gap holds for `latest_message`, which catches nothing more (lib/codex_comm.py:149-153).
- GeminiDoc.MessageList: a `messages` value that is a string or an object cannot be represented. `len()` accepts it (lib/gemini_comm.py:171 and 285), so `capture_state` records that length as the count, and the growth loop then raises on `msg.get` (line 357).
- GeminiDoc.StrippedContent: a falsy `content` that is not a string (`0`, `false`, `[]`, `{}`) cannot be represented. The unknown-baseline branch reads it as "" (lib/gemini_comm.py:294); the growth loop (line 358) and `latest_message` (line 205) call `.strip()` on it and raise; `_extract_last_gemini` renders it with `str()` (line 444).
- CodexReader.ResolveLogIsNewest: stated only for files whose modification time is not below the scan's starting value of -1.
- CodexReader.BlockingWithoutLogWaits: the source's blocking wait has no deadline while no log exists. The model states that, and does not add one.
- GeminiReader.RotationResetsCounters: states that the rescan keeps `prev_mtime_ns` of the old file, as the source does. The model does not claim the next read compares against the new file.
- Terminal.TmuxSendShape, Terminal.TmuxSendRaises and Terminal.WeztermSendShape: stated over the already sanitised text. `Terminal.SanitizeRemoves` connects them to the raw text.
- Terminal.BackendCache.GetBackend: the cache holds which backend was chosen (`Option<Backend>`), not a backend object.
- The tmux buffer is deleted in a `finally`, but the model deletes it only after `load-buffer` succeeded, because that is what the code does. When `load-buffer` itself fails, the exception leaves before the `try` that deletes it.

## Findings

| source | as written | input that shows it | evidently intended | confidence | as-written member | corrected member |
|---|---|---|---|---|---|---|
| lib/gemini_comm.py:694-708 | the handlers for a failed descriptor write print to `sys.stderr`, but the module never imports `sys` (imports at lines 9-18), so each handler raises `NameError`; `ask_sync` (620-633) catches it and returns None although a reply arrived | a session file `/g/h/chats/s.json`, a descriptor naming `/g/h/chats/old.json`, and a rewrite that fails with `PermissionError` | the failed write is reported and the call returns normally, as `_remember_codex_session` does, so the reply reaches the caller | not executed | GeminiSession.FailedWriteLosesReply | GeminiSession.AskSyncKeepsReply |
