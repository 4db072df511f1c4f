/** `CodexLogReader`: a byte-offset cursor over Codex's append-only JSONL session logs.
    The filesystem is a snapshot taken at each turn of the polling loop; the clock is
    reduced to the facts each turn needs (is a rescan due, how many lines can be read
    before the deadline, has the deadline passed after the sleep). */
module CodexReader {
  import opened Common
  import opened CodexEntry

  type Path = string

  /** One session log: its bytes and its modification time. */
  datatype LogFile = LogFile(data: seq<byte>, mtime: int)

  /** The reader's view of the filesystem at one moment: whether the session root
      exists, the `.jsonl` paths the recursive glob under it enumerates (in order),
      and every regular file by path (paths outside the root included). */
  datatype Fs = Fs(rootExists: bool, listing: seq<Path>, files: map<Path, LogFile>)

  /** The reply one complete line of the log carries, given the line without its
      '\n': UTF-8 decoding, `strip()`, `json.loads` and `_extract_message`
      (`CodexEntry.ExtractMessage`), with `None` for blank and undecodable lines. The
      reader is stated for any such rule. */
  type ReplyRule = seq<byte> -> Option<string>

  /** The state dictionary `{"log_path": ..., "offset": ...}`. */
  datatype Cursor = Cursor(logPath: Option<Path>, offset: int)

  /** `(log, new value of _preferred_log)` */
  datatype Resolution = Resolution(log: Option<Path>, preferred: Option<Path>)

  predicate Present(fs: Fs, p: Option<Path>)
  {
    p.Some? && p.value in fs.files
  }

  function Mtimes(fs: Fs): map<Path, int>
  {
    map p | p in fs.files :: fs.files[p].mtime
  }

  /** `_normalize_path`: `None` and `""` both mean "no path". */
  function Normalize(p: Option<Path>): Option<Path>
  {
    if p == Some("") then None else p
  }

  // ---------------------------------------------------------------------------
  // `_scan_latest`

  /** The file a single `>=` pass over the enumerated regular files ends on, starting
      from `latest_mtime = -1.0`. */
  function ScanLatestSpec(fs: Fs): (r: Option<Path>)
    ensures r.Some? ==> r.value in fs.files && r.value in fs.listing
  {
    if !fs.rootExists then None else NewestLast(fs.listing, Mtimes(fs), Some(-1))
  }

  /** The scan finds nothing when the root is missing; otherwise it returns a listed
      file at least as new as every listed file and strictly newer than every file
      listed after it (ties go to the later one), and nothing only when every listed
      file is older than the floor of -1. */
  lemma ScanLatestNewest(fs: Fs)
    ensures !fs.rootExists ==> ScanLatestSpec(fs).None?
    ensures var r := ScanLatestSpec(fs);
      r.Some? ==>
        (forall j :: 0 <= j < |fs.listing| && fs.listing[j] in fs.files ==> fs.files[fs.listing[j]].mtime <= fs.files[r.value].mtime)
        && exists i :: 0 <= i < |fs.listing| && fs.listing[i] == r.value
             && forall j :: i < j < |fs.listing| && fs.listing[j] in fs.files ==> fs.files[fs.listing[j]].mtime < fs.files[r.value].mtime
    ensures fs.rootExists ==>
      (ScanLatestSpec(fs).None? <==> forall j :: 0 <= j < |fs.listing| && fs.listing[j] in fs.files ==> fs.files[fs.listing[j]].mtime < -1)
  {
    var m := Mtimes(fs);
    NewestLastIsNewest(fs.listing, m, Some(-1));
    assert forall p :: p in fs.files ==> p in m && m[p] == fs.files[p].mtime;
  }

  /** `_scan_latest`: one pass keeping the last file whose mtime is `>=` the best so far. */
  method ScanLatest(fs: Fs) returns (latest: Option<Path>)
    ensures latest == ScanLatestSpec(fs)
  {
    if !fs.rootExists {
      return None;
    }
    latest := None;
    var latestMtime := -1;
    var i := 0;
    while i < |fs.listing|
      invariant 0 <= i <= |fs.listing|
      invariant latest == NewestLast(fs.listing[..i], Mtimes(fs), Some(-1))
      invariant latest.Some? ==> latest.value in fs.files && latestMtime == fs.files[latest.value].mtime
      invariant latest.None? ==> latestMtime == -1
    {
      var p := fs.listing[i];
      if p in fs.files {
        var mtime := fs.files[p].mtime;
        if mtime >= latestMtime {
          latest := Some(p);
          latestMtime := mtime;
        }
      }
      assert fs.listing[..i + 1][..i] == fs.listing[..i];
      i := i + 1;
    }
    assert fs.listing[..i] == fs.listing;
  }

  // ---------------------------------------------------------------------------
  // `_latest_log`

  /** The mtime `_latest_log` compares against: the preferred log's, or 0 when there is
      no preferred log or it no longer exists. */
  function PreferredMtime(fs: Fs, preferred: Option<Path>): int
  {
    if Present(fs, preferred) then fs.files[preferred.value].mtime else 0
  }

  /** `_latest_log`: adopt the scanned file (and remember it) when it is strictly newer
      than the preferred log; otherwise keep the preferred log while it exists. */
  function ResolveLog(preferred: Option<Path>, fs: Fs): (r: Resolution)
    ensures r.log.Some? ==> r.log.value in fs.files
    ensures r.log.None? <==> !Present(fs, preferred) && ScanLatestSpec(fs).None?
    ensures r.preferred == preferred || r.preferred == ScanLatestSpec(fs)
  {
    var latest := ScanLatestSpec(fs);
    match latest
    case Some(l) =>
      if !Present(fs, preferred) || l != preferred.value then
        if fs.files[l].mtime > PreferredMtime(fs, preferred) then Resolution(latest, latest)
        else Resolution(if Present(fs, preferred) then preferred else latest, preferred)
      else Resolution(preferred, preferred)
    case None => Resolution(if Present(fs, preferred) then preferred else None, preferred)
  }

  /** The preferred log is replaced exactly when the scan found a file strictly newer
      than it (a missing preferred log counts as mtime 0); in that case the scanned
      file is used, and otherwise an existing preferred log is kept. */
  lemma ResolveLogReplacesOnlyWhenNewer(preferred: Option<Path>, fs: Fs)
    ensures var latest := ScanLatestSpec(fs);
      var newer := latest.Some? && fs.files[latest.value].mtime > PreferredMtime(fs, preferred);
      (newer ==> ResolveLog(preferred, fs) == Resolution(latest, latest))
      && (!newer ==> ResolveLog(preferred, fs).preferred == preferred)
      && (!newer && Present(fs, preferred) ==> ResolveLog(preferred, fs).log == preferred)
  {
  }

  /** The resolved log is at least as new as every file the scan enumerates (for
      files whose mtime is not below the scan's starting value of -1). */
  lemma ResolveLogIsNewest(preferred: Option<Path>, fs: Fs)
    requires fs.rootExists
    requires forall j :: 0 <= j < |fs.listing| && fs.listing[j] in fs.files ==> fs.files[fs.listing[j]].mtime >= -1
    ensures var r := ResolveLog(preferred, fs);
      r.log.Some? ==> forall j :: 0 <= j < |fs.listing| && fs.listing[j] in fs.files ==>
        fs.files[fs.listing[j]].mtime <= fs.files[r.log.value].mtime
  {
    ScanLatestNewest(fs);
    var r := ResolveLog(preferred, fs);
    var latest := ScanLatestSpec(fs);
    if r.log.Some? && latest.Some? && r.log != latest {
      assert r.log == preferred && fs.files[latest.value].mtime <= PreferredMtime(fs, preferred);
    }
  }

  /** Resolving twice against the same filesystem changes nothing the second time. */
  lemma ResolveLogIdempotent(preferred: Option<Path>, fs: Fs)
    ensures var r := ResolveLog(preferred, fs);
      ResolveLog(r.preferred, fs) == r
  {
    var r := ResolveLog(preferred, fs);
    var latest := ScanLatestSpec(fs);
    if r.preferred != preferred {
      assert r.preferred == latest;
      assert PreferredMtime(fs, latest) == fs.files[latest.value].mtime;
    }
  }

  // ---------------------------------------------------------------------------
  // Reading lines

  /** Where `fh.readline()` at `pos` stops: just past the next '\n', or at the end. */
  function LineEnd(data: seq<byte>, pos: nat): (e: nat)
    requires pos <= |data|
    ensures pos <= e <= |data|
    ensures e == |data| || (pos < e && data[e - 1] == NL)
    ensures forall k :: pos <= k < e - 1 ==> data[k] != NL
    ensures e == pos <==> pos == |data|
    decreases |data| - pos
  {
    if pos == |data| then pos
    else if data[pos] == NL then pos + 1
    else LineEnd(data, pos + 1)
  }

  /** Offset `e` sits just past a '\n'. */
  predicate EndsLine(data: seq<byte>, e: nat)
    requires e <= |data|
  {
    0 < e && data[e - 1] == NL
  }

  /** `data[s..e]` is one complete line (its '\n' included) that carries `text`. */
  predicate ReplyLine(data: seq<byte>, rule: ReplyRule, s: nat, e: nat, text: string)
  {
    s < e <= |data| && e == LineEnd(data, s) && EndsLine(data, e) && rule(data[s..e - 1]) == Some(text)
  }

  /** No '\n' at or after `e`: what is left is at most one partial line. */
  predicate NoNewlineFrom(data: seq<byte>, e: nat)
  {
    forall k :: e <= k < |data| ==> data[k] != NL
  }

  /** How a pass of the inner read loop ends: on the first line that carries a reply,
      on reaching the end or a partial last line, or on the deadline. `end` is the
      offset the pass leaves behind. */
  datatype Scan = Found(text: string, lineStart: nat, end: nat) | Exhausted(end: nat) | OutOfTime(end: nat)

  /** The inner read loop from `pos`. `budget` is the number of `readline` calls that
      happen before the deadline passes (`None` when the loop does not watch the clock,
      i.e. when it is not blocking). */
  function ScanLines(data: seq<byte>, pos: nat, rule: ReplyRule, budget: Option<nat>): (r: Scan)
    requires pos <= |data|
    ensures pos <= r.end <= |data|
    decreases |data| - pos
  {
    if budget == Some(0) then OutOfTime(pos)
    else
      var e := LineEnd(data, pos);
      if e == pos || !EndsLine(data, e) then Exhausted(pos)
      else
        var rest := if budget.Some? then Some(budget.value - 1) else None;
        match rule(data[pos..e - 1])
        case Some(text) => Found(text, pos, e)
        case None => ScanLines(data, e, rule, rest)
  }

  /** A pass stops on a line boundary: a reply is the text of the complete line just
      before the stop; a pass that runs out of complete lines stops before a partial
      line (or at the end); and only a pass with a budget runs out of time. */
  lemma {:induction false} ScanLinesStops(data: seq<byte>, pos: nat, rule: ReplyRule, budget: Option<nat>)
    requires pos <= |data|
    ensures var r := ScanLines(data, pos, rule, budget);
      && (r.end == pos || EndsLine(data, r.end))
      && (r.Exhausted? ==> NoNewlineFrom(data, r.end))
      && (r.OutOfTime? ==> budget.Some?)
      && (r.Found? ==>
           && ReplyLine(data, rule, r.lineStart, r.end, r.text)
           && pos <= r.lineStart && (r.lineStart == pos || EndsLine(data, r.lineStart)))
    decreases |data| - pos
  {
    if budget != Some(0) {
      var e := LineEnd(data, pos);
      if e > pos && EndsLine(data, e) && rule(data[pos..e - 1]).None? {
        var rest := if budget.Some? then Some(budget.value - 1) else None;
        ScanLinesStops(data, e, rule, rest);
        assert ScanLines(data, pos, rule, budget) == ScanLines(data, e, rule, rest);
      }
    }
  }

  /** A complete line ends at the same place once more bytes have been appended. */
  lemma {:induction false} LineEndAppend(data: seq<byte>, more: seq<byte>, pos: nat)
    requires pos <= |data|
    requires EndsLine(data, LineEnd(data, pos)) && LineEnd(data, pos) > pos
    ensures LineEnd(data + more, pos) == LineEnd(data, pos)
    decreases |data| - pos
  {
    if data[pos] != NL {
      LineEndAppend(data, more, pos + 1);
    }
  }

  /** Appending to the log never changes what a completed pass saw: a found reply is
      found again at the same place, and a pass that ran out of complete lines picks
      up, on the longer file, exactly where reading the longer file from the original
      offset would be. A partially written line is therefore neither lost nor split. */
  lemma {:induction false} ScanLinesAppend(data: seq<byte>, more: seq<byte>, pos: nat, rule: ReplyRule)
    requires pos <= |data|
    ensures ScanLines(data, pos, rule, None).Found? ==>
      ScanLines(data + more, pos, rule, None) == ScanLines(data, pos, rule, None)
    ensures ScanLines(data, pos, rule, None).Exhausted? ==>
      ScanLines(data + more, pos, rule, None) == ScanLines(data + more, ScanLines(data, pos, rule, None).end, rule, None)
    decreases |data| - pos
  {
    var longer := data + more;
    var e := LineEnd(data, pos);
    if e > pos && EndsLine(data, e) {
      LineEndAppend(data, more, pos);
      assert EndsLine(longer, e);
      assert longer[pos..e - 1] == data[pos..e - 1];
      ScanLinesAppend(data, more, e, rule);
      if rule(data[pos..e - 1]).None? {
        assert ScanLines(data, pos, rule, None) == ScanLines(data, e, rule, None);
        assert ScanLines(longer, pos, rule, None) == ScanLines(longer, e, rule, None);
      }
    } else {
      assert ScanLines(data, pos, rule, None) == Exhausted(pos);
    }
  }

  /** The deadline only stops a pass early: a pass with a budget finds what the
      unbounded pass finds, and one cut short leaves an offset from which the
      unbounded pass continues to the same result. */
  lemma {:induction false} ScanLinesBudget(data: seq<byte>, pos: nat, rule: ReplyRule, budget: nat)
    requires pos <= |data|
    ensures var r := ScanLines(data, pos, rule, Some(budget));
      (r.OutOfTime? ==> ScanLines(data, pos, rule, None) == ScanLines(data, r.end, rule, None))
      && (!r.OutOfTime? ==> r == ScanLines(data, pos, rule, None))
    decreases |data| - pos
  {
    if budget > 0 {
      var e := LineEnd(data, pos);
      if e > pos && EndsLine(data, e) {
        var m := rule(data[pos..e - 1]);
        if m.None? {
          ScanLinesBudget(data, e, rule, budget - 1);
          assert ScanLines(data, pos, rule, Some(budget)) == ScanLines(data, e, rule, Some(budget - 1));
          assert ScanLines(data, pos, rule, None) == ScanLines(data, e, rule, None);
        } else {
          assert ScanLines(data, pos, rule, Some(budget)) == Found(m.value, pos, e);
          assert ScanLines(data, pos, rule, None) == Found(m.value, pos, e);
        }
      } else {
        assert ScanLines(data, pos, rule, Some(budget)) == Exhausted(pos);
        assert ScanLines(data, pos, rule, None) == Exhausted(pos);
      }
    }
  }

  /** The inner `while True` of `_read_since`: read complete lines from `start` until one
      carries a reply, the data runs out or ends in a partial line (which is left
      unread), or, when `limit` is given, the deadline passes. */
  method ReadLines(data: seq<byte>, start: nat, rule: ReplyRule, limit: Option<nat>)
    returns (reply: Option<string>, offset: nat, timedOut: bool)
    requires start <= |data|
    ensures match ScanLines(data, start, rule, limit)
      case Found(text, _, e) => reply == Some(text) && offset == e && !timedOut
      case Exhausted(e) => reply == None && offset == e && !timedOut
      case OutOfTime(e) => reply == None && offset == e && timedOut
  {
    offset := start;
    var left := limit;
    while true
      invariant start <= offset <= |data|
      invariant ScanLines(data, start, rule, limit) == ScanLines(data, offset, rule, left)
      decreases |data| - offset
    {
      if left == Some(0) {
        return None, offset, true;
      }
      var lineEnd := LineEnd(data, offset);
      // End of data, or a last line the writer may still be appending: leave it
      // for the next poll.
      if lineEnd == offset || data[lineEnd - 1] != NL {
        return None, offset, false;
      }
      var message := rule(data[offset..lineEnd - 1]);
      if message.Some? {
        return message, lineEnd, false;
      }
      left := if left.Some? then Some(left.value - 1) else None;
      offset := lineEnd;
    }
  }

  // ---------------------------------------------------------------------------
  // `_read_since`

  /** One turn of the outer polling loop, as far as the reader can tell: the
      filesystem it sees, how many `readline` calls it makes before the deadline
      passes, whether the rescan interval has elapsed, and whether the deadline has
      passed once the turn's sleep is over. */
  datatype Tick = Tick(fs: Fs, readBudget: nat, rescanDue: bool, expiredAfterSleep: bool)

  /** What a call of `_read_since` returns: the reply and the new state, or
      `StillWaiting` when the turns on offer ran out before the call returned. */
  datatype Poll = Returned(reply: Option<string>, state: Cursor) | StillWaiting

  /** The call's result together with the reader's `_preferred_log` afterwards. */
  datatype Outcome = Outcome(poll: Poll, preferred: Option<Path>)

  datatype Step = Done(outcome: Outcome) | Next(preferred: Option<Path>, current: Option<Path>, offset: int)

  /** `ensure_log`: the preferred log if it exists, else the state's log if it exists,
      else the scanned latest (which becomes the preferred log). */
  function EnsureLog(preferred: Option<Path>, current: Option<Path>, fs: Fs): (r: Resolution)
    ensures r.log.Some? ==> r.log.value in fs.files
    ensures r.log.None? <==> !Present(fs, preferred) && !Present(fs, current) && ScanLatestSpec(fs).None?
    ensures Present(fs, preferred) ==> r.log == preferred
    ensures r.preferred != preferred ==> !Present(fs, preferred) && !Present(fs, current) && r.preferred == ScanLatestSpec(fs) == r.log
  {
    if Present(fs, preferred) then Resolution(preferred, preferred)
    else if Present(fs, current) then Resolution(current, preferred)
    else match ScanLatestSpec(fs)
      case Some(l) => Resolution(Some(l), Some(l))
      case None => Resolution(None, preferred)
  }

  /** Where the inner read starts: a missing baseline (negative offset) means the end of
      the file, and an offset past the end is pulled back to it. */
  function StartOffset(offset: int, size: nat): (s: nat)
    ensures s <= size
  {
    if offset < 0 || offset > size then size else offset
  }

  function Limit(block: bool, budget: nat): Option<nat>
  {
    if block then Some(budget) else None
  }

  /** The rescan is due and finds a log other than the one just read. */
  predicate Rotates(t: Tick, log: Path)
  {
    t.rescanDue && ScanLatestSpec(t.fs).Some? && ScanLatestSpec(t.fs).value != log
  }

  /** One turn of the outer loop of `_read_since`. */
  function Iterate(preferred: Option<Path>, current: Option<Path>, offset: int, t: Tick, block: bool, rule: ReplyRule): (r: Step)
    ensures !block ==> r.Done?
    ensures r.Done? ==> r.outcome.poll.Returned?
  {
    var res := EnsureLog(preferred, current, t.fs);
    match res.log
    case None =>
      if block then Next(res.preferred, current, offset)
      else Done(Outcome(Returned(None, Cursor(None, 0)), res.preferred))
    case Some(log) =>
      var data := t.fs.files[log].data;
      var start := StartOffset(offset, |data|);
      match ScanLines(data, start, rule, Limit(block, t.readBudget))
      case Found(text, s, e) => Done(Outcome(Returned(Some(text), Cursor(Some(log), e)), res.preferred))
      case OutOfTime(e) => Done(Outcome(Returned(None, Cursor(Some(log), e)), res.preferred))
      case Exhausted(e) =>
        var latest := ScanLatestSpec(t.fs);
        if Rotates(t, log) then
          // rotation: start the new log from its first byte
          if block then Next(latest, latest, 0)
          else Done(Outcome(Returned(None, Cursor(latest, 0)), latest))
        else if !block || t.expiredAfterSleep then Done(Outcome(Returned(None, Cursor(Some(log), e)), res.preferred))
        else Next(res.preferred, current, e)
  }

  /** A reply comes with the offset just past its own complete line of the log it
      was read from. */
  lemma IterateReplyLine(preferred: Option<Path>, current: Option<Path>, offset: int, t: Tick, block: bool, rule: ReplyRule)
    ensures var r := Iterate(preferred, current, offset, t, block, rule);
      r.Done? && r.outcome.poll.reply.Some? ==>
        var c := r.outcome.poll.state;
        && c.logPath.Some? && c.logPath.value in t.fs.files
        && exists s :: ReplyLine(t.fs.files[c.logPath.value].data, rule, s, c.offset, r.outcome.poll.reply.value)
  {
    var r := Iterate(preferred, current, offset, t, block, rule);
    var log := EnsureLog(preferred, current, t.fs).log;
    if r.Done? && r.outcome.poll.reply.Some? {
      var data := t.fs.files[log.value].data;
      var scan := ScanLines(data, StartOffset(offset, |data|), rule, Limit(block, t.readBudget));
      ScanLinesStops(data, StartOffset(offset, |data|), rule, Limit(block, t.readBudget));
      assert scan.Found?;
      assert ReplyLine(data, rule, scan.lineStart, scan.end, scan.text);
    }
  }

  /** A cursor that stays on the log it read lies inside it, at the offset the read
      started from or just past a '\n'; when the call goes on waiting on the same
      log, nothing but a partial line lies beyond it. */
  lemma IterateOffsetOnLineBoundary(preferred: Option<Path>, current: Option<Path>, offset: int, t: Tick, block: bool, rule: ReplyRule)
    ensures var log := EnsureLog(preferred, current, t.fs).log;
      var r := Iterate(preferred, current, offset, t, block, rule);
      log.Some? ==> var data := t.fs.files[log.value].data;
        var s := StartOffset(offset, |data|);
        && (r.Done? && r.outcome.poll.state.logPath == log ==>
             var e := r.outcome.poll.state.offset; s <= e <= |data| && (e == s || EndsLine(data, e)))
        && (r.Next? && !Rotates(t, log.value) ==>
             var e := r.offset; s <= e <= |data| && (e == s || EndsLine(data, e)) && NoNewlineFrom(data, e))
  {
    var log := EnsureLog(preferred, current, t.fs).log;
    if log.Some? {
      var data := t.fs.files[log.value].data;
      ScanLinesStops(data, StartOffset(offset, |data|), rule, Limit(block, t.readBudget));
    }
  }

  /** `_read_since` over the turns on offer. */
  function ReadSinceSpec(preferred: Option<Path>, current: Option<Path>, offset: int, ticks: seq<Tick>, block: bool, rule: ReplyRule): Outcome
    decreases |ticks|
  {
    if ticks == [] then Outcome(StillWaiting, preferred)
    else match Iterate(preferred, current, offset, ticks[0], block, rule)
      case Done(o) => o
      case Next(p, c, off) => ReadSinceSpec(p, c, off, ticks[1..], block, rule)
  }

  /** Within one file the offset only moves forward: reading the log the state points
      at, from an offset inside it, never yields a smaller offset for that log. */
  lemma IterateOffsetMonotonic(preferred: Option<Path>, current: Option<Path>, offset: int, t: Tick, block: bool, rule: ReplyRule)
    requires EnsureLog(preferred, current, t.fs).log == current
    requires current.Some? && 0 <= offset <= |t.fs.files[current.value].data|
    ensures var r := Iterate(preferred, current, offset, t, block, rule);
      (r.Done? && r.outcome.poll.state.logPath == current ==> offset <= r.outcome.poll.state.offset)
      && (r.Next? && r.current == current ==> offset <= r.offset)
  {
  }

  /** A non-blocking call returns on the first turn, and a blocking call stops at the
      deadline only once a log exists: with no log anywhere it keeps waiting however
      many turns pass. */
  lemma {:induction false} BlockingWithoutLogWaits(preferred: Option<Path>, current: Option<Path>, offset: int, ticks: seq<Tick>, rule: ReplyRule)
    requires forall k :: 0 <= k < |ticks| ==>
      !Present(ticks[k].fs, preferred) && !Present(ticks[k].fs, current) && ScanLatestSpec(ticks[k].fs).None?
    ensures ReadSinceSpec(preferred, current, offset, ticks, true, rule) == Outcome(StillWaiting, preferred)
    decreases |ticks|
  {
    if ticks != [] {
      BlockingWithoutLogWaits(preferred, current, offset, ticks[1..], rule);
    }
  }

  /** Two non-blocking polls of a log that grew in between deliver what one poll of
      the grown log would have delivered from the first poll's offset: nothing is
      lost or delivered twice across a partially written line. */
  lemma PollTwiceAsOnce(preferred: Option<Path>, offset: int, t1: Tick, t2: Tick, rule: ReplyRule)
    requires Present(t1.fs, preferred) && !t1.rescanDue && !t2.rescanDue
    requires var p := preferred.value;
      p in t2.fs.files && t1.fs.files[p].data <= t2.fs.files[p].data && 0 <= offset <= |t1.fs.files[p].data|
    ensures var first := Iterate(preferred, preferred, offset, t1, false, rule).outcome.poll;
      first.reply.None? ==>
        Iterate(preferred, preferred, first.state.offset, t2, false, rule)
        == Iterate(preferred, preferred, offset, t2, false, rule)
  {
    var p := preferred.value;
    var d1 := t1.fs.files[p].data;
    var d2 := t2.fs.files[p].data;
    assert d2 == d1 + d2[|d1|..];
    ScanLinesStops(d1, offset, rule, None);
    ScanLinesAppend(d1, d2[|d1|..], offset, rule);
  }

  /** After a rotation the new log is read from its first byte, so a reply written to
      it before the rotation was noticed is delivered by the next poll. */
  lemma RotationLosesNothing(preferred: Option<Path>, current: Option<Path>, offset: int, t1: Tick, t2: Tick, rule: ReplyRule)
    requires var r := Iterate(preferred, current, offset, t1, false, rule).outcome;
      r.poll.state.logPath != EnsureLog(preferred, current, t1.fs).log
    requires var b := ScanLatestSpec(t1.fs); b.Some? && b.value in t2.fs.files
    ensures var r := Iterate(preferred, current, offset, t1, false, rule).outcome;
      var b := ScanLatestSpec(t1.fs);
      r == Outcome(Returned(None, Cursor(b, 0)), b)
      && Iterate(b, b, 0, t2, false, rule).outcome.poll.reply
         == match ScanLines(t2.fs.files[b.value].data, 0, rule, None)
            case Found(text, _, _) => Some(text)
            case _ => None
  {
    var log := EnsureLog(preferred, current, t1.fs).log;
    if log.Some? {
      var data := t1.fs.files[log.value].data;
      ScanLinesStops(data, StartOffset(offset, |data|), rule, None);
    }
    var b := ScanLatestSpec(t1.fs);
    ScanLinesStops(t2.fs.files[b.value].data, 0, rule, None);
  }

  // ---------------------------------------------------------------------------
  // `latest_message`

  const CHUNK: nat := 4096
  const TAIL_LIMIT: nat := 262144
  const TAIL_LINES: nat := 50

  /** Where the backwards chunked read of `latest_message` stops, starting from
      `position`: it prepends 4096-byte chunks while the position is positive and the
      buffer is under 256 KiB, and stops early once the buffer holds 50 newlines. */
  function TailStart(data: seq<byte>, position: nat): (s: nat)
    requires position <= |data|
    ensures s <= position
    decreases position
  {
    if position == 0 || |data| - position >= TAIL_LIMIT then position
    else
      var p := position - Min(CHUNK, position);
      if CountNewlines(data[p..]) >= TAIL_LINES then p else TailStart(data, p)
  }

  /** The read stops only at the start of the file, at 256 KiB, or with 50 newlines in
      hand; it moves in whole chunks except for the last, partial one; and it
      overshoots 256 KiB by less than one chunk. */
  lemma {:induction false} TailStartStops(data: seq<byte>, position: nat)
    requires position <= |data|
    ensures var s := TailStart(data, position);
      && (s == 0 || |data| - s >= TAIL_LIMIT || CountNewlines(data[s..]) >= TAIL_LINES)
      && (s == position || (position - s) % CHUNK == 0 || s == 0)
      && (|data| - position < TAIL_LIMIT ==> |data| - s < TAIL_LIMIT + CHUNK)
    decreases position
  {
    if !(position == 0 || |data| - position >= TAIL_LIMIT) {
      var p := position - Min(CHUNK, position);
      if CountNewlines(data[p..]) < TAIL_LINES {
        TailStartStops(data, p);
      }
    }
  }

  function Min(a: nat, b: nat): nat
  {
    if a <= b then a else b
  }

  /** The backwards chunked read of `latest_message`. */
  method ReadTail(data: seq<byte>) returns (buffer: seq<byte>)
    ensures buffer == data[TailStart(data, |data|)..]
  {
    buffer := [];
    var position := |data|;
    while position > 0 && |buffer| < TAIL_LIMIT
      invariant 0 <= position <= |data|
      invariant buffer == data[position..]
      invariant TailStart(data, |data|) == TailStart(data, position)
    {
      var readSize := Min(CHUNK, position);
      ghost var previous := position;
      position := position - readSize;
      buffer := data[position..position + readSize] + buffer;
      assert buffer == data[position..];
      assert TailStart(data, previous) == if CountNewlines(buffer) >= TAIL_LINES then position else TailStart(data, position);
      if CountNewlines(buffer) >= TAIL_LINES {
        return;
      }
    }
    assert TailStart(data, position) == position;
  }

  /** `splitlines()` restricted to '\n': the lines of `buf` without their
      terminators, with no empty piece after a final '\n'. */
  function SplitLines(buf: seq<byte>): (lines: seq<seq<byte>>)
    decreases |buf|
  {
    if buf == [] then []
    else
      var e := LineEnd(buf, 0);
      var line := if EndsLine(buf, e) then buf[..e - 1] else buf[..e];
      [line] + SplitLines(buf[e..])
  }

  /** Every line followed by a '\n'. */
  function JoinLines(lines: seq<seq<byte>>): seq<byte>
  {
    if lines == [] then [] else lines[0] + [NL] + JoinLines(lines[1..])
  }

  /** Splitting loses nothing: joining the lines back gives the buffer, plus a '\n'
      when its last line was unterminated. */
  lemma {:induction false} SplitLinesRoundTrip(buf: seq<byte>)
    ensures JoinLines(SplitLines(buf)) == if buf == [] || buf[|buf| - 1] == NL then buf else buf + [NL]
    decreases |buf|
  {
    if buf != [] {
      var e := LineEnd(buf, 0);
      var rest := buf[e..];
      SplitLinesRoundTrip(rest);
      assert buf == buf[..e] + rest;
      if EndsLine(buf, e) {
        assert buf[..e] == buf[..e - 1] + [NL];
        assert JoinLines(SplitLines(buf)) == buf[..e - 1] + [NL] + JoinLines(SplitLines(rest));
      } else {
        assert e == |buf| && buf[..e] == buf;
      }
    }
  }

  /** Splitting invents no line break: no line holds a '\n'. */
  lemma {:induction false} SplitLinesHaveNoNewline(buf: seq<byte>)
    ensures forall k :: 0 <= k < |SplitLines(buf)| ==> NL !in SplitLines(buf)[k]
    decreases |buf|
  {
    if buf != [] {
      var e := LineEnd(buf, 0);
      SplitLinesHaveNoNewline(buf[e..]);
      var line := if EndsLine(buf, e) then buf[..e - 1] else buf[..e];
      assert NL !in line by {
        forall k | 0 <= k < |line| ensures line[k] != NL {
          assert line[k] == buf[k];
        }
      }
      assert SplitLines(buf) == [line] + SplitLines(buf[e..]);
    }
  }

  /** Scanning `lines[..i]` from the last line back, the first non-empty reply. */
  function LastReply(lines: seq<seq<byte>>, rule: ReplyRule, i: nat): (r: Option<string>)
    requires i <= |lines|
    decreases i
  {
    if i == 0 then None
    else
      var m := rule(lines[i - 1]);
      if NonEmptyReply(m) then m else LastReply(lines, rule, i - 1)
  }

  /** The reply found is the non-empty reply of the last line that has one, and there
      is none exactly when no line has one. */
  lemma {:induction false} LastReplyIsLast(lines: seq<seq<byte>>, rule: ReplyRule, i: nat)
    requires i <= |lines|
    ensures var r := LastReply(lines, rule, i);
      && (r.Some? ==> r.value != [] && exists k :: 0 <= k < i && rule(lines[k]) == r && NoReplyAfter(lines, rule, k, i))
      && (r.None? <==> NoReplyAfter(lines, rule, -1, i))
    decreases i
  {
    if i > 0 && !NonEmptyReply(rule(lines[i - 1])) {
      LastReplyIsLast(lines, rule, i - 1);
      var r := LastReply(lines, rule, i - 1);
      if r.Some? {
        var k :| 0 <= k < i - 1 && rule(lines[k]) == r && NoReplyAfter(lines, rule, k, i - 1);
        assert NoReplyAfter(lines, rule, k, i);
      }
    }
  }

  /** No line strictly between `k` and `i` carries a non-empty reply. */
  predicate NoReplyAfter(lines: seq<seq<byte>>, rule: ReplyRule, k: int, i: nat)
    requires i <= |lines|
  {
    forall j :: k < j < i && 0 <= j ==> !NonEmptyReply(rule(lines[j]))
  }

  /** `if message:` */
  predicate NonEmptyReply(m: Option<string>)
  {
    m.Some? && m.value != []
  }

  /** `latest_message` against a snapshot, and `_preferred_log` afterwards. */
  function LatestMessageSpec(preferred: Option<Path>, fs: Fs, rule: ReplyRule): (r: Option<string>)
  {
    match ResolveLog(preferred, fs).log
    case None => None
    case Some(p) =>
      var data := fs.files[p].data;
      var lines := SplitLines(data[TailStart(data, |data|)..]);
      LastReply(lines, rule, |lines|)
  }

  /** Asking for the latest message twice against the same files gives the same
      answer; the first call may only settle the preferred log. */
  lemma LatestMessageStable(preferred: Option<Path>, fs: Fs, rule: ReplyRule)
    ensures LatestMessageSpec(ResolveLog(preferred, fs).preferred, fs, rule) == LatestMessageSpec(preferred, fs, rule)
  {
    ResolveLogIdempotent(preferred, fs);
  }

  // ---------------------------------------------------------------------------
  // The reader object

  class CodexLogReader {
    /** `_preferred_log` */
    var preferredLog: Option<Path>

    constructor (logPath: Option<Path>)
      ensures preferredLog == Normalize(logPath)
    {
      preferredLog := Normalize(logPath);
    }

    /** `set_preferred_log` */
    method SetPreferredLog(logPath: Option<Path>)
      modifies this
      ensures preferredLog == Normalize(logPath)
    {
      preferredLog := Normalize(logPath);
    }

    /** `_latest_log` (also `current_log_path`) */
    method LatestLog(fs: Fs) returns (log: Option<Path>)
      modifies this
      ensures Resolution(log, preferredLog) == ResolveLog(old(preferredLog), fs)
    {
      var preferred := preferredLog;
      var latest := ScanLatest(fs);
      if latest.Some? {
        if !Present(fs, preferred) || latest.value != preferred.value {
          var preferredMtime := if Present(fs, preferred) then fs.files[preferred.value].mtime else 0;
          var latestMtime := fs.files[latest.value].mtime;
          if latestMtime > preferredMtime {
            preferredLog := latest;
            return latest;
          }
        }
        return if Present(fs, preferred) then preferred else latest;
      }
      return if Present(fs, preferred) then preferred else None;
    }

    /** `capture_state`: the resolved log and its current size as the baseline, or no
        log and offset -1. */
    method CaptureState(fs: Fs) returns (state: Cursor)
      modifies this
      ensures var r := ResolveLog(old(preferredLog), fs);
        preferredLog == r.preferred
        && state == Cursor(r.log, if r.log.Some? then |fs.files[r.log.value].data| else -1)
    {
      var log := LatestLog(fs);
      var offset := -1;
      if log.Some? && log.value in fs.files {
        offset := |fs.files[log.value].data|;
      }
      return Cursor(log, offset);
    }

    /** `latest_message` */
    method LatestMessage(fs: Fs, rule: ReplyRule) returns (message: Option<string>)
      modifies this
      ensures preferredLog == ResolveLog(old(preferredLog), fs).preferred
      ensures message == LatestMessageSpec(old(preferredLog), fs, rule)
    {
      var logPath := LatestLog(fs);
      if logPath.None? || logPath.value !in fs.files {
        return None;
      }
      var buffer := ReadTail(fs.files[logPath.value].data);
      var lines := SplitLines(buffer);
      var i := |lines|;
      while i > 0
        invariant 0 <= i <= |lines|
        invariant LastReply(lines, rule, |lines|) == LastReply(lines, rule, i)
      {
        var m := rule(lines[i - 1]);
        assert LastReply(lines, rule, i) == if NonEmptyReply(m) then m else LastReply(lines, rule, i - 1);
        if m.Some? && m.value != [] {
          return m;
        }
        i := i - 1;
      }
      return None;
    }

    /** `ensure_log` */
    method EnsureLogStep(current: Option<Path>, fs: Fs) returns (log: Option<Path>)
      modifies this
      ensures Resolution(log, preferredLog) == EnsureLog(old(preferredLog), current, fs)
    {
      if Present(fs, preferredLog) {
        return preferredLog;
      }
      if Present(fs, current) {
        return current;
      }
      var latest := ScanLatest(fs);
      if latest.Some? {
        preferredLog := latest;
        return latest;
      }
      return None;
    }

    /** `_read_since`, `wait_for_message` (`block`) and `try_get_message` (not `block`),
        over the turns `ticks` of its polling loop. */
    method ReadSince(state: Cursor, ticks: seq<Tick>, block: bool, rule: ReplyRule) returns (result: Poll)
      modifies this
      ensures Outcome(result, preferredLog) == ReadSinceSpec(old(preferredLog), Normalize(state.logPath), state.offset, ticks, block, rule)
    {
      var currentPath := Normalize(state.logPath);
      var offset := state.offset;
      var i := 0;
      while i < |ticks|
        invariant 0 <= i <= |ticks|
        invariant ReadSinceSpec(old(preferredLog), Normalize(state.logPath), state.offset, ticks, block, rule)
          == ReadSinceSpec(preferredLog, currentPath, offset, ticks[i..], block, rule)
      {
        var t := ticks[i];
        ghost var step := Iterate(preferredLog, currentPath, offset, t, block, rule);
        assert ticks[i..][1..] == ticks[i + 1..];
        assert ReadSinceSpec(preferredLog, currentPath, offset, ticks[i..], block, rule)
          == match step
             case Done(o) => o
             case Next(p, c, off) => ReadSinceSpec(p, c, off, ticks[i + 1..], block, rule);
        var logPath := EnsureLogStep(currentPath, t.fs);
        if logPath.None? {
          if !block {
            return Returned(None, Cursor(None, 0));
          }
        } else {
          var data := t.fs.files[logPath.value].data;
          var size := |data|;
          if offset < 0 {
            offset := size;
          }
          if offset > size {
            offset := size;
          }
          var reply, newOffset, timedOut := ReadLines(data, offset, rule, Limit(block, t.readBudget));
          offset := newOffset;
          if timedOut || reply.Some? {
            return Returned(reply, Cursor(logPath, offset));
          }
          var rotated := false;
          if t.rescanDue {
            var latest := ScanLatest(t.fs);
            if latest.Some? && latest != logPath {
              currentPath := latest;
              preferredLog := latest;
              offset := 0;
              if !block {
                return Returned(None, Cursor(currentPath, offset));
              }
              rotated := true;
            }
          }
          if !rotated && (!block || t.expiredAfterSleep) {
            return Returned(None, Cursor(logPath, offset));
          }
        }
        i := i + 1;
      }
      return StillWaiting;
    }
  }
}
