/**
 * The logger's process-wide state and its operations: initialising (with a
 * truncating write of a banner or initial text), emitting plain, leveled,
 * formatted and verbatim entries (each an appending write), reconfiguring
 * the buffer size, prefix table and time format, and closing.
 *
 * The file system is the map `files` from file name to contents. Whether an
 * fopen succeeds is a parameter of each operation that writes (`opens`); an
 * opened file takes the whole string. The clock is the parameter `now`.
 */
module Logger {
  import opened Layout
  import opened ClockText

  datatype Option<T> = None | Some(value: T)

  // The severity levels.
  const DEBUG := 0
  const ERROR := 1
  const INFORMATION := 2
  const WARNING := 3
  const PRINT := 4
  const NONE := 99

  const MIN_BUFFER_SIZE := 1024
  const DEFAULT_PREFIXES: seq<string> := ["[DEBUG]", "[ERROR]", "[INFO]", "[WARNING]"]

  /** A prefix table: an entry, a C string, for each of the four leveled severities. */
  predicate IsPrefixTable(p: seq<string>) {
    |p| >= 4 && forall i :: 0 <= i < 4 ==> IsCText(p[i])
  }

  /** The levels log_format writes with a time stamp: the four leveled ones and NONE. */
  predicate Stamped(level: int) {
    DEBUG <= level <= WARNING || level == NONE
  }

  /** The contents of a file; a file that does not exist reads as empty. */
  function FileText(files: map<string, string>, name: string): string {
    if name in files then files[name] else []
  }

  /** The files after an appending write of s to `name` (fopen "a" creates a missing file). */
  function AppendedTo(files: map<string, string>, name: string, s: string): (r: map<string, string>)
    ensures r.Keys == files.Keys + {name}
    ensures FileText(r, name) == FileText(files, name) + s
    ensures forall n :: n in files && n != name ==> n in r && r[n] == files[n]
  {
    files[name := FileText(files, name) + s]
  }

  function ZeroBuffer(n: nat): (a: seq<char>)
    ensures |a| == n && AllZero(a)
  {
    seq(n, _ => '\0')
  }

  /** What log_init writes: the caller's initial text, or the "# Log started" banner. */
  function InitContent(initialText: Option<string>, use24Hour: bool, now: Clock): (r: string)
    ensures initialText.None? ==> IsCText(r)
    ensures initialText.Some? ==> r == initialText.value
  {
    match initialText
    case Some(t) => t
    case None => Banner(DateText(now), TimeText(use24Hour, now))
  }

  /**
   * Whether log_init's write count matches what strlen then finds in the
   * buffer. The write returns the bytes written: all of them, or 0 when the
   * file did not open. It zeroes the buffer only when the file opened and
   * the log was already initialized; otherwise the content is still there.
   */
  function InitMatches(wasInitialized: int, didOpen: bool, len: nat): (r: bool)
    ensures r <==> len == 0 || (didOpen && wasInitialized == 0)
  {
    var written := if didOpen then len else 0;
    var remaining := if didOpen && wasInitialized != 0 then 0 else len;
    written == remaining
  }

  /**
   * The value log_init leaves in the initialized flag and returns: 1 when
   * the counts match, and otherwise the raw count of bytes written.
   */
  function InitStatus(wasInitialized: int, didOpen: bool, len: nat): (r: int)
    ensures r >= 0
    ensures r != 0 <==> didOpen || len == 0
    ensures InitMatches(wasInitialized, didOpen, len) ==> r == 1
    ensures wasInitialized == 0 ==> r == 0 || r == 1
    ensures wasInitialized == 0 && didOpen ==> r == 1
    ensures wasInitialized != 0 && didOpen && len > 0 ==> r == len
  {
    if InitMatches(wasInitialized, didOpen, len) then 1 else if didOpen then len else 0
  }

  /** The segment log_format writes before the formatted text at a stamped level. */
  function Head(level: int, time: string, table: Option<seq<string>>): (r: string)
    requires Stamped(level)
    requires level != NONE ==> table.Some? && |table.value| >= 4
    ensures r != [] && r[0] == '['
    ensures IsCText(time) && (level != NONE ==> IsCText(table.value[level])) ==> IsCText(r)
  {
    if level == NONE then PlainHead(time) else LeveledHead(time, table.value[level])
  }

  /**
   * The text log_format's final append writes at a stamped level: the C
   * string of the buffer once the body is rendered into it and its
   * terminator is replaced by a newline when the body lacks one. Before the
   * body, the buffer is zeroed when the time-stamp segment was appended, and
   * otherwise still holds that segment.
   */
  function FormatTail(prior: seq<char>, head: string, headWritten: bool, body: string): (r: string)
    requires FormatFits(body, |prior|) && IsCText(body) && |head| < |prior|
    ensures WithNewline(body) <= r
    ensures headWritten ==> r == WithNewline(body)
    ensures body[|body| - 1] == '\n' ==> r == body
  {
    var before := if headWritten then ZeroBuffer(|prior|) else Rendered(prior, head);
    FormattedStartsWithBody(before, body);
    assert headWritten ==> CString(FormattedBuffer(before, body)) == WithNewline(body) by {
      if headWritten {
        FormattedFromZeros(before, body);
      }
    }
    CString(FormattedBuffer(before, body))
  }

  /**
   * When the time-stamp segment was not appended (the log is not
   * initialized, or its file did not open) the buffer was not zeroed, and a
   * body shorter than the segment is followed, after the forced newline, by
   * the segment's leftover characters up to its own terminator.
   */
  lemma {:induction false} FormatTailShowsLeftover(prior: seq<char>, head: string, body: string)
    requires FormatFits(body, |prior|) && IsCText(body) && IsCText(head) && |head| < |prior|
    requires |body| + 1 < |head| && body[|body| - 1] != '\n'
    ensures FormatTail(prior, head, false, body) == body + "\n" + head[|body| + 1..]
  {
    var b := FormattedBuffer(Rendered(prior, head), body);
    var shown := body + "\n" + head[|body| + 1..];
    assert b == shown + ['\0'] + prior[|head| + 1..];
    assert IsCText(shown) by {
      assert forall i :: |body| + 1 <= i < |head| ==> head[i] in head;
    }
    UpToStopsAt(shown, '\0', prior[|head| + 1..]);
  }

  /**
   * When the time-stamp segment was not appended but the body, with its
   * forced newline, covers the segment up to its terminator, and the buffer
   * held zeros past the body, nothing is left over: the final append is the
   * body with its forced newline.
   */
  lemma FormatTailOverLongerBody(prior: seq<char>, head: string, body: string)
    requires FormatFits(body, |prior|) && IsCText(body) && |head| < |prior|
    requires |head| <= |body| + 1 && AllZero(prior[|body| + 1..])
    ensures FormatTail(prior, head, false, body) == WithNewline(body)
  {
    var b := FormattedBuffer(Rendered(prior, head), body);
    if body[|body| - 1] == '\n' {
      FormattedStartsWithBody(Rendered(prior, head), body);
    } else {
      assert prior[|body| + 1..][0] == '\0';
      assert b == (body + "\n") + ['\0'] + prior[|body| + 2..];
      UpToStopsAt(body + "\n", '\0', prior[|body| + 2..]);
    }
  }

  /**
   * Appending a complete line to a log file made of lines adds exactly one
   * line, last: entries read back in the order they were written.
   */
  lemma EntryReadsBackLast(files: map<string, string>, name: string, ls: seq<string>, line: string)
    requires FileText(files, name) == JoinLines(ls) && NoNewlines(ls) && IsLine(line)
    ensures SplitLines(FileText(AppendedTo(files, name, line), name)) == ls + [Chop(line)]
  {
    AppendedLineReadsBackLast(ls, line);
  }

  /** The logger's process-wide state: the static variables of the logging module. */
  class Log {
    var bufferSize: int
    var filename: Option<string>
    var buffer: array?<char>
    var initialized: int
    var bufferAlloced: bool
    var prefixes: Option<seq<string>>
    var use24Hour: bool
    var files: map<string, string>

    ghost predicate Valid()
      reads this
    {
      && bufferSize >= MIN_BUFFER_SIZE
      && (bufferAlloced <==> buffer != null)
      && (buffer != null ==> buffer.Length == bufferSize)
      && initialized >= 0
      && (initialized != 0 ==> filename.Some? && prefixes.Some?)
      && (bufferAlloced ==> filename.Some?)
      && (prefixes.Some? ==> IsPrefixTable(prefixes.value))
    }

    /** The state at process start; `existing` is the file system as found. */
    constructor (existing: map<string, string>)
      ensures Valid()
      ensures bufferSize == MIN_BUFFER_SIZE && filename == None && buffer == null
      ensures initialized == 0 && !bufferAlloced && prefixes == None && use24Hour
      ensures files == existing
    {
      bufferSize := MIN_BUFFER_SIZE;
      filename := None;
      buffer := null;
      initialized := 0;
      bufferAlloced := false;
      prefixes := None;
      use24Hour := true;
      files := existing;
    }

    /** Whether an emitting call gets past its guard: initialized, with a non-null, non-empty text. */
    ghost predicate Accepts(text: Option<string>)
      reads this
    {
      initialized != 0 && text.Some? && text.value != []
    }

    /** Whether log_init gets past its guard: a non-empty file name is given or one is stored. */
    ghost predicate Proceeds(name: Option<string>)
      reads this
    {
      !((name.None? || name.value == []) && filename.None?)
    }

    /** empty(): zero every byte of the buffer, but only once initialized and allocated. */
    method Empty()
      requires Valid()
      modifies buffer
      ensures initialized != 0 && bufferAlloced ==> AllZero(buffer[..])
      ensures !(initialized != 0 && bufferAlloced) && buffer != null ==> buffer[..] == old(buffer[..])
    {
      if initialized == 0 || !bufferAlloced {
        return;
      }
      for i := 0 to bufferSize
        invariant forall k :: 0 <= k < i ==> buffer[k] == '\0'
      {
        buffer[i] := '\0';
      }
    }

    /** sprintf/strcpy of the C string s into the buffer. */
    method Render(s: string)
      requires Valid() && bufferAlloced && |s| < bufferSize
      modifies buffer
      ensures buffer[..] == Rendered(old(buffer[..]), s)
    {
      forall i | 0 <= i < |s| {
        buffer[i] := s[i];
      }
      buffer[|s|] := '\0';
      assert buffer[..] == Rendered(old(buffer[..]), s);
    }

    /** APPEND: an appending write of s to the stored file, then empty(); 0 when the file does not open. */
    method Append(s: string, opens: bool) returns (w: int)
      requires Valid() && filename.Some?
      modifies this`files, buffer
      ensures Valid()
      ensures w == (if opens then |s| else 0)
      ensures files == (if opens then AppendedTo(old(files), filename.value, s) else old(files))
      ensures opens && initialized != 0 && bufferAlloced ==> AllZero(buffer[..])
      ensures !(opens && initialized != 0 && bufferAlloced) && buffer != null ==> buffer[..] == old(buffer[..])
    {
      if opens {
        files := AppendedTo(files, filename.value, s);
        Empty();
        return |s|;
      }
      return 0;
    }

    /** WRITE: a truncating write of s to the stored file, then empty(); 0 when the file does not open. */
    method Write(s: string, opens: bool) returns (w: int)
      requires Valid() && filename.Some?
      modifies this`files, buffer
      ensures Valid()
      ensures w == (if opens then |s| else 0)
      ensures files == (if opens then old(files)[filename.value := s] else old(files))
      ensures opens && initialized != 0 && bufferAlloced ==> AllZero(buffer[..])
      ensures !(opens && initialized != 0 && bufferAlloced) && buffer != null ==> buffer[..] == old(buffer[..])
    {
      if opens {
        files := files[filename.value := s];
        Empty();
        return |s|;
      }
      return 0;
    }

    /** log_close: release the buffer. The file name, flag and prefixes stay; closing twice is harmless. */
    method Close()
      requires Valid()
      modifies this`buffer, this`bufferAlloced
      ensures Valid()
      ensures buffer == null && !bufferAlloced
    {
      bufferAlloced := false;
      buffer := null;
    }

    /**
     * log_init. Returns 0 and changes nothing when no file name is given and
     * none is stored. Otherwise allocates a zeroed buffer on first use,
     * stores the name unless already initialized, writes the banner or the
     * initial text with a truncating write, and stores and returns
     * InitStatus; when that is 1, installs the caller's prefixes or the
     * defaults.
     */
    method Init(name: Option<string>, table: Option<seq<string>>, initialText: Option<string>, now: Clock, opens: bool)
      returns (r: int)
      requires Valid()
      requires table.Some? ==> IsPrefixTable(table.value)
      requires initialText.Some? ==> IsCText(initialText.value)
      requires Proceeds(name) ==> initialized == 0 || bufferAlloced
      requires Proceeds(name) ==> |InitContent(initialText, use24Hour, now)| < bufferSize
      modifies this, buffer
      ensures Valid()
      ensures !old(Proceeds(name)) ==> r == 0 && unchanged(this) && (buffer != null ==> buffer[..] == old(buffer[..]))
      ensures old(Proceeds(name)) ==>
        r == initialized == InitStatus(old(initialized), opens, |InitContent(initialText, use24Hour, now)|)
      ensures old(Proceeds(name)) ==>
        filename == (if old(initialized) == 0 && name.Some? then name else old(filename))
      ensures old(Proceeds(name)) ==>
        files == (if opens then old(files)[filename.value := InitContent(initialText, use24Hour, now)] else old(files))
      ensures old(Proceeds(name)) ==>
        prefixes == (if InitMatches(old(initialized), opens, |InitContent(initialText, use24Hour, now)|)
                     then Some(if table.Some? then table.value else DEFAULT_PREFIXES) else old(prefixes))
      ensures old(Proceeds(name)) ==>
        bufferSize == old(bufferSize) && use24Hour == old(use24Hour) && bufferAlloced &&
        (old(bufferAlloced) ==> buffer == old(buffer)) && (!old(bufferAlloced) ==> fresh(buffer))
      ensures old(Proceeds(name)) ==>
        if opens && old(initialized) != 0 then AllZero(buffer[..])
        else buffer[..] == Rendered(if old(buffer) != null then old(buffer[..]) else ZeroBuffer(bufferSize),
                                    InitContent(initialText, use24Hour, now))
      ensures old(Proceeds(name)) ==>
        CString(buffer[..]) == (if opens && old(initialized) != 0 then [] else InitContent(initialText, use24Hour, now))
    {
      if (name.None? || name.value == []) && filename.None? {
        return 0;
      }
      Prepare(name);
      r := WriteInitial(InitContent(initialText, use24Hour, now), table, opens);
    }

    /**
     * The first half of log_init, past its guard: store the file name unless
     * already initialized, and allocate a zeroed buffer on first use.
     */
    method Prepare(name: Option<string>)
      requires Valid() && Proceeds(name) && (initialized == 0 || bufferAlloced)
      modifies this`filename, this`buffer, this`bufferAlloced
      ensures Valid() && bufferAlloced
      ensures filename == (if initialized == 0 && name.Some? then name else old(filename))
      ensures old(bufferAlloced) ==> buffer == old(buffer)
      ensures !old(bufferAlloced) ==> fresh(buffer)
      ensures buffer[..] == if old(buffer) != null then old(buffer[..]) else ZeroBuffer(bufferSize)
    {
      // The source allocates before storing the name; the two steps are independent.
      if initialized == 0 && name.Some? {
        filename := name;
      }
      if initialized == 0 && !bufferAlloced {
        Allocate();
        assert buffer[..] == ZeroBuffer(bufferSize);
      }
    }

    /** The allocation log_init makes on first use: a buffer of the current size, zero-filled. */
    method Allocate()
      requires Valid() && !bufferAlloced && filename.Some?
      modifies this`buffer, this`bufferAlloced
      ensures Valid() && bufferAlloced && fresh(buffer) && AllZero(buffer[..])
    {
      buffer := new char[bufferSize](_ => '\0');
      bufferAlloced := true;
    }

    /**
     * The second half of log_init: render the content into the buffer, write
     * it with a truncating write, store the write's count in the flag and
     * compare it with what strlen then finds in the buffer.
     */
    method WriteInitial(content: string, table: Option<seq<string>>, opens: bool) returns (r: int)
      requires Valid() && bufferAlloced && IsCText(content) && |content| < bufferSize
      requires table.Some? ==> IsPrefixTable(table.value)
      modifies this`files, this`initialized, this`prefixes, buffer
      ensures Valid()
      ensures r == initialized == InitStatus(old(initialized), opens, |content|)
      ensures files == (if opens then old(files)[filename.value := content] else old(files))
      ensures prefixes == (if InitMatches(old(initialized), opens, |content|)
                           then Some(if table.Some? then table.value else DEFAULT_PREFIXES) else old(prefixes))
      ensures if opens && old(initialized) != 0 then AllZero(buffer[..]) else buffer[..] == Rendered(old(buffer[..]), content)
      ensures CString(buffer[..]) == (if opens && old(initialized) != 0 then [] else content)
    {
      ghost var before := buffer[..];
      Render(content);
      CStringOfRendered(before, content);
      var w := Write(CString(buffer[..]), opens);
      if opens && initialized != 0 {
        CStringOfZeros(buffer[..]);
      }
      initialized := w;
      if initialized == |CString(buffer[..])| {
        initialized := 1;
        prefixes := Some(if table.Some? then table.value else DEFAULT_PREFIXES);
      }
      r := initialized;
    }

    /** log_: append "[<time>] <text>\n". -1 when not initialized or the text is null or empty. */
    method LogPlain(text: Option<string>, now: Clock, opens: bool) returns (r: int)
      requires Valid()
      requires text.Some? ==> IsCText(text.value)
      requires Accepts(text) ==> bufferAlloced && |PlainLine(TimeText(use24Hour, now), text.value)| < bufferSize
      modifies this`files, buffer
      ensures Valid()
      ensures !Accepts(text) ==> r == -1 && files == old(files) && (buffer != null ==> buffer[..] == old(buffer[..]))
      ensures Accepts(text) ==>
        var line := PlainLine(TimeText(use24Hour, now), text.value);
        && r == (if opens then |line| else 0)
        && files == (if opens then AppendedTo(old(files), filename.value, line) else old(files))
        && (if opens then AllZero(buffer[..]) else buffer[..] == Rendered(old(buffer[..]), line))
    {
      if initialized == 0 || text.None? || text.value == [] {
        return -1;
      }
      var line := PlainLine(TimeText(use24Hour, now), text.value);
      ghost var before := buffer[..];
      Render(line);
      CStringOfRendered(before, line);
      r := Append(CString(buffer[..]), opens);
    }

    /** The code log_d, log_e, log_i and log_w share: append "[<time>]<prefix> <text>\n" for their level. */
    method LogLeveled(level: int, text: Option<string>, now: Clock, opens: bool) returns (r: int)
      requires Valid() && DEBUG <= level <= WARNING
      requires text.Some? ==> IsCText(text.value)
      requires Accepts(text) ==>
        bufferAlloced && |LeveledLine(TimeText(use24Hour, now), prefixes.value[level], text.value)| < bufferSize
      modifies this`files, buffer
      ensures Valid()
      ensures !Accepts(text) ==> r == -1 && files == old(files) && (buffer != null ==> buffer[..] == old(buffer[..]))
      ensures Accepts(text) ==>
        var line := LeveledLine(TimeText(use24Hour, now), prefixes.value[level], text.value);
        && r == (if opens then |line| else 0)
        && files == (if opens then AppendedTo(old(files), filename.value, line) else old(files))
        && (if opens then AllZero(buffer[..]) else buffer[..] == Rendered(old(buffer[..]), line))
    {
      if initialized == 0 || text.None? || text.value == [] {
        return -1;
      }
      var line := LeveledLine(TimeText(use24Hour, now), prefixes.value[level], text.value);
      ghost var before := buffer[..];
      Render(line);
      CStringOfRendered(before, line);
      r := Append(CString(buffer[..]), opens);
    }

    /** log_d: a leveled entry with the DEBUG prefix. */
    method LogDebug(text: Option<string>, now: Clock, opens: bool) returns (r: int)
      requires Valid()
      requires text.Some? ==> IsCText(text.value)
      requires Accepts(text) ==>
        bufferAlloced && |LeveledLine(TimeText(use24Hour, now), prefixes.value[DEBUG], text.value)| < bufferSize
      modifies this`files, buffer
      ensures Valid()
      ensures !Accepts(text) ==> r == -1 && files == old(files) && (buffer != null ==> buffer[..] == old(buffer[..]))
      ensures Accepts(text) ==>
        var line := LeveledLine(TimeText(use24Hour, now), prefixes.value[DEBUG], text.value);
        && r == (if opens then |line| else 0)
        && files == (if opens then AppendedTo(old(files), filename.value, line) else old(files))
        && (if opens then AllZero(buffer[..]) else buffer[..] == Rendered(old(buffer[..]), line))
    {
      r := LogLeveled(DEBUG, text, now, opens);
    }

    /** log_e: a leveled entry with the ERROR prefix. */
    method LogError(text: Option<string>, now: Clock, opens: bool) returns (r: int)
      requires Valid()
      requires text.Some? ==> IsCText(text.value)
      requires Accepts(text) ==>
        bufferAlloced && |LeveledLine(TimeText(use24Hour, now), prefixes.value[ERROR], text.value)| < bufferSize
      modifies this`files, buffer
      ensures Valid()
      ensures !Accepts(text) ==> r == -1 && files == old(files) && (buffer != null ==> buffer[..] == old(buffer[..]))
      ensures Accepts(text) ==>
        var line := LeveledLine(TimeText(use24Hour, now), prefixes.value[ERROR], text.value);
        && r == (if opens then |line| else 0)
        && files == (if opens then AppendedTo(old(files), filename.value, line) else old(files))
        && (if opens then AllZero(buffer[..]) else buffer[..] == Rendered(old(buffer[..]), line))
    {
      r := LogLeveled(ERROR, text, now, opens);
    }

    /** log_i: a leveled entry with the INFORMATION prefix. */
    method LogInfo(text: Option<string>, now: Clock, opens: bool) returns (r: int)
      requires Valid()
      requires text.Some? ==> IsCText(text.value)
      requires Accepts(text) ==>
        bufferAlloced && |LeveledLine(TimeText(use24Hour, now), prefixes.value[INFORMATION], text.value)| < bufferSize
      modifies this`files, buffer
      ensures Valid()
      ensures !Accepts(text) ==> r == -1 && files == old(files) && (buffer != null ==> buffer[..] == old(buffer[..]))
      ensures Accepts(text) ==>
        var line := LeveledLine(TimeText(use24Hour, now), prefixes.value[INFORMATION], text.value);
        && r == (if opens then |line| else 0)
        && files == (if opens then AppendedTo(old(files), filename.value, line) else old(files))
        && (if opens then AllZero(buffer[..]) else buffer[..] == Rendered(old(buffer[..]), line))
    {
      r := LogLeveled(INFORMATION, text, now, opens);
    }

    /** log_w: a leveled entry with the WARNING prefix. */
    method LogWarning(text: Option<string>, now: Clock, opens: bool) returns (r: int)
      requires Valid()
      requires text.Some? ==> IsCText(text.value)
      requires Accepts(text) ==>
        bufferAlloced && |LeveledLine(TimeText(use24Hour, now), prefixes.value[WARNING], text.value)| < bufferSize
      modifies this`files, buffer
      ensures Valid()
      ensures !Accepts(text) ==> r == -1 && files == old(files) && (buffer != null ==> buffer[..] == old(buffer[..]))
      ensures Accepts(text) ==>
        var line := LeveledLine(TimeText(use24Hour, now), prefixes.value[WARNING], text.value);
        && r == (if opens then |line| else 0)
        && files == (if opens then AppendedTo(old(files), filename.value, line) else old(files))
        && (if opens then AllZero(buffer[..]) else buffer[..] == Rendered(old(buffer[..]), line))
    {
      r := LogLeveled(WARNING, text, now, opens);
    }

    /** log_print: append the text verbatim. -1 when not initialized or the text is null or empty. */
    method LogPrint(text: Option<string>, opens: bool) returns (r: int)
      requires Valid()
      requires text.Some? ==> IsCText(text.value)
      modifies this`files, buffer
      ensures Valid()
      ensures !Accepts(text) ==> r == -1 && files == old(files)
      ensures Accepts(text) ==>
        && r == (if opens then |text.value| else 0)
        && files == (if opens then AppendedTo(old(files), filename.value, text.value) else old(files))
      ensures Accepts(text) && opens && bufferAlloced ==> AllZero(buffer[..])
      ensures !(Accepts(text) && opens) && buffer != null ==> buffer[..] == old(buffer[..])
    {
      if initialized == 0 || text.None? || text.value == [] {
        return -1;
      }
      r := Append(text.value, opens);
    }

    /**
     * log_format, with the text already rendered from its format and
     * arguments. At a stamped level the time-stamp segment goes through
     * log_print (so it is written only once initialized), then the body is
     * appended with a newline forced at its end, and only that second
     * append's count is returned. At PRINT the body is appended verbatim;
     * any other level does nothing and returns 0.
     */
    method LogFormat(level: int, body: string, now: Clock, headOpens: bool, bodyOpens: bool) returns (r: int)
      requires Valid() && IsCText(body)
      requires Stamped(level) || level == PRINT ==> bufferAlloced
      requires DEBUG <= level <= WARNING ==> prefixes.Some?
      requires Stamped(level) ==>
        FormatFits(body, bufferSize) && |Head(level, TimeText(use24Hour, now), prefixes)| < bufferSize
      requires level == PRINT ==> |body| < bufferSize
      modifies this`files, buffer
      ensures Valid()
      ensures !Stamped(level) && level != PRINT ==>
        r == 0 && files == old(files) && (buffer != null ==> buffer[..] == old(buffer[..]))
      ensures level == PRINT ==>
        && r == (if bodyOpens then |body| else 0)
        && files == (if bodyOpens then AppendedTo(old(files), filename.value, body) else old(files))
      ensures Stamped(level) ==>
        var head := Head(level, TimeText(use24Hour, now), prefixes);
        var headWritten := initialized != 0 && headOpens;
        var afterHead := if headWritten then AppendedTo(old(files), filename.value, head) else old(files);
        var tail := FormatTail(old(buffer[..]), head, headWritten, body);
        && r == (if bodyOpens then |tail| else 0)
        && files == (if bodyOpens then AppendedTo(afterHead, filename.value, tail) else afterHead)
      ensures Stamped(level) && initialized != 0 && headOpens && bodyOpens ==>
        var head := Head(level, TimeText(use24Hour, now), prefixes);
        && r == |WithNewline(body)|
        && FileText(files, filename.value) == FileText(old(files), filename.value) + head + WithNewline(body)
      ensures (Stamped(level) || level == PRINT) && initialized != 0 && bodyOpens ==> AllZero(buffer[..])
      ensures Stamped(level) && !(initialized != 0 && bodyOpens) ==>
        var head := Head(level, TimeText(use24Hour, now), prefixes);
        var prior := if initialized != 0 && headOpens then ZeroBuffer(bufferSize) else Rendered(old(buffer[..]), head);
        buffer[..] == FormattedBuffer(prior, body)
      ensures level == PRINT && !(initialized != 0 && bodyOpens) ==> buffer[..] == Rendered(old(buffer[..]), body)
    {
      if Stamped(level) {
        r := LogStamped(Head(level, TimeText(use24Hour, now), prefixes), body, headOpens, bodyOpens);
      } else if level == PRINT {
        ghost var before := buffer[..];
        Render(body);
        CStringOfRendered(before, body);
        r := Append(CString(buffer[..]), bodyOpens);
      } else {
        r := 0;
      }
    }

    /**
     * The stamped branch of log_format: the time-stamp segment is rendered
     * and passed to log_print, then the body is rendered over it with a
     * newline forced in place of its terminator, and appended.
     */
    method LogStamped(head: string, body: string, headOpens: bool, bodyOpens: bool) returns (r: int)
      requires Valid() && bufferAlloced && IsCText(head) && IsCText(body) && head != []
      requires |head| < bufferSize && FormatFits(body, bufferSize)
      modifies this`files, buffer
      ensures Valid()
      ensures
        var headWritten := initialized != 0 && headOpens;
        var afterHead := if headWritten then AppendedTo(old(files), filename.value, head) else old(files);
        var tail := FormatTail(old(buffer[..]), head, headWritten, body);
        && r == (if bodyOpens then |tail| else 0)
        && files == (if bodyOpens then AppendedTo(afterHead, filename.value, tail) else afterHead)
      ensures initialized != 0 && bodyOpens ==> AllZero(buffer[..])
      ensures !(initialized != 0 && bodyOpens) ==>
        var prior := if initialized != 0 && headOpens then ZeroBuffer(bufferSize) else Rendered(old(buffer[..]), head);
        buffer[..] == FormattedBuffer(prior, body)
    {
      ghost var before := buffer[..];
      Render(head);
      CStringOfRendered(before, head);
      var _ := LogPrint(Some(CString(buffer[..])), headOpens);
      ghost var headWritten := initialized != 0 && headOpens;
      ghost var prior := buffer[..];
      if headWritten {
        assert forall i :: 0 <= i < |prior| ==> prior[i] == ZeroBuffer(|before|)[i];
      }
      assert prior == if headWritten then ZeroBuffer(|before|) else Rendered(before, head);
      Render(body);
      if body[|body| - 1] != '\n' {
        buffer[|body|] := '\n';
      }
      assert buffer[..] == FormattedBuffer(prior, body);
      r := Append(CString(buffer[..]), bodyOpens);
    }

    /** log_get_buffer_size. */
    function GetBufferSize(): (size: int)
      reads this
      requires Valid()
      ensures size >= MIN_BUFFER_SIZE
      ensures buffer != null ==> size == buffer.Length
    {
      bufferSize
    }

    /**
     * log_set_buffer_size: the size becomes the request, but never below
     * 1024; an allocated buffer is reallocated to it, keeping the bytes both
     * sizes share. Returns the previous size.
     */
    method SetBufferSize(size: int) returns (previous: int)
      requires Valid()
      modifies this`bufferSize, this`buffer
      ensures Valid()
      ensures previous == old(bufferSize)
      ensures bufferSize == (if size > MIN_BUFFER_SIZE then size else MIN_BUFFER_SIZE)
      ensures !bufferAlloced ==> buffer == null
      ensures bufferAlloced ==> fresh(buffer)
      ensures bufferAlloced && bufferSize <= previous ==> buffer[..] == old(buffer)[..bufferSize]
      ensures bufferAlloced && previous < bufferSize ==> buffer[..previous] == old(buffer[..])
    {
      previous := bufferSize;
      bufferSize := if size > MIN_BUFFER_SIZE then size else MIN_BUFFER_SIZE;
      if bufferAlloced {
        var resized := new char[bufferSize](_ => '\0');
        var keep := if previous < bufferSize then previous else bufferSize;
        forall i | 0 <= i < keep {
          resized[i] := buffer[i];
        }
        assert resized[..keep] == buffer[..keep];
        buffer := resized;
      }
    }

    /** log_get_prefixes: null until a prefix table is installed. */
    function GetPrefixes(): (table: Option<seq<string>>)
      reads this
      requires Valid()
      ensures initialized != 0 ==> table.Some?
      ensures table.Some? ==> IsPrefixTable(table.value)
    {
      prefixes
    }

    /** log_set_prefixes: install the caller's table, or the defaults for null. */
    method SetPrefixes(table: Option<seq<string>>)
      requires Valid()
      requires table.Some? ==> IsPrefixTable(table.value)
      modifies this`prefixes
      ensures Valid()
      ensures prefixes == Some(if table.Some? then table.value else DEFAULT_PREFIXES)
    {
      prefixes := Some(if table.Some? then table.value else DEFAULT_PREFIXES);
    }

    /** log_set_use_24hr_time: any non-zero flag selects 24-hour time, zero selects 12-hour time. */
    method SetUse24HourTime(use24: int)
      requires Valid()
      modifies this`use24Hour
      ensures Valid()
      ensures use24Hour == (use24 != 0)
    {
      use24Hour := use24 != 0;
    }
  }
}
