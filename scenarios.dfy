/**
 * Sequences of calls on one logger, as a program that uses the logging
 * module makes them, with what the log file then holds.
 */
module Scenarios {
  import opened Layout
  import opened ClockText
  import opened Logger

  /**
   * A fresh logger refuses an entry before log_init; log_init then writes
   * the banner, marks the logger initialized and installs the default
   * prefixes.
   */
  method StartWithBanner(name: string, now: Clock) returns (log: Log, early: int, status: int)
    requires name != [] && ValidClock(now) && now.yearsSince1900 + 1900 < 10000
    ensures fresh(log) && log.Valid() && fresh(log.buffer)
    ensures early == -1 && status == 1
    ensures log.initialized == 1 && log.bufferAlloced && log.bufferSize == MIN_BUFFER_SIZE
    ensures log.use24Hour && log.filename == Some(name) && log.prefixes == Some(DEFAULT_PREFIXES)
    ensures log.files == map[name := Banner(DateText(now), TimeText(true, now))]
  {
    log := new Log(map[]);
    early := log.LogInfo(Some("started"), now, true);
    status := log.Init(Some(name), None, None, now, true);
  }

  /** A banner and two entries written one after the other read back as three lines, in order. */
  lemma {:induction false} ThreeLinesInOrder(banner: string, first: string, second: string)
    requires IsLine(banner) && IsLine(first) && IsLine(second)
    ensures SplitLines(banner + first + second) == [Chop(banner), Chop(first), Chop(second)]
  {
    var ls := [Chop(banner), Chop(first), Chop(second)];
    assert banner == Chop(banner) + "\n" && first == Chop(first) + "\n" && second == Chop(second) + "\n";
    JoinAppend([], ls[0]);
    JoinAppend(ls[..1], ls[1]);
    JoinAppend(ls[..2], ls[2]);
    assert ls[..1] == [] + [ls[0]] && ls[..2] == ls[..1] + [ls[1]] && ls == ls[..2] + [ls[2]];
    assert JoinLines(ls) == banner + first + second;
    SplitJoin(ls);
  }

  /**
   * After the banner, an information and a warning entry follow it, and the
   * file reads back as three lines in the order they were written, the
   * entries carrying the default prefixes.
   */
  method BannerThenEntries(name: string, now: Clock, info: string, warning: string)
    returns (status: int, contents: string)
    requires name != [] && ValidClock(now) && now.yearsSince1900 + 1900 < 10000
    requires info != [] && IsCText(info) && '\n' !in info && |info| < 900
    requires warning != [] && IsCText(warning) && '\n' !in warning && |warning| < 900
    ensures status == 1
    ensures
      var time := TimeText(true, now);
      var banner := Banner(DateText(now), time);
      var first := LeveledLine(time, "[INFO]", info);
      var second := LeveledLine(time, "[WARNING]", warning);
      && contents == banner + first + second
      && SplitLines(contents) == [Chop(banner), Chop(first), Chop(second)]
  {
    var log, _, s := StartWithBanner(name, now);
    status := s;
    var time := TimeText(true, now);
    var banner := Banner(DateText(now), time);
    var first := LeveledLine(time, "[INFO]", info);
    var second := LeveledLine(time, "[WARNING]", warning);
    var _ := log.LogInfo(Some(info), now, true);
    var _ := log.LogWarning(Some(warning), now, true);
    contents := FileText(log.files, name);
    BannerIsLine(DateText(now), time);
    LeveledLineIsLine(time, "[INFO]", info);
    LeveledLineIsLine(time, "[WARNING]", warning);
    ThreeLinesInOrder(banner, first, second);
  }

  /**
   * A second log_init on an initialized logger writes the text again, but
   * the buffer it compares the count with has been emptied: instead of 1 it
   * stores and returns the number of bytes written. The logger stays
   * usable, and the prefixes installed by the first call stay in place.
   */
  method ReinitStoresByteCount(name: string, text: string, now: Clock, table: seq<string>)
    returns (first: int, second: int, contents: string, installed: Option<seq<string>>)
    requires name != [] && IsCText(text) && 1 < |text| < MIN_BUFFER_SIZE && IsPrefixTable(table)
    ensures first == 1 && second == |text|
    ensures contents == text
    ensures installed == Some(table)
  {
    var log := new Log(map[]);
    first := log.Init(Some(name), Some(table), Some(text), now, true);
    second := log.Init(Some(name), None, Some(text), now, true);
    contents := FileText(log.files, name);
    installed := log.GetPrefixes();
  }

  /**
   * Closing a logger that was never initialized, twice over, is harmless: a
   * following log_init still allocates, writes its text and returns 1.
   */
  method CloseTwiceThenInit(name: string, text: string, now: Clock) returns (status: int, contents: string)
    requires name != [] && IsCText(text) && |text| < MIN_BUFFER_SIZE
    ensures status == 1 && contents == text
  {
    var log := new Log(map[]);
    log.Close();
    log.Close();
    status := log.Init(Some(name), None, Some(text), now, true);
    contents := FileText(log.files, name);
  }

  /**
   * log_format at level NONE on an initialized logger whose time-stamp
   * segment fails to open. The segment is not written, but it is still in
   * the buffer. A body at most one character shorter than the segment
   * covers it up to its terminator, and past the body the fresh buffer of
   * log_init holds zeros. So the body alone is appended, with its newline,
   * and its count returned.
   */
  method FormatWithoutHeadAfterInit(name: string, body: string, now: Clock)
    returns (status: int, r: int, contents: string)
    requires name != [] && ValidClock(now)
    requires IsCText(body) && 10 <= |body| && |body| + 2 <= MIN_BUFFER_SIZE && body[|body| - 1] != '\n'
    ensures status == 1 && r == |body| + 1
    ensures contents == "abc" + body + "\n"
  {
    var log := new Log(map[]);
    status := log.Init(Some(name), None, Some("abc"), now, true);
    ghost var prior := log.buffer[..];
    assert AllZero(prior[|body| + 1..]);
    r := log.LogFormat(NONE, body, now, false, true);
    FormatTailOverLongerBody(prior, Head(NONE, TimeText(true, now), log.prefixes), body);
    contents := FileText(log.files, name);
  }

  /**
   * A log_format body that already ends in a newline may fill the whole
   * buffer but its terminator: nothing is forced over the terminator, and
   * the body is appended whole after the time-stamp segment.
   */
  method FullBufferEntry(name: string, body: string, now: Clock) returns (r: int, contents: string)
    requires name != [] && ValidClock(now)
    requires IsCText(body) && |body| == MIN_BUFFER_SIZE - 1 && body[|body| - 1] == '\n'
    ensures r == |body|
    ensures contents == "abc" + PlainHead(TimeText(true, now)) + body
  {
    var log := new Log(map[]);
    var _ := log.Init(Some(name), None, Some("abc"), now, true);
    r := log.LogFormat(NONE, body, now, true, true);
    contents := FileText(log.files, name);
  }

  /**
   * A re-init whose file does not open stores 0 in the initialized flag.
   * log_print then refuses its text, but log_format, which never reads the
   * flag, still appends its text at PRINT.
   */
  method FailedReinitTurnsEmittersOff(name: string, text: string, body: string, now: Clock)
    returns (second: int, printed: int, formatted: int, contents: string)
    requires name != [] && IsCText(text) && 1 < |text| < MIN_BUFFER_SIZE
    requires body != [] && IsCText(body) && |body| < MIN_BUFFER_SIZE
    ensures second == 0 && printed == -1 && formatted == |body|
    ensures contents == text + body
  {
    var log := new Log(map[]);
    var _ := log.Init(Some(name), None, Some(text), now, true);
    second := log.Init(Some(name), None, Some(text), now, false);
    printed := log.LogPrint(Some(body), true);
    formatted := log.LogFormat(PRINT, body, now, true, true);
    contents := FileText(log.files, name);
  }
}
