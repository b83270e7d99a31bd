# A verified model of a small C logging module

The logging module keeps its state in a handful of process-wide variables:
- the buffer size (1024 at start);
- the log file's name;
- a character buffer;
- an "initialized" flag;
- an "allocated" flag;
- a prefix table for the four leveled severities;
- the 24-hour switch.

Every entry point that writes, except `log_print`, formats its text into
the shared buffer. It then opens the log file, writes the buffer's C string
and closes the file. `log_print` writes the caller's text directly.
`log_init` writes with a truncating open; every other entry point appends.
After a write whose open succeeded, `empty()` zeroes the buffer, but only if
the log was already initialized and the buffer is allocated. A failed open
leaves the buffer as it was, and so does the first `log_init` write. The
bytes left in the buffer matter: `log_format` can read them back.

This project models that module in Dafny:

- `decimal.dfy` (module `Decimal`) covers the `%02i`/`%04i` rendering of the
  time and date fields. Its inverse is `Value`, which reads the digits back.
- `clock_text.dfy` (module `ClockText`) covers `log_time` and `log_date`.
  Both are pure functions of a broken-down local time (`Clock`). The model
  keeps the code's 12-hour rule: only hours above 12 become "PM", so noon
  shows as "12:… AM" and midnight as "00:… AM". It also keeps the code's
  zero-based month, so January shows as "00".
- `layout.dfy` (module `Layout`) covers:
  - C strings: `CString` is `strlen` over the buffer;
  - `Rendered`, which is `sprintf`/`strcpy` into the buffer;
  - the layouts of the banner, the plain entry, the leveled entry and the
    `log_format` segments;
  - reading a log file back as lines.
- `logger.dfy` (module `Logger`) holds the class `Log`. Its fields are the
  module's variables. The buffer is an `array<char>`. The file system is a
  field `files` that maps a file name to its contents. Every operation that
  opens a file takes a flag saying whether the open succeeds. The current
  time is a `Clock` parameter. `APPEND`, `WRITE` and `empty()` are methods
  of the class. `empty()` is a loop over the buffer.
- `scenarios.dfy` (module `Scenarios`) holds sequences of calls on one
  logger and what the file then holds.

Several behaviours of the code are modelled as written. Some of them differ
from what a reader of the module's documentation would expect:

- **`log_init` stores a raw count on re-initialisation.** `WRITE` calls
  `empty()`, which reads the flag from before the write. On a first
  initialisation the buffer still holds the content, so `strlen` matches
  the write count and the flag becomes 1. On a second initialisation
  an open that succeeds makes `empty()` clear the buffer first. `strlen` is
  then 0, so the flag keeps, and `log_init` returns, the number of bytes
  written, and no prefixes are installed. A failed open stores 0 on any
  initialisation, first or later: `WRITE` returns 0 while the buffer still
  holds the content. So after a failed re-initialisation `log_`,
  `log_d/e/i/w` and `log_print` return -1, while `log_format`, which never
  reads the flag, still appends its body, and at PRINT its whole text
  (scenario `FailedReinitTurnsEmittersOff`). The only exception is empty
  content, which compares 0 with 0 and stores 1.
  `InitStatus` and `InitMatches` state this, and so does the scenario
  `ReinitStoresByteCount`.
- **`close` leaves the "initialized" flag alone.** A later `log_init` on a
  log that was initialized and then closed writes through a null buffer.
  The model therefore requires an allocated buffer there. This differs from
  the reading that `close` resets `initialized`.
- **`log_format` at a time-stamped level does not check the flag.** It
  passes the time-stamp segment to `log_print`, so that segment is written
  only once the log is initialized. The body is appended regardless. When
  the segment was not written, the buffer still holds it.
  `FormatTailShowsLeftover` states what then happens: a body shorter than
  the segment is followed, after the forced newline, by the segment's
  remaining characters.
- **`log_format` returns only the count of its final append.** The
  time-stamp segment's bytes are not included.
- **`log_format` leaves out the prefix at level NONE, not at DEBUG.** Its
  header comment (logger.c:193-194) says the prefix is omitted when the
  level is DEBUG. The code writes the DEBUG prefix like the other leveled
  levels (logger.c:198-201) and omits the prefix only at NONE
  (logger.c:214-219). The model follows the code (`Logger.Head`).

## Model

| member | source | states |
|---|---|---|
| Decimal.Digits | logger.c:55-56 | decimal digits of n: at least one, all digits, no leading zero above 9, at most 2 below 100 and at most 4 below 10000 |
| Decimal.ZeroPad | logger.c:55-56 | printf "%0Ni": all digits, as long as the digits or the width, whichever is longer |
| Decimal.ValueOfDigits | logger.c:55-56 | reading back the digits of n gives n |
| Decimal.ValueIgnoresLeadingZeros | logger.c:55-56 | leading zeros do not change a digit string's value |
| Decimal.ValueOfZeros | logger.c:55-56 | a string of zeros reads as 0 |
| Decimal.ValueOfZeroPad | logger.c:55-56 | round trip: a zero-padded field reads back as the number rendered |
| Decimal.TwoDigitField | logger.c:55 | "%02i" of a value below 100 is exactly two characters and reads back as the value |
| Decimal.FourDigitField | logger.c:56 | "%04i" of a value below 10000 is exactly four characters and reads back as the value |
| ClockText.TimeText | logger.c:310-330 | the time text holds no NUL and no newline; 8 characters in 24-hour mode, 11 in 12-hour mode |
| ClockText.DateText | logger.c:335-343 | the date text holds no NUL and no newline; 10 characters for years below 10000 |
| ClockText.HmsFields | logger.c:55 | "HH:MM:SS" has its colons at 2 and 5 and its three fields read back as hour, minute and second |
| ClockText.Time24RoundTrip | logger.c:316-317 | the 24-hour time reads back as the clock's hour, minute and second |
| ClockText.Time12Fields | logger.c:319-328 | 12-hour time: an hour above 12 reads back as hour-12 with " PM"; any other hour reads back unchanged with " AM" |
| ClockText.Time12DeterminesHour | logger.c:320-327 | two valid clocks with the same 12-hour text have the same hour, minute and second |
| ClockText.NoonIsAm | logger.c:322-325 | noon renders as "12" followed by " AM" |
| ClockText.DateRoundTrip | logger.c:341 | the date reads back as zero-based month, day and year+1900 |
| ClockText.JanuaryIsZero | logger.c:341 | month 0 renders as "00" |
| ClockText.Hms | logger.c:55 | the FMT_TIME layout "%02i:%02i:%02i" of hour, minute and second; its fields are read back in HmsFields |
| Layout.UpTo | logger.c:351 | the longest prefix before the first c: a prefix of s, free of c, ending at a c or at the end of s |
| Layout.CString | logger.c:113 | strlen's view of a buffer is NUL-free |
| Layout.UpToStopsAt | logger.c:113 | a C string followed by its terminator reads back as itself, whatever follows |
| Layout.CStringOfZeros | logger.c:65-71 | a zeroed buffer holds the empty C string |
| Layout.CStringOfRendered | logger.c:108 | after strcpy of a NUL-free string the buffer keeps its length and holds that string |
| Layout.Rendered | logger.c:106-108 | sprintf/strcpy of s into the buffer: s, its terminator, then the buffer's old bytes after it |
| Layout.PlainLine | logger.c:133-134 | "[time] text\n" has length of time plus text plus 4 and is NUL-free exactly when both are |
| Layout.LeveledLine | logger.c:142-147 | "[time]prefix text\n" has the summed length plus 4 and is NUL-free exactly when all three parts are |
| Layout.Banner | logger.c:106 | "# Log started: date time\n" has the summed length plus 17 and is NUL-free exactly when both parts are |
| Layout.PlainLineFields | logger.c:133 | each part of the plain entry sits at its place in the line |
| Layout.LeveledLineFields | logger.c:142 | each part of the leveled entry sits at its place in the line |
| Layout.BannerFields | logger.c:106 | each part of the banner sits at its place in the line |
| Layout.PlainLineIsLine | logger.c:133 | a plain entry is one complete line when its parts hold no newline |
| Layout.LeveledLineIsLine | logger.c:142 | a leveled entry is one complete line when its parts hold no newline |
| Layout.BannerIsLine | logger.c:106 | the banner is one complete line when date and time hold no newline |
| Layout.LeveledHead | logger.c:200-201 | the "[time]prefix " segment's length, NUL-freedom and non-emptiness |
| Layout.PlainHead | logger.c:217-218 | the "[time] " segment's length, NUL-freedom and non-emptiness |
| Layout.WithNewline | logger.c:209-210 | the body ends in a newline: unchanged if it already did, else with one added |
| Layout.FormatFits | logger.c:206-210 | the largest body log_format handles: up to one byte short of the buffer when it ends in a newline, two bytes short when a newline is forced over its terminator |
| Layout.FormattedBuffer | logger.c:206-210 | the buffer after vsprintf of the body and, when the body lacks a final newline, a newline written over its terminator |
| Layout.FormattedFromZeros | logger.c:206-210 | in a zeroed buffer, the rendered body with its forced newline reads back as WithNewline(body) |
| Layout.FormattedStartsWithBody | logger.c:206-210 | whatever the buffer held, its C string after formatting starts with WithNewline(body), and is exactly the body when the body ends in a newline |
| Layout.UpToPrefix | logger.c:209 | a c-free prefix survives in the text up to the first c |
| Layout.LeveledSegmentsMakeLine | logger.c:198-212 | the leveled time-stamp segment followed by the newline-terminated body is the log_d-style line |
| Layout.PlainSegmentsMakeLine | logger.c:214-229 | the plain time-stamp segment followed by the newline-terminated body is the log_-style line |
| Layout.SplitJoin | logger.c:348-357 | splitting a file made of newline-free lines gives those lines back, in order |
| Layout.JoinSplit | logger.c:348-357 | a file ending in a newline is the join of its split lines, which hold no newline |
| Layout.JoinAppend | logger.c:348-357 | joining one more line appends it and a newline to the file |
| Layout.AppendedLineReadsBackLast | logger.c:348-357 | appending a complete line adds exactly one line, last |
| Logger.AppendedTo | logger.c:348-357 | fopen "a": the named file gains the text at its end, other files are unchanged, a missing file is created |
| Logger.InitContent | logger.c:105-109 | log_init writes the caller's initial text if given, else a NUL-free banner |
| Logger.InitMatches | logger.c:111-113 | the write count matches strlen exactly when the content is empty, or the open succeeded on a log not yet initialized |
| Logger.InitStatus | logger.c:111-122 | log_init's result: never negative; non-zero exactly when the file opened or the content is empty; 1 when the counts match; 0 or 1 on a first init; the raw byte count on a re-init that wrote something |
| Logger.Head | logger.c:200-201 | the time-stamp segment of log_format starts with '[' and is NUL-free when its parts are |
| Logger.FormatTail | logger.c:206-212 | the final append of log_format starts with WithNewline(body); it is exactly that when the segment was written, and exactly the body when the body ends in a newline |
| Logger.FormatTailShowsLeftover | logger.c:202-212 | when the segment was not written, a short body is followed after its newline by the segment's leftover characters |
| Logger.FormatTailOverLongerBody | logger.c:202-212 | when the segment was not written but the body and its forced newline cover the segment up to its terminator, and the buffer held zeros past the body, the final append is exactly WithNewline(body) |
| Logger.EntryReadsBackLast | logger.c:348-357 | appending an entry to a file of lines makes it the last line read back |
| Logger.Log.constructor | logger.c:27-47 | the state at process start: size 1024, no name, no buffer, not initialized, no prefixes, 24-hour time |
| Logger.Stamped | logger.c:198-214 | the levels log_format writes with a time stamp: DEBUG through WARNING, and NONE |
| Logger.Log.Accepts | logger.c:130-131 | the guard of log_ (repeated at lines 144, 157, 170, 183 and 254 for log_d/e/i/w and log_print): initialized, and a non-null, non-empty text |
| Logger.Log.Proceeds | logger.c:90 | the guard of log_init: a non-empty file name is given, or one is already stored |
| Logger.Log.Empty | logger.c:65-71 | zeroes every byte once initialized and allocated, else changes nothing |
| Logger.Log.Render | logger.c:108 | strcpy into the buffer: the string, its terminator, and the old bytes after it |
| Logger.Log.Append | logger.c:348-357 | an appending write: the count and file when it opens, 0 and nothing changed when not, buffer zeroed as empty() does |
| Logger.Log.Write | logger.c:363-372 | a truncating write: the file's contents become the text when it opens, 0 and nothing changed when not, buffer zeroed as empty() does |
| Logger.Log.Close | logger.c:77-82 | the buffer is released and the allocated flag cleared, keeping the invariant |
| Logger.Log.Init | logger.c:88-123 | the guard returning 0 with nothing changed; the name stored only on a first init; a fresh zeroed buffer when none; the truncating write of InitContent; the stored and returned InitStatus; prefixes installed exactly when InitMatches; the whole buffer afterwards: zeroed on a re-init that opened, else the content rendered over the previous (or fresh) buffer |
| Logger.Log.Allocate | logger.c:93-99 | a fresh zero-filled buffer of the current size |
| Logger.Log.Prepare | logger.c:93-103 | past the guard: the name is stored only when not initialized; a buffer is allocated zeroed on first use, otherwise the existing buffer and its bytes are kept |
| Logger.Log.WriteInitial | logger.c:105-122 | after rendering and writing the content, the flag and result are InitStatus, prefixes follow InitMatches, the file is truncated to the content, and the buffer is zeroed or holds the content rendered over its old bytes |
| Logger.Log.LogPlain | logger.c:128-136 | -1 with file and buffer unchanged unless initialized with a non-empty text; else appends PlainLine and returns its length, zeroing the buffer, or returns 0 leaving the line rendered in the buffer on a failed open |
| Logger.Log.LogLeveled | logger.c:141-188 | -1 with file and buffer unchanged unless initialized with a non-empty text; else appends LeveledLine with the level's prefix and returns its length, zeroing the buffer, or returns 0 leaving the line rendered in the buffer on a failed open |
| Logger.Log.LogDebug | logger.c:141-149 | the leveled entry with prefix 0: the same result, file and buffer clauses as LogLeveled |
| Logger.Log.LogError | logger.c:154-162 | the leveled entry with prefix 1: the same result, file and buffer clauses as LogLeveled |
| Logger.Log.LogInfo | logger.c:167-175 | the leveled entry with prefix 2: the same result, file and buffer clauses as LogLeveled |
| Logger.Log.LogWarning | logger.c:180-188 | the leveled entry with prefix 3: the same result, file and buffer clauses as LogLeveled |
| Logger.Log.LogPrint | logger.c:252-257 | -1 and nothing written unless initialized with a non-empty text; else appends the text verbatim |
| Logger.Log.LogFormat | logger.c:196-246 | stamped levels: the segment when initialized, then FormatTail, returning only the second count; when both writes happen the file gains segment + WithNewline(body); the buffer is zeroed or holds FormattedBuffer over the zeroed or segment-filled buffer; PRINT appends the body verbatim, leaving it rendered when not zeroed; other levels return 0 and change nothing |
| Logger.Log.LogStamped | logger.c:198-229 | the stamped branch: the segment through log_print, then the body rendered over the buffer with a forced newline and appended; the buffer afterwards is zeroed or that formatted buffer |
| Logger.Log.GetBufferSize | logger.c:262 | the size is at least 1024 and equals the allocated buffer's length |
| Logger.Log.SetBufferSize | logger.c:269-276 | returns the old size; the size becomes the request clamped up to 1024; an allocated buffer is replaced by one of the new size keeping the shared bytes |
| Logger.Log.GetPrefixes | logger.c:282-284 | a table is present once initialized, and every present table has four C strings |
| Logger.Log.SetPrefixes | logger.c:289-295 | the caller's table, or the defaults for null |
| Logger.Log.SetUse24HourTime | logger.c:300-305 | 24-hour time exactly when the flag is non-zero |
| Scenarios.StartWithBanner | logger.c:88-123 | a fresh logger refuses an entry with -1; log_init then returns 1, writes just the banner and installs the default prefixes |
| Scenarios.ThreeLinesInOrder | logger.c:348-357 | a banner and two entries written in sequence read back as three lines in order |
| Scenarios.BannerThenEntries | logger.c:88-188 | after the banner, an information and a warning entry give a file of exactly those three lines, in write order, with the default prefixes |
| Scenarios.ReinitStoresByteCount | logger.c:111-122 | the first init returns 1, a second one returns the byte count; the file holds the text and the first call's prefixes stay |
| Scenarios.CloseTwiceThenInit | logger.c:77-123 | closing a never-initialized logger twice leaves log_init working: it returns 1 and the file holds its text |
| Scenarios.FormatWithoutHeadAfterInit | logger.c:196-229 | after log_init with "abc" (whose fresh buffer malloc and memset zeroed at lines 94-96), log_format at NONE whose segment fails to open appends the body and a newline and returns that count, since the fresh buffer held zeros |
| Scenarios.FullBufferEntry | logger.c:196-229 | a NONE entry whose body ends in a newline and fills the buffer but its terminator is appended whole after the segment, and its full length returned |
| Scenarios.FailedReinitTurnsEmittersOff | logger.c:111-122 | a re-init whose open fails stores and returns 0; log_print then returns -1 and writes nothing, while log_format at PRINT still appends its body |

## Left out

- File I/O: whether each `fopen` succeeds is a parameter. An opened file takes the whole string, so short writes from `fwrite` are not modelled.
- The clock: `time`/`localtime` are replaced by a `Clock` parameter. The banner's date and time are taken from one reading, while the code reads the clock once for each.
- Formatting with `sprintf`/`vsprintf` and variable arguments: `log_format` takes its body already rendered as a string.
- Buffer overflow: the code writes past the buffer when a line is longer than the buffer. Each operation instead requires that its text fits with its terminator. For log_format that bound is `FormatFits`. A body without a final newline must leave one byte beyond the forced newline, or `strlen` would read past the buffer.
- Undefined behaviour, excluded by preconditions:
  - writing through a null buffer: `log_init` after `log_close` of an initialized log, an entry after `log_close`, and `log_format` before any allocation;
  - `log_format` with an empty body (it reads index -1);
  - leveled output with no prefix table;
  - `fopen` of a null name.
- Texts are C strings (no NUL inside). `CString` reads to the end of the buffer when there is no terminator, where the code would read past it.
- `malloc` and `realloc` failure are not modelled. `log_init` calls `memset` before its null check, so a failed allocation is undefined there in any case.
- Logger.Log.SetBufferSize: the bytes `realloc` adds when the buffer grows are left undetermined by the contract, because the code leaves them uninitialised. The model fills them with zeros but does not promise it.
- The file name is held by value: `log_init` keeps the caller's pointer (logger.c:102) and every later `APPEND`/`WRITE` opens the file through it, so a caller that later changes or frees that string changes where the code writes; the model cannot show this.
- The prefix table is held by value: the code keeps the caller's pointer, so later changes to the caller's array are not seen.
- Logger.Log.Prepare: the code allocates the buffer before it stores the file name, and the model does the reverse. The two steps touch separate variables.
- `log_get_use_24hr_time` is declared in `logger.h` but never defined, so there is nothing to model.
- The convenience macros in `logger.h` (`LOGINIT`, `LOGD`, `LOGP`, …) are aliases and add no behaviour.
- The memory that `log_time`/`log_date` allocate and the callers never free (a leak) is not modelled.
- Integer widths: counts and sizes are unbounded integers rather than C `int`. Years are non-negative. `ZeroPad` renders every year as `%04i` does; only the 10-character length of the date (`DateText`, `DateRoundTrip`) needs a year below 10000.
- Concurrency: the module is single-threaded and has no locking.
