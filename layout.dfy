/**
 * The exact strings the logger writes (plain, leveled and banner lines and the
 * two-part segments of its formatted entry), how a NUL-terminated C string is
 * read out of a character buffer, and how a log file splits back into lines.
 */
module Layout {

  /** A C string: its characters never include the NUL terminator. */
  predicate IsCText(s: string) {
    '\0' !in s
  }

  /** The prefix of s before the first c, or all of s when c does not occur. */
  function UpTo(s: seq<char>, c: char): (r: seq<char>)
    ensures |r| <= |s| && r == s[..|r|]
    ensures c !in r
    ensures |r| < |s| ==> s[|r|] == c
    decreases |s|
  {
    if s == [] || s[0] == c then [] else [s[0]] + UpTo(s[1..], c)
  }

  /**
   * The C string a character buffer holds: what strlen measures and fwrite
   * copies, up to the first NUL. A buffer without a NUL is read to its end.
   */
  function CString(a: seq<char>): (r: string)
    ensures IsCText(r)
  {
    UpTo(a, '\0')
  }

  /** The first occurrence of c in x + [c] + y is right after x. */
  lemma {:induction false} UpToStopsAt(x: seq<char>, c: char, y: seq<char>)
    requires c !in x
    ensures UpTo(x + [c] + y, c) == x
    decreases |x|
  {
    if x != [] {
      assert x[0] in x;
      assert (x + [c] + y)[1..] == x[1..] + [c] + y;
      UpToStopsAt(x[1..], c, y);
    }
  }

  predicate AllZero(a: seq<char>) {
    forall i :: 0 <= i < |a| ==> a[i] == '\0'
  }

  /** A zeroed buffer holds the empty C string. */
  lemma CStringOfZeros(a: seq<char>)
    requires AllZero(a)
    ensures CString(a) == []
  {
  }

  /**
   * The buffer after sprintf/strcpy writes the C string s at its start:
   * the characters of s, the terminating NUL, then the old tail.
   */
  function Rendered(a: seq<char>, s: string): seq<char>
    requires |s| < |a|
  {
    s + ['\0'] + a[|s| + 1..]
  }

  /** Reading a rendered buffer gives back exactly the string written into it. */
  lemma CStringOfRendered(a: seq<char>, s: string)
    requires |s| < |a| && IsCText(s)
    ensures |Rendered(a, s)| == |a|
    ensures CString(Rendered(a, s)) == s
  {
    UpToStopsAt(s, '\0', a[|s| + 1..]);
  }

  // ---------------------------------------------------------------------
  // Line layouts
  // ---------------------------------------------------------------------

  /** A complete log line: one newline, at its end. */
  predicate IsLine(s: string) {
    |s| > 0 && s[|s| - 1] == '\n' && '\n' !in s[..|s| - 1]
  }

  /** The entry written by log_: "[<time>] <text>\n". */
  function PlainLine(time: string, text: string): (r: string)
    ensures |r| == |time| + |text| + 4
    ensures IsCText(r) <==> IsCText(time) && IsCText(text)
  {
    "[" + time + "] " + text + "\n"
  }

  /** The entry written by log_d, log_e, log_i and log_w: "[<time>]<prefix> <text>\n". */
  function LeveledLine(time: string, prefix: string, text: string): (r: string)
    ensures |r| == |time| + |prefix| + |text| + 4
    ensures IsCText(r) <==> IsCText(time) && IsCText(prefix) && IsCText(text)
  {
    "[" + time + "]" + prefix + " " + text + "\n"
  }

  /** The first line log_init writes when no initial text is given. */
  function Banner(date: string, time: string): (r: string)
    ensures |r| == |date| + |time| + 17
    ensures IsCText(r) <==> IsCText(date) && IsCText(time)
  {
    "# Log started: " + date + " " + time + "\n"
  }

  /** The time and the text read back from their places in a plain entry. */
  lemma PlainLineFields(time: string, text: string)
    ensures var r := PlainLine(time, text);
      r[0] == '[' && r[1..|time| + 1] == time && r[|time| + 1..|time| + 3] == "] " &&
      r[|time| + 3..|r| - 1] == text && r[|r| - 1] == '\n'
  {
  }

  /** The time, the prefix and the text read back from their places in a leveled entry. */
  lemma LeveledLineFields(time: string, prefix: string, text: string)
    ensures var r := LeveledLine(time, prefix, text);
      r[0] == '[' && r[1..|time| + 1] == time && r[|time| + 1] == ']' &&
      r[|time| + 2..|time| + 2 + |prefix|] == prefix && r[|time| + 2 + |prefix|] == ' ' &&
      r[|time| + 3 + |prefix|..|r| - 1] == text && r[|r| - 1] == '\n'
  {
  }

  /** The date and the time read back from their places in the banner. */
  lemma BannerFields(date: string, time: string)
    ensures var r := Banner(date, time);
      r[..15] == "# Log started: " && r[15..15 + |date|] == date && r[15 + |date|] == ' ' &&
      r[16 + |date|..|r| - 1] == time && r[|r| - 1] == '\n'
  {
  }

  /** A plain entry is one complete line when neither the time nor the text holds a newline. */
  lemma PlainLineIsLine(time: string, text: string)
    requires '\n' !in time && '\n' !in text
    ensures IsLine(PlainLine(time, text))
  {
  }

  /** A leveled entry is one complete line when neither the time, the prefix nor the text holds a newline. */
  lemma LeveledLineIsLine(time: string, prefix: string, text: string)
    requires '\n' !in time && '\n' !in prefix && '\n' !in text
    ensures IsLine(LeveledLine(time, prefix, text))
  {
  }

  /** The banner is one complete line when neither the date nor the time holds a newline. */
  lemma BannerIsLine(date: string, time: string)
    requires '\n' !in date && '\n' !in time
    ensures IsLine(Banner(date, time))
  {
  }

  /** The time-stamp segment log_format writes first at a leveled level: "[<time>]<prefix> ". */
  function LeveledHead(time: string, prefix: string): (r: string)
    ensures |r| == |time| + |prefix| + 3
    ensures IsCText(r) <==> IsCText(time) && IsCText(prefix)
    ensures r != []
  {
    "[" + time + "]" + prefix + " "
  }

  /** The time-stamp segment log_format writes first at level NONE: "[<time>] ". */
  function PlainHead(time: string): (r: string)
    ensures |r| == |time| + 3
    ensures IsCText(r) <==> IsCText(time)
    ensures r != []
  {
    "[" + time + "] "
  }

  /** The text forced to end in a newline, as log_format does before its final append. */
  function WithNewline(body: string): (r: string)
    requires body != []
    ensures |r| > 0 && r[|r| - 1] == '\n'
    ensures r == body || r == body + "\n"
    ensures body[|body| - 1] == '\n' ==> r == body
  {
    if body[|body| - 1] == '\n' then body else body + "\n"
  }

  /**
   * The body fits the buffer as log_format writes it: the body and its
   * terminator, and, when a newline is forced over that terminator, one more
   * byte inside the buffer. That byte ends the C string only when it is NUL;
   * otherwise CString reads on to the next NUL or to the end of the buffer.
   */
  predicate FormatFits(body: string, size: int) {
    body != [] && |body| < size && (body[|body| - 1] != '\n' ==> |body| + 2 <= size)
  }

  /** The buffer log_format hands to its final append: the body rendered, its NUL overwritten by '\n' when needed. */
  function FormattedBuffer(a: seq<char>, body: string): seq<char>
    requires FormatFits(body, |a|)
  {
    var b := Rendered(a, body);
    if body[|body| - 1] == '\n' then b else b[|body| := '\n']
  }

  /** When the buffer was zeroed beforehand, log_format appends exactly the body with a newline forced at its end. */
  lemma FormattedFromZeros(a: seq<char>, body: string)
    requires FormatFits(body, |a|) && IsCText(body) && AllZero(a)
    ensures CString(FormattedBuffer(a, body)) == WithNewline(body)
  {
    var b := Rendered(a, body);
    if body[|body| - 1] == '\n' {
      CStringOfRendered(a, body);
    } else {
      var f := b[|body| := '\n'];
      assert f == (body + "\n") + ['\0'] + a[|body| + 2..];
      UpToStopsAt(body + "\n", '\0', a[|body| + 2..]);
    }
  }

  /**
   * Whatever the buffer held, the text log_format appends starts with the
   * body and a newline; when the buffer was not zeroed, bytes left over
   * after the body's terminator follow the forced newline.
   */
  lemma FormattedStartsWithBody(a: seq<char>, body: string)
    requires FormatFits(body, |a|) && IsCText(body)
    ensures WithNewline(body) <= CString(FormattedBuffer(a, body))
    ensures body[|body| - 1] == '\n' ==> CString(FormattedBuffer(a, body)) == body
  {
    var b := Rendered(a, body);
    if body[|body| - 1] == '\n' {
      CStringOfRendered(a, body);
    } else {
      var f := b[|body| := '\n'];
      assert f == (body + "\n") + a[|body| + 1..];
      UpToPrefix(body + "\n", a[|body| + 1..], '\0');
    }
  }

  /** A prefix free of c survives into the C string of the whole. */
  lemma UpToPrefix(x: seq<char>, y: seq<char>, c: char)
    requires c !in x
    ensures x <= UpTo(x + y, c)
  {
  }

  /** log_format's two segments at a leveled level make up exactly the line log_d/e/i/w writes, when the text has no final newline. */
  lemma LeveledSegmentsMakeLine(time: string, prefix: string, body: string)
    requires body != [] && body[|body| - 1] != '\n'
    ensures LeveledHead(time, prefix) + WithNewline(body) == LeveledLine(time, prefix, body)
  {
  }

  /** log_format's two segments at level NONE make up exactly the line log_ writes, when the text has no final newline. */
  lemma PlainSegmentsMakeLine(time: string, body: string)
    requires body != [] && body[|body| - 1] != '\n'
    ensures PlainHead(time) + WithNewline(body) == PlainLine(time, body)
  {
  }

  // ---------------------------------------------------------------------
  // Reading the log file back as lines
  // ---------------------------------------------------------------------

  /** A line of the file as SplitLines shows it: without its newline. */
  function Chop(line: string): string
    requires line != []
  {
    line[..|line| - 1]
  }

  /** A file made of the given lines, each followed by a newline. */
  function JoinLines(ls: seq<string>): (r: string)
    ensures |r| >= |ls|
  {
    if ls == [] then [] else ls[0] + "\n" + JoinLines(ls[1..])
  }

  /** The lines of a file, split at each newline; an unterminated last line is kept. */
  function SplitLines(s: string): seq<string>
    decreases |s|
  {
    if s == [] then []
    else
      var l := UpTo(s, '\n');
      if |l| == |s| then [l] else [l] + SplitLines(s[|l| + 1..])
  }

  predicate NoNewlines(ls: seq<string>) {
    forall i :: 0 <= i < |ls| ==> '\n' !in ls[i]
  }

  /** Round trip: splitting a file made of newline-free lines gives those lines back, in order. */
  lemma {:induction false} SplitJoin(ls: seq<string>)
    requires NoNewlines(ls)
    ensures SplitLines(JoinLines(ls)) == ls
    decreases |ls|
  {
    if ls != [] {
      var rest := JoinLines(ls[1..]);
      assert JoinLines(ls) == ls[0] + ['\n'] + rest;
      UpToStopsAt(ls[0], '\n', rest);
      assert JoinLines(ls)[|ls[0]| + 1..] == rest;
      SplitJoin(ls[1..]);
    }
  }

  /** Round trip the other way: a file that ends in a newline is the join of its lines. */
  lemma {:induction false} JoinSplit(s: string)
    requires s == [] || s[|s| - 1] == '\n'
    ensures JoinLines(SplitLines(s)) == s
    ensures NoNewlines(SplitLines(s))
    decreases |s|
  {
    if s != [] {
      var l := UpTo(s, '\n');
      assert |l| < |s|;
      var rest := s[|l| + 1..];
      assert s == l + "\n" + rest;
      JoinSplit(rest);
    }
  }

  /** Appending one complete line to a file of lines adds that line at the end. */
  lemma {:induction false} JoinAppend(ls: seq<string>, line: string)
    ensures JoinLines(ls + [line]) == JoinLines(ls) + line + "\n"
    decreases |ls|
  {
    if ls != [] {
      assert (ls + [line])[1..] == ls[1..] + [line];
      JoinAppend(ls[1..], line);
    }
  }

  /**
   * Appending a complete line to a file made of lines yields one more line,
   * last; so the entries of a log read back in the order they were written.
   */
  lemma AppendedLineReadsBackLast(ls: seq<string>, line: string)
    requires NoNewlines(ls) && IsLine(line)
    ensures JoinLines(ls) + line == JoinLines(ls + [Chop(line)])
    ensures SplitLines(JoinLines(ls) + line) == ls + [Chop(line)]
  {
    var body := Chop(line);
    assert line == body + "\n";
    JoinAppend(ls, body);
    SplitJoin(ls + [body]);
  }
}
