/**
  Naming and log formatting of one transcription session
  (`transcribe_and_log` in speech_to_text.py).

  A session is named `<source>_<timestamp>`. The engine's text, stripped of
  surrounding whitespace, is written to `<name>.txt` followed by a newline,
  appended to the master transcript as `\n[<timestamp>] [<source>] <text>\n`,
  and the audio file is archived as `<name><ext>`, keeping the extension of
  the file that was transcribed. Only the strings are modelled; the clock
  reading, the engine's text and the extension are parameters.
*/
module SessionLog {
  import opened Optional

  // ----- str.strip() -----

  /** Python's `str.isspace` for a single character. */
  predicate IsSpace(c: char)
  {
    || c == ' '
    || '\t' <= c <= '\r'
    || '\U{1C}' <= c <= '\U{1F}'
    || c == '\U{85}' || c == '\U{A0}' || c == '\U{1680}'
    || '\U{2000}' <= c <= '\U{200A}'
    || c == '\U{2028}' || c == '\U{2029}' || c == '\U{202F}' || c == '\U{205F}' || c == '\U{3000}'
  }

  predicate AllSpace(s: string)
  {
    forall i :: 0 <= i < |s| ==> IsSpace(s[i])
  }

  /** Index of the first character of `s` that is not whitespace, or `|s|`. */
  function StripStart(s: string): (i: nat)
    ensures i <= |s| && AllSpace(s[..i])
    ensures i < |s| ==> !IsSpace(s[i])
  {
    if s == [] || !IsSpace(s[0]) then 0 else 1 + StripStart(s[1..])
  }

  /** Index just past the last character of `s` that is not whitespace, or 0. */
  function StripEnd(s: string): (j: nat)
    ensures j <= |s| && AllSpace(s[j..])
    ensures j > 0 ==> !IsSpace(s[j - 1])
    decreases |s|
  {
    if s == [] || !IsSpace(s[|s| - 1]) then |s|
    else
      var j := StripEnd(s[..|s| - 1]);
      assert s[j..] == s[..|s| - 1][j..] + [s[|s| - 1]];
      j
  }

  /** `s.strip()`: `s` without its leading and trailing whitespace. */
  function Strip(s: string): (r: string)
    ensures r == [] || (!IsSpace(r[0]) && !IsSpace(r[|r| - 1]))
  {
    var t := s[StripStart(s)..];
    t[..StripEnd(t)]
  }

  /** The leading whitespace ends where the first non-whitespace character is. */
  lemma {:induction false} StripStartIs(s: string, i: int)
    requires 0 <= i <= |s| && AllSpace(s[..i])
    requires i < |s| ==> !IsSpace(s[i])
    ensures StripStart(s) == i
  {
    var a := StripStart(s);
    assert forall k :: 0 <= k < i ==> IsSpace(s[k]) by {
      forall k | 0 <= k < i ensures IsSpace(s[k]) { assert s[..i][k] == s[k]; }
    }
    assert forall k :: 0 <= k < a ==> IsSpace(s[k]) by {
      forall k | 0 <= k < a ensures IsSpace(s[k]) { assert s[..a][k] == s[k]; }
    }
  }

  /** The trailing whitespace starts after the last non-whitespace character. */
  lemma {:induction false} StripEndIs(s: string, j: int)
    requires 0 <= j <= |s| && AllSpace(s[j..])
    requires j > 0 ==> !IsSpace(s[j - 1])
    ensures StripEnd(s) == j
  {
    var b := StripEnd(s);
    assert forall k :: j <= k < |s| ==> IsSpace(s[k]) by {
      forall k | j <= k < |s| ensures IsSpace(s[k]) { assert s[j..][k - j] == s[k]; }
    }
    assert forall k :: b <= k < |s| ==> IsSpace(s[k]) by {
      forall k | b <= k < |s| ensures IsSpace(s[k]) { assert s[b..][k - b] == s[k]; }
    }
  }

  /** What is removed is whitespace, and nothing else is: for every split of
      `s` into an all-whitespace head, a middle that neither starts nor ends
      with whitespace, and an all-whitespace tail, `Strip(s)` is the middle. */
  lemma StripIsMiddle(s: string, i: int, j: int)
    requires 0 <= i <= j <= |s|
    requires AllSpace(s[..i]) && AllSpace(s[j..])
    requires i == j || (!IsSpace(s[i]) && !IsSpace(s[j - 1]))
    ensures Strip(s) == s[i..j]
  {
    if i == j {
      // the whole of s is whitespace
      assert AllSpace(s[..|s|]) by {
        forall k | 0 <= k < |s| ensures IsSpace(s[k]) {
          if k < i { assert s[..i][k] == s[k]; } else { assert s[j..][k - j] == s[k]; }
        }
      }
      StripStartIs(s, |s|);
    } else {
      StripStartIs(s, i);
      var t := s[i..];
      assert t[j - i..] == s[j..];
      StripEndIs(t, j - i);
      assert t[..j - i] == s[i..j];
    }
  }

  /** Stripping twice is stripping once. */
  lemma StripIdempotent(s: string)
    ensures Strip(Strip(s)) == Strip(s)
  {
    var r := Strip(s);
    StripIsMiddle(r, 0, |r|);
    assert r[0..|r|] == r;
  }

  // ----- the session timestamp, datetime.now().strftime("%Y%m%d_%H%M%S") -----

  /** A clock reading; the source reads it with `datetime.now()`. */
  datatype DateTime = DateTime(year: int, month: int, day: int, hour: int, minute: int, second: int)

  predicate ValidDateTime(d: DateTime)
  {
    && 1000 <= d.year <= 9999
    && 1 <= d.month <= 12 && 1 <= d.day <= 31
    && 0 <= d.hour < 24 && 0 <= d.minute < 60 && 0 <= d.second < 60
  }

  predicate IsDigit(c: char)
  {
    '0' <= c <= '9'
  }

  function Pow10(w: nat): (p: nat)
    ensures p >= 1
  {
    if w == 0 then 1 else 10 * Pow10(w - 1)
  }

  function DigitChar(k: int): (c: char)
    requires 0 <= k < 10
    ensures IsDigit(c)
  {
    '0' + k as char
  }

  function DigitValue(c: char): nat
  {
    if IsDigit(c) then (c - '0') as nat else 0
  }

  /** `n` written with exactly `width` decimal digits, zero-padded. */
  function Digits(n: nat, width: nat): (s: string)
    ensures |s| == width
    ensures forall k :: 0 <= k < |s| ==> IsDigit(s[k])
  {
    if width == 0 then "" else Digits(n / 10, width - 1) + [DigitChar(n % 10)]
  }

  /** The value of a string of decimal digits. */
  function DigitsValue(s: string): nat
  {
    if s == [] then 0 else 10 * DigitsValue(s[..|s| - 1]) + DigitValue(s[|s| - 1])
  }

  lemma {:induction false} DigitsRoundTrip(n: nat, width: nat)
    requires n < Pow10(width)
    ensures DigitsValue(Digits(n, width)) == n
  {
    if width > 0 {
      var q, r := n / 10, n % 10;
      var s := Digits(n, width);
      assert s == Digits(q, width - 1) + [DigitChar(r)];
      assert s[..|s| - 1] == Digits(q, width - 1);
      assert DigitValue(s[|s| - 1]) == r;
      assert q < Pow10(width - 1);
      DigitsRoundTrip(q, width - 1);
      assert DigitsValue(s) == 10 * q + r;
    }
  }

  /** Eight digits, an underscore, six digits. */
  predicate TimestampShape(ts: string)
  {
    |ts| == 15 && ts[8] == '_' && forall k :: 0 <= k < 15 && k != 8 ==> IsDigit(ts[k])
  }

  function Timestamp(d: DateTime): (ts: string)
    requires ValidDateTime(d)
    ensures TimestampShape(ts)
  {
    Digits(d.year, 4) + Digits(d.month, 2) + Digits(d.day, 2) + "_"
      + Digits(d.hour, 2) + Digits(d.minute, 2) + Digits(d.second, 2)
  }

  /** Reads a session timestamp back into its clock fields. */
  function ParseTimestamp(ts: string): Option<DateTime>
  {
    if !TimestampShape(ts) then None
    else
      var d := DateTime(DigitsValue(ts[0..4]), DigitsValue(ts[4..6]), DigitsValue(ts[6..8]),
                        DigitsValue(ts[9..11]), DigitsValue(ts[11..13]), DigitsValue(ts[13..15]));
      if ValidDateTime(d) then Some(d) else None
  }

  /** The timestamp determines the clock reading to the second. */
  lemma TimestampRoundTrip(d: DateTime)
    requires ValidDateTime(d)
    ensures ParseTimestamp(Timestamp(d)) == Some(d)
  {
    var ts := Timestamp(d);
    var date := Digits(d.year, 4) + Digits(d.month, 2) + Digits(d.day, 2);
    var time := Digits(d.hour, 2) + Digits(d.minute, 2) + Digits(d.second, 2);
    assert ts == date + "_" + time;
    assert DigitsValue(ts[0..4]) == d.year by {
      assert ts[0..4] == date[0..4] == Digits(d.year, 4);
      DigitsRoundTrip(d.year, 4);
    }
    assert DigitsValue(ts[4..6]) == d.month by {
      assert ts[4..6] == date[4..6] == Digits(d.month, 2);
      DigitsRoundTrip(d.month, 2);
    }
    assert DigitsValue(ts[6..8]) == d.day by {
      assert ts[6..8] == date[6..8] == Digits(d.day, 2);
      DigitsRoundTrip(d.day, 2);
    }
    assert DigitsValue(ts[9..11]) == d.hour by {
      assert ts[9..11] == time[0..2] == Digits(d.hour, 2);
      DigitsRoundTrip(d.hour, 2);
    }
    assert DigitsValue(ts[11..13]) == d.minute by {
      assert ts[11..13] == time[2..4] == Digits(d.minute, 2);
      DigitsRoundTrip(d.minute, 2);
    }
    assert DigitsValue(ts[13..15]) == d.second by {
      assert ts[13..15] == time[4..6] == Digits(d.second, 2);
      DigitsRoundTrip(d.second, 2);
    }
  }

  // ----- file names and file contents -----

  function BaseName(source: string, timestamp: string): string
  {
    source + "_" + timestamp
  }

  /** With timestamps of one fixed length (the session format gives 15
      characters), the base name determines both the source and the
      timestamp, so two sessions share a name only if both agree. */
  lemma BaseNameInjective(s1: string, t1: string, s2: string, t2: string)
    requires |t1| == |t2|
    requires BaseName(s1, t1) == BaseName(s2, t2)
    ensures s1 == s2 && t1 == t2
  {
    var n := BaseName(s1, t1);
    assert |s1| == |s2|;
    assert s1 == n[..|s1|] == s2;
    assert t1 == n[|s1| + 1..] == t2;
  }

  function TranscriptFileName(baseName: string): string
  {
    baseName + ".txt"
  }

  function ArchivedAudioName(baseName: string, ext: string): string
  {
    baseName + ext
  }

  function SessionFileBody(text: string): string
  {
    text + "\n"
  }

  /** One entry of the master transcript. */
  datatype LogEntry = LogEntry(timestamp: string, source: string, text: string)

  /** The text appended to the master transcript for one session. */
  function MasterLogLine(e: LogEntry): string
  {
    "\n[" + e.timestamp + "] [" + e.source + "] " + e.text + "\n"
  }

  /** Position of the first `c` in `s`, or `|s|` when there is none. */
  function IndexOf(s: string, c: char): (i: nat)
    ensures i <= |s| && c !in s[..i]
    ensures i < |s| ==> s[i] == c
  {
    if s == [] || s[0] == c then 0 else 1 + IndexOf(s[1..], c)
  }

  /** Reads one master-transcript entry back: `\n[`, the timestamp up to the
      first `]`, `] [`, the source up to the next `]`, `] `, then the text up
      to a final newline. */
  function ParseMasterLogLine(line: string): Option<LogEntry>
  {
    if |line| < 2 || line[..2] != "\n[" then None
    else
      var rest := line[2..];
      var i := IndexOf(rest, ']');
      if i + 3 > |rest| || rest[i..i + 3] != "] [" then None
      else
        match ParseSourceAndText(rest[i + 3..])
        case None => None
        case Some((source, text)) => Some(LogEntry(rest[..i], source, text))
  }

  /** The part of an entry after `] [`: the source, `] `, the text and a newline. */
  function ParseSourceAndText(rest: string): Option<(string, string)>
  {
    var j := IndexOf(rest, ']');
    if j + 2 > |rest| || rest[j..j + 2] != "] " then None
    else
      var body := rest[j + 2..];
      if body == [] || body[|body| - 1] != '\n' then None
      else Some((rest[..j], body[..|body| - 1]))
  }

  lemma SourceAndTextRoundTrip(source: string, text: string)
    requires ']' !in source
    ensures ParseSourceAndText(source + "] " + text + "\n") == Some((source, text))
  {
    var rest := source + "] " + text + "\n";
    var tail := "] " + text + "\n";
    assert rest == source + tail;
    IndexOfPast(source, tail, ']');
    assert rest[..|source|] == source;
    assert rest[|source|..|source| + 2] == "] ";
    var body := rest[|source| + 2..];
    assert body == text + "\n";
    assert body[..|body| - 1] == text;
  }

  /** The master-transcript format is unambiguous: as long as the timestamp
      and the source contain no `]`, each entry reads back as what was
      logged, whatever the text. */
  lemma MasterLogLineRoundTrip(e: LogEntry)
    requires ']' !in e.timestamp && ']' !in e.source
    ensures ParseMasterLogLine(MasterLogLine(e)) == Some(e)
  {
    var line := MasterLogLine(e);
    var rest2 := e.source + "] " + e.text + "\n";
    var tail := "] [" + rest2;
    assert line == "\n[" + (e.timestamp + tail);
    var rest := line[2..];
    assert rest == e.timestamp + tail;
    IndexOfPast(e.timestamp, tail, ']');
    assert rest[..|e.timestamp|] == e.timestamp;
    assert rest[|e.timestamp|..|e.timestamp| + 3] == "] [";
    assert rest[|e.timestamp| + 3..] == rest2;
    SourceAndTextRoundTrip(e.source, e.text);
  }

  lemma {:induction false} IndexOfPast(a: string, b: string, c: char)
    requires c !in a && b != [] && b[0] == c
    ensures IndexOf(a + b, c) == |a|
  {
    if a != [] {
      assert (a + b)[1..] == a[1..] + b;
      IndexOfPast(a[1..], b, c);
    } else {
      assert a + b == b;
    }
  }

  /** Everything `transcribe_and_log` writes for one session. */
  datatype SessionRecord = SessionRecord(
    transcriptFile: string,   // under the transcriptions directory
    transcriptBody: string,   // its whole content
    masterLogAppend: string,  // appended to the master transcript
    archivedAudio: string     // under the archive directory
  )

  /** `source` is "mic" or "upload", `timestamp` the formatted clock reading,
      `engineText` the text the speech engine returned and `ext` the
      extension of the transcribed audio file (with its dot, or empty). */
  function TranscribeAndLog(source: string, timestamp: string, engineText: string, ext: string): SessionRecord
  {
    var baseName := BaseName(source, timestamp);
    var text := Strip(engineText);
    SessionRecord(
      TranscriptFileName(baseName),
      SessionFileBody(text),
      MasterLogLine(LogEntry(timestamp, source, text)),
      ArchivedAudioName(baseName, ext))
  }

  /** What one session leaves behind, for a source without `]` and a
      clock reading `d`: the transcript and the archived audio are named
      after `<source>_<timestamp>`, the transcript holds the stripped text
      and a newline, and the master-transcript entry reads back as that
      timestamp, that source and that stripped text, from which the clock
      reading is recovered. */
  lemma TranscribeAndLogRecord(source: string, d: DateTime, engineText: string, ext: string)
    requires ValidDateTime(d) && ']' !in source
    ensures var r := TranscribeAndLog(source, Timestamp(d), engineText, ext);
            var baseName := source + "_" + Timestamp(d);
            && r.transcriptFile == baseName + ".txt"
            && r.archivedAudio == baseName + ext
            && r.transcriptBody[..|r.transcriptBody| - 1] == Strip(engineText)
            && r.transcriptBody[|r.transcriptBody| - 1] == '\n'
            && ParseMasterLogLine(r.masterLogAppend) == Some(LogEntry(Timestamp(d), source, Strip(engineText)))
            && ParseTimestamp(Timestamp(d)) == Some(d)
  {
    var ts := Timestamp(d);
    assert ']' !in ts by {
      forall k | 0 <= k < |ts| ensures ts[k] != ']' {
        if k != 8 { assert IsDigit(ts[k]); }
      }
    }
    MasterLogLineRoundTrip(LogEntry(ts, source, Strip(engineText)));
    TimestampRoundTrip(d);
  }
}
