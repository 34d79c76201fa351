/** One line of the high-score file: `date|NAME|Level N|SCORE PTS`.
    FormatRecord builds the line SaveScore appends; ParseLine is what
    GetBestScores makes of one line read back, skipping it (None) when it
    is malformed; ParseAll keeps the well-formed lines in file order. */
module ScoreRecord {
  import opened Wrappers
  import opened Text
  import opened Numbers

  /** The parts of DateTime.Now that the "yyyy-MM-dd HH:mm" format shows. */
  type Year = y: int | 1 <= y <= 9999 witness 1
  type Month = m: int | 1 <= m <= 12 witness 1
  type Day = d: int | 1 <= d <= 31 witness 1
  type Hour = h: int | 0 <= h <= 23
  type Minute = m: int | 0 <= m <= 59

  datatype Timestamp = Timestamp(year: Year, month: Month, day: Day, hour: Hour, minute: Minute)

  /** The ScoreEntry record: the date text, the player name, the level text
      and the numeric score used for sorting. */
  datatype ScoreEntry = ScoreEntry(date: string, name: string, level: string, score: int32)

  const Separator: char := '|'
  const PointsMarker: string := "PTS"

  /** Only digits and the format's literal '-', ' ' and ':' characters. */
  predicate DateChars(s: string) {
    forall i :: 0 <= i < |s| ==> IsDigit(s[i]) || s[i] == '-' || s[i] == ' ' || s[i] == ':'
  }

  /** `{DateTime.Now:yyyy-MM-dd HH:mm}`. The `-` and ` ` are literals; the
      `:` time separator is fixed to the invariant culture's. The text has
      sixteen characters, each field is zero-padded, and each field reads
      back as the timestamp's component. */
  function FormatTimestamp(t: Timestamp): (r: string)
    ensures |r| == 16 && DateChars(r)
    ensures r[4] == '-' && r[7] == '-' && r[10] == ' ' && r[13] == ':'
    ensures AllDigits(r[..4]) && DigitsValue(r[..4]) == t.year
    ensures AllDigits(r[5..7]) && DigitsValue(r[5..7]) == t.month
    ensures AllDigits(r[8..10]) && DigitsValue(r[8..10]) == t.day
    ensures AllDigits(r[11..13]) && DigitsValue(r[11..13]) == t.hour
    ensures AllDigits(r[14..]) && DigitsValue(r[14..]) == t.minute
  {
    assert Pow10(4) == 10000 && Pow10(2) == 100;
    var y, mo, d, h, mi := PadDigits(t.year, 4), PadDigits(t.month, 2), PadDigits(t.day, 2),
                           PadDigits(t.hour, 2), PadDigits(t.minute, 2);
    DateLayout(y, mo, d, h, mi);
    y + "-" + mo + "-" + d + " " + h + ":" + mi
  }

  /** Where the five fields and the four literal characters of the date
      format sit in the sixteen characters. */
  lemma {:induction false} DateLayout(y: string, mo: string, d: string, h: string, mi: string)
    requires |y| == 4 && |mo| == 2 && |d| == 2 && |h| == 2 && |mi| == 2
    requires AllDigits(y) && AllDigits(mo) && AllDigits(d) && AllDigits(h) && AllDigits(mi)
    ensures var r := y + "-" + mo + "-" + d + " " + h + ":" + mi;
      |r| == 16 && DateChars(r) && r[4] == '-' && r[7] == '-' && r[10] == ' ' && r[13] == ':'
      && r[..4] == y && r[5..7] == mo && r[8..10] == d && r[11..13] == h && r[14..] == mi
  {
    var r := y + "-" + mo + "-" + d + " " + h + ":" + mi;
    assert r[..4] == y && r[5..7] == mo && r[8..10] == d && r[11..13] == h && r[14..] == mi;
    forall i | 0 <= i < |r| ensures IsDigit(r[i]) || r[i] == '-' || r[i] == ' ' || r[i] == ':' {
      if i < 4 { assert r[i] == y[i]; }
      else if 5 <= i < 7 { assert r[i] == mo[i - 5]; }
      else if 8 <= i < 10 { assert r[i] == d[i - 8]; }
      else if 11 <= i < 13 { assert r[i] == h[i - 11]; }
      else if 14 <= i { assert r[i] == mi[i - 14]; }
    }
  }

  /** A formatted date has no separator, no line break and no white space at its ends. */
  lemma {:induction false} TimestampIsPlainField(t: Timestamp)
    ensures Separator !in FormatTimestamp(t)
    ensures !HasLineBreak(FormatTimestamp(t))
    ensures NoSurroundingWhiteSpace(FormatTimestamp(t))
  {
    DateIsPlain(FormatTimestamp(t));
  }

  lemma {:induction false} DateIsPlain(r: string)
    requires |r| == 16 && DateChars(r) && IsDigit(r[0]) && IsDigit(r[15])
    ensures Separator !in r && !HasLineBreak(r) && NoSurroundingWhiteSpace(r)
  {
  }

  /** The four fields of a saved line, in order. */
  function RecordFields(now: Timestamp, playerName: string, score: int32, level: int32): seq<string> {
    [FormatTimestamp(now), Upper(playerName), "Level " + FormatInt32(level), FormatInt32(score) + " PTS"]
  }

  /** The line SaveScore writes (before its newline): the timestamp, the
      upper-cased name, "Level N" and "S PTS", joined by '|'. The line breaks
      it holds are exactly those of the name, and it starts with the date. */
  function FormatRecord(now: Timestamp, playerName: string, score: int32, level: int32): (line: string)
    ensures HasLineBreak(line) <==> HasLineBreak(playerName)
    ensures |line| > 16 && line[..16] == FormatTimestamp(now) && line[16] == Separator
  {
    var f := RecordFields(now, playerName, score, level);
    TimestampIsPlainField(now);
    IntHasNoBreak(level);
    IntHasNoBreak(score);
    UpperKeepsBreaks(playerName);
    JoinFourBreaks(f, Separator);
    Join(f, Separator)
  }

  /** Four fields joined by a character that is not a line break: the line
      starts with the first field and the separator, and holds a line break
      iff one of the fields does. */
  lemma {:induction false} JoinFourBreaks(f: seq<string>, sep: char)
    requires |f| == 4 && !IsLineBreak(sep)
    ensures |Join(f, sep)| > |f[0]| && Join(f, sep)[..|f[0]|] == f[0] && Join(f, sep)[|f[0]|] == sep
    ensures HasLineBreak(Join(f, sep))
            <==> HasLineBreak(f[0]) || HasLineBreak(f[1]) || HasLineBreak(f[2]) || HasLineBreak(f[3])
  {
    JoinFour(f, sep);
    var a := f[0] + [sep];
    var b := a + f[1] + [sep];
    var c := b + f[2] + [sep];
    assert !HasLineBreak([sep]);
    NoBreakConcat(f[0], [sep]);
    NoBreakConcat(a, f[1]);
    NoBreakConcat(a + f[1], [sep]);
    NoBreakConcat(b, f[2]);
    NoBreakConcat(b + f[2], [sep]);
    NoBreakConcat(c, f[3]);
    assert Join(f, sep) == c + f[3];
    assert Join(f, sep)[..|f[0]|] == f[0] && Join(f, sep)[|f[0]|] == sep;
  }

  lemma {:induction false} JoinFour(f: seq<string>, sep: char)
    requires |f| == 4
    ensures Join(f, sep) == f[0] + [sep] + f[1] + [sep] + f[2] + [sep] + f[3]
  {
    assert Join(f[3..], sep) == f[3];
    assert Join(f[2..], sep) == f[2] + [sep] + f[3] by { assert f[2..][1..] == f[3..]; }
    assert Join(f[1..], sep) == f[1] + [sep] + (f[2] + [sep] + f[3]) by { assert f[1..][1..] == f[2..]; }
  }

  lemma {:induction false} NoBreakConcat(a: string, b: string)
    ensures HasLineBreak(a + b) <==> HasLineBreak(a) || HasLineBreak(b)
  {
    if HasLineBreak(a + b) {
      var i :| 0 <= i < |a + b| && IsLineBreak((a + b)[i]);
      if i >= |a| { assert b[i - |a|] == (a + b)[i]; }
    }
    if HasLineBreak(b) {
      var i :| 0 <= i < |b| && IsLineBreak(b[i]);
      assert (a + b)[|a| + i] == b[i];
    }
    if HasLineBreak(a) {
      var i :| 0 <= i < |a| && IsLineBreak(a[i]);
      assert (a + b)[i] == a[i];
    }
  }

  lemma {:induction false} UpperKeepsBreaks(s: string)
    ensures HasLineBreak(Upper(s)) <==> HasLineBreak(s)
  {
    UpperKeeps(s, '\n');
    UpperKeeps(s, '\r');
    if HasLineBreak(s) {
      var i :| 0 <= i < |s| && IsLineBreak(s[i]);
      assert s[i] in s;
    }
    if HasLineBreak(Upper(s)) {
      var i :| 0 <= i < |Upper(s)| && IsLineBreak(Upper(s)[i]);
      assert Upper(s)[i] in Upper(s);
    }
  }

  /** The text of a number is '-' and digits only. */
  lemma {:induction false} IntIsPlain(n: int32)
    ensures forall i :: 0 <= i < |FormatInt32(n)| ==> IsDigit(FormatInt32(n)[i]) || FormatInt32(n)[i] == '-'
  {
    var s := FormatInt32(n);
    if n < 0 {
      forall i | 1 <= i < |s| ensures IsDigit(s[i]) { assert s[1..][i - 1] == s[i]; }
    }
  }

  lemma {:induction false} IntHasNoBreak(n: int32)
    ensures !HasLineBreak("Level " + FormatInt32(n))
    ensures !HasLineBreak(FormatInt32(n) + " PTS")
  {
    IntIsPlain(n);
    var s := FormatInt32(n);
    var a, b := "Level " + s, s + " PTS";
    assert forall i :: 6 <= i < |a| ==> a[i] == s[i - 6];
    assert forall i :: 0 <= i < |s| ==> b[i] == s[i];
  }

  /** The score field: every "PTS" removed, then trimmed, then TryParse. */
  function ParseScoreField(field: string): Option<int32> {
    ParseInt32(Trim(RemoveAll(field, PointsMarker)))
  }

  /** One line of the file as GetBestScores reads it. A line is kept only
      when it has exactly three separators and its score field parses; the
      kept text fields are trimmed and hold no separator. */
  function ParseLine(line: string): (r: Option<ScoreEntry>)
    ensures r.Some? <==> Count(line, Separator) == 3 && ParseScoreField(Split(line, Separator)[3]).Some?
    ensures r.Some? ==> r.value.score == ParseScoreField(Split(line, Separator)[3]).value
    ensures r.Some? ==> Separator !in r.value.date && Separator !in r.value.name && Separator !in r.value.level
    ensures r.Some? ==> NoSurroundingWhiteSpace(r.value.date) && NoSurroundingWhiteSpace(r.value.name)
                        && NoSurroundingWhiteSpace(r.value.level)
    ensures r.Some? ==> r.value.date == Trim(Split(line, Separator)[0])
                        && r.value.name == Trim(Split(line, Separator)[1])
                        && r.value.level == Trim(Split(line, Separator)[2])
  {
    var parts := Split(line, Separator);
    if |parts| != 4 then None
    else
      match ParseScoreField(parts[3])
      case None => None
      case Some(v) =>
        TrimKeepsOut(parts[0], Separator);
        TrimKeepsOut(parts[1], Separator);
        TrimKeepsOut(parts[2], Separator);
        Some(ScoreEntry(Trim(parts[0]), Trim(parts[1]), Trim(parts[2]), v))
  }

  /** Trimming adds no character. */
  lemma {:induction false} TrimKeepsOut(s: string, c: char)
    requires c !in s
    ensures c !in Trim(s)
  {
    var r := Trim(s);
    var i, j :| 0 <= i <= j <= |s| && r == s[i..j] && AllWhiteSpace(s[..i]) && AllWhiteSpace(s[j..]);
    assert forall k :: 0 <= k < |r| ==> r[k] == s[i + k];
  }

  /** Round trip: a line written by SaveScore is read back as the entry it
      records, provided the name holds no separator and no white space at
      its ends. */
  lemma {:induction false} RecordRoundTrip(now: Timestamp, playerName: string, score: int32, level: int32)
    requires Separator !in playerName
    requires NoSurroundingWhiteSpace(playerName)
    ensures ParseLine(FormatRecord(now, playerName, score, level))
            == Some(ScoreEntry(FormatTimestamp(now), Upper(playerName), "Level " + FormatInt32(level), score))
  {
    TimestampIsPlainField(now);
    UpperKeeps(playerName, Separator);
    LevelFieldIsPlain(level);
    ScoreFieldRoundTrip(score);
    PlainFieldsRoundTrip(RecordFields(now, playerName, score, level));
  }

  /** Four separator-free fields, the first three without white space at
      their ends and the last a valid score field, are read back from the
      line that joins them. */
  lemma {:induction false} PlainFieldsRoundTrip(f: seq<string>)
    requires |f| == 4
    requires Separator !in f[0] && Separator !in f[1] && Separator !in f[2] && Separator !in f[3]
    requires NoSurroundingWhiteSpace(f[0]) && NoSurroundingWhiteSpace(f[1]) && NoSurroundingWhiteSpace(f[2])
    requires ParseScoreField(f[3]).Some?
    ensures ParseLine(Join(f, Separator)) == Some(ScoreEntry(f[0], f[1], f[2], ParseScoreField(f[3]).value))
  {
    assert Split(Join(f, Separator), Separator) == f by {
      assert forall k :: 0 <= k < |f| ==> Separator !in f[k] by {
        forall k | 0 <= k < |f| ensures Separator !in f[k] {
          if k == 0 {} else if k == 1 {} else if k == 2 {} else {}
        }
      }
      SplitJoin(f, Separator);
    }
    assert Trim(f[0]) == f[0] && Trim(f[1]) == f[1] && Trim(f[2]) == f[2] by {
      TrimIdentity(f[0]);
      TrimIdentity(f[1]);
      TrimIdentity(f[2]);
    }
  }

  /** "Level N" holds no separator and no white space at its ends. */
  lemma {:induction false} LevelFieldIsPlain(level: int32)
    ensures Separator !in "Level " + FormatInt32(level)
    ensures NoSurroundingWhiteSpace("Level " + FormatInt32(level))
  {
    IntIsPlain(level);
    LevelTextIsPlain(FormatInt32(level));
  }

  lemma {:induction false} LevelTextIsPlain(sl: string)
    requires |sl| >= 1 && forall i :: 0 <= i < |sl| ==> IsDigit(sl[i]) || sl[i] == '-'
    ensures Separator !in "Level " + sl
    ensures NoSurroundingWhiteSpace("Level " + sl)
  {
    var f := "Level " + sl;
    assert forall i :: 6 <= i < |f| ==> f[i] == sl[i - 6];
    assert f[0] == 'L' && f[|f| - 1] == sl[|sl| - 1];
  }

  /** "S PTS" holds no separator, and the score parser reads S back from it. */
  lemma {:induction false} ScoreFieldRoundTrip(score: int32)
    ensures Separator !in FormatInt32(score) + " PTS"
    ensures ParseScoreField(FormatInt32(score) + " PTS") == Some(score)
  {
    var ss := FormatInt32(score);
    IntIsPlain(score);
    ScoreTextReadBack(ss);
    ParseFormatInt32(score);
  }

  /** Text of '-' and digits followed by " PTS" holds no separator and
      becomes that text again once "PTS" is removed and it is trimmed. */
  lemma {:induction false} ScoreTextReadBack(ss: string)
    requires |ss| >= 1 && forall i :: 0 <= i < |ss| ==> IsDigit(ss[i]) || ss[i] == '-'
    ensures Separator !in ss + " PTS"
    ensures Trim(RemoveAll(ss + " PTS", PointsMarker)) == ss
  {
    var a := ss + " ";
    assert forall i :: 0 <= i < |ss| ==> a[i] == ss[i];
    assert Separator !in a + PointsMarker && 'P' !in a by {
      assert forall i :: 0 <= i < |a + PointsMarker| ==> (a + PointsMarker)[i] != Separator;
    }
    assert ss + " PTS" == a + PointsMarker;
    RemoveMarkerSuffix(a);
    assert NoSurroundingWhiteSpace(ss) by {
      assert IsDigit(ss[|ss| - 1]) || ss[|ss| - 1] == '-';
    }
    TrimOneSpace(ss);
  }

  lemma {:induction false} TrimOneSpace(s: string)
    requires NoSurroundingWhiteSpace(s)
    ensures Trim(s + " ") == s
  {
    TrimPadded([], s, " ");
    assert [] + s + " " == s + " ";
  }

  lemma {:induction false} RemoveMarkerSuffix(a: string)
    requires 'P' !in a
    ensures RemoveAll(a + PointsMarker, PointsMarker) == a
  {
    RemoveAllKeepsPrefix(a, PointsMarker, PointsMarker);
    assert PointsMarker[..3] == PointsMarker;
    assert RemoveAll(PointsMarker, PointsMarker) == RemoveAll([], PointsMarker);
  }

  /** The loop of GetBestScores for any line parser: the values of the
      lines it accepts, in order, skipping the lines it rejects. */
  function Collect<T>(lines: seq<string>, parse: string -> Option<T>): (values: seq<T>)
    ensures |values| <= |lines|
  {
    if lines == [] then []
    else
      Collect(lines[..|lines| - 1], parse)
      + (match parse(lines[|lines| - 1]) case Some(v) => [v] case None => [])
  }

  /** A rejected line does not stop the loop: collecting over two stretches
      of lines gives the values of each, in order. */
  lemma {:induction false} CollectAppend<T>(a: seq<string>, b: seq<string>, parse: string -> Option<T>)
    ensures Collect(a + b, parse) == Collect(a, parse) + Collect(b, parse)
    decreases |b|
  {
    if b == [] {
      assert a + b == a;
    } else {
      var b' := b[..|b| - 1];
      CollectAppend(a, b', parse);
      assert (a + b)[..|a + b| - 1] == a + b' && (a + b)[|a + b| - 1] == b[|b| - 1];
    }
  }

  /** GetBestScores' loop: the entries of the lines that parse, in file order. */
  function ParseAll(lines: seq<string>): (entries: seq<ScoreEntry>)
    ensures |entries| <= |lines|
  {
    Collect(lines, ParseLine)
  }

  /** A malformed line is skipped and the lines after it are still read:
      the entries of two stretches of lines are those of each, in order. */
  lemma {:induction false} ParseAllAppend(a: seq<string>, b: seq<string>)
    ensures ParseAll(a + b) == ParseAll(a) + ParseAll(b)
  {
    CollectAppend(a, b, ParseLine);
  }

  /** Every kept entry is what ParseLine makes of some line of the file. */
  lemma {:induction false} ParseAllFromLines(lines: seq<string>, k: nat)
    requires k < |ParseAll(lines)|
    ensures exists i :: 0 <= i < |lines| && ParseLine(lines[i]) == Some(ParseAll(lines)[k])
    decreases |lines|
  {
    var init := lines[..|lines| - 1];
    var last := lines[|lines| - 1];
    if k < |ParseAll(init)| {
      ParseAllFromLines(init, k);
      var i :| 0 <= i < |init| && ParseLine(init[i]) == Some(ParseAll(init)[k]);
      assert lines[i] == init[i];
    } else {
      assert ParseLine(lines[|lines| - 1]) == Some(ParseAll(lines)[k]);
    }
  }
}
