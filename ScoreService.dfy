/** ScoreService: the high-score file `highscores.txt` and its three
    operations. The file is the store's state; DateTime.Now is passed in. */
module ScoreService {
  import opened Wrappers
  import opened Text
  import opened Numbers
  import opened ScoreRecord
  import opened Leaderboard

  /** Environment.NewLine on Linux. */
  const NewLine: string := "\n"

  /** What GetBestScores returns for a given state of the file: nothing
      when there is no file, otherwise the top entries of its valid lines. */
  function BestScores(file: Option<string>): seq<ScoreEntry> {
    match file
    case None => []
    case Some(text) => TopScores(ParseAll(ReadLines(text)))
  }

  class ScoreStore {
    /** The text of highscores.txt, or None while the file does not exist. */
    var file: Option<string>

    /** The store as found at start-up: no file, or a file with some text. */
    constructor (existing: Option<string>)
      ensures file == existing
    {
      file := existing;
    }

    /** The file's text; a missing file reads as empty text when appended to. */
    function FileText(): string
      reads this
    {
      match file
      case None => ""
      case Some(t) => t
    }

    /** The lines File.ReadAllLines would return. */
    function Lines(): seq<string>
      reads this
    {
      ReadLines(FileText())
    }

    /** SaveScore: appends one formatted line and a newline to the file,
        creating it when missing. When the file ended with a line break and
        the name holds none, the lines are the old ones plus the new record. */
    method SaveScore(now: Timestamp, playerName: string, score: int32, level: int32)
      modifies this
      ensures file == Some(old(FileText()) + FormatRecord(now, playerName, score, level) + NewLine)
      ensures old(EndsWithLineBreak(FileText())) && !HasLineBreak(playerName)
              ==> Lines() == old(Lines()) + [FormatRecord(now, playerName, score, level)]
    {
      var line := FormatRecord(now, playerName, score, level);
      var before := FileText();
      file := Some(before + line + NewLine);
      if EndsWithLineBreak(before) && !HasLineBreak(playerName) {
        AppendedLineReadBack(before, line);
      }
    }

    /** GetBestScores: parses every line, skipping malformed ones, then
        ranks the entries and keeps the first ten. */
    method GetBestScores() returns (best: seq<ScoreEntry>)
      ensures best == BestScores(file)
      ensures file == None ==> best == []
      ensures |best| <= MaxEntries && SortedByScoreDesc(best)
    {
      var list: seq<ScoreEntry> := [];
      if file.None? {
        return list;
      }
      var lines := ReadLines(file.value);
      for i := 0 to |lines|
        invariant list == ParseAll(lines[..i])
      {
        assert lines[..i + 1][..i] == lines[..i];
        match ParseLine(lines[i]) {
          case Some(e) =>
            list := list + [e];
          case None =>
        }
      }
      assert lines[..|lines|] == lines;
      best := TopScores(list);
    }

    /** ClearScores: deletes the file if it exists. */
    method ClearScores()
      modifies this
      ensures file == None
    {
      if file.Some? {
        file := None;
      }
    }
  }

  /** A record appended after a completed last line is read back as one more line. */
  lemma {:induction false} AppendedLineReadBack(text: string, line: string)
    requires EndsWithLineBreak(text) && !HasLineBreak(line) && line != []
    ensures ReadLines(text + line + NewLine) == ReadLines(text) + [line]
  {
    assert text + line + NewLine == text + (line + NewLine);
    assert (line + NewLine)[0] == line[0];
    ReadLinesAppend(text, line + NewLine);
    ReadOneLine(line);
  }

  /** Saving then reading: the valid entries of the file after SaveScore
      are the earlier ones followed by the saved entry, when the file ended
      with a line break and the name has no separator, no line break and
      no white space at its ends. */
  lemma {:induction false} SavedEntryReadBack(text: string, now: Timestamp, playerName: string, score: int32, level: int32)
    requires EndsWithLineBreak(text)
    requires Separator !in playerName && !HasLineBreak(playerName) && NoSurroundingWhiteSpace(playerName)
    ensures ParseAll(ReadLines(text + FormatRecord(now, playerName, score, level) + NewLine))
            == ParseAll(ReadLines(text)) + [ScoreEntry(FormatTimestamp(now), Upper(playerName), "Level " + FormatInt32(level), score)]
  {
    var line := FormatRecord(now, playerName, score, level);
    AppendedLineReadBack(text, line);
    ParseAllAppend(ReadLines(text), [line]);
    RecordRoundTrip(now, playerName, score, level);
    assert [line][..0] == [];
  }

  /** While the file holds fewer than ten valid entries, a score just saved
      is on the leaderboard. */
  lemma {:induction false} SavedScoreShown(text: string, now: Timestamp, playerName: string, score: int32, level: int32)
    requires EndsWithLineBreak(text)
    requires Separator !in playerName && !HasLineBreak(playerName) && NoSurroundingWhiteSpace(playerName)
    requires |ParseAll(ReadLines(text))| < MaxEntries
    ensures ScoreEntry(FormatTimestamp(now), Upper(playerName), "Level " + FormatInt32(level), score)
            in BestScores(Some(text + FormatRecord(now, playerName, score, level) + NewLine))
  {
    var e := ScoreEntry(FormatTimestamp(now), Upper(playerName), "Level " + FormatInt32(level), score);
    var entries := ParseAll(ReadLines(text + FormatRecord(now, playerName, score, level) + NewLine));
    SavedEntryReadBack(text, now, playerName, score, level);
    TopScoresKeepsAll(entries);
    assert e in multiset(entries);
    assert e in multiset(TopScores(entries));
  }
}
