# Pac-Man high scores and entity model

A Dafny model of two parts of an Avalonia Pac-Man game.

**The high-score service.** `ScoreService` keeps one line per finished game in `highscores.txt`. The line has the form `yyyy-MM-dd HH:mm|NAME|Level N|SCORE PTS`. The service has three operations:

- `SaveScore` appends a line.
- `GetBestScores` re-reads the file. It skips every malformed line and returns the ten highest entries. The sort is stable, so entries with equal scores stay in file order.
- `ClearScores` deletes the file.

**The game entities.** `GameObject` holds a grid position. `Ghost`, `Pacman`, `Coin` and `Cherry` extend it. The enumerations `GhostState`, `Direction` and `GameMode` become datatypes.

Modules:

- `Wrappers`: the `Option` type returned by the parsers.
- `Text`: the .NET string operations the service relies on:
  - `Char.IsWhiteSpace` and `String.Trim`;
  - `String.ToUpper`, restricted to ASCII letters;
  - `String.Split` on one character, and its inverse `Join`;
  - `String.Replace` with an empty replacement;
  - the line splitting of `File.ReadAllLines`, which breaks at `\r\n`, `\r` and `\n`.
- `Numbers`: the `int` type as the subset type `int32`:
  - `Int32.ToString()`;
  - `Int32.TryParse`, modelled as an optional sign, then digits, within range;
  - the zero-padded fields of the date format.
- `ScoreRecord`: the `ScoreEntry` record and the timestamp:
  - `FormatRecord` builds the line `SaveScore` writes;
  - `ParseLine` reads one line the way `GetBestScores` does, returning `None` for a line it skips;
  - `ParseAll` is the parsing loop.
- `Leaderboard`: `OrderByDescending(x => x.Score).Take(10)`.
  - The sort is a stable insertion sort.
  - `WithScore(s, k)` is the subsequence of `s` with score `k`.
  - Stability is stated as: for every `k`, the sort keeps `WithScore(s, k)` unchanged.
- `ScoreService`: the class `ScoreStore`.
  - Its state is the file: `None` while it does not exist, otherwise its text.
  - Its methods are `SaveScore`, `GetBestScores` and `ClearScores`.
  - `DateTime.Now` is a parameter of `SaveScore`.
- `Entities`: the entity classes and the enumerations.
  - Dafny has no class inheritance without traits. Instead, every entity owns a `GameObject` as its `body`, created fresh with it.
  - Properties with a private setter, or with only a getter, are `const` fields.
  - `GhostType` and `CherryType` are declared elsewhere in the game, so they are opaque types with equality.

## Model

| member | source | states |
|---|---|---|
| Text.Trim | Services/ScoreService.cs:66 | The result is a slice `s[i..j]` of the input. Only white space lies outside the slice, and neither end of the result is white space. |
| Text.TrimPadded | Services/ScoreService.cs:70 | Trimming `a + r + b` gives `r` when `a` and `b` are all white space and `r` has none at its ends. |
| Text.TrimIdentity | Services/ScoreService.cs:70 | Trim leaves text with no white space at its ends unchanged. |
| Text.Upper | Services/ScoreService.cs:37 | `ToUpper` keeps the length and turns each lower-case ASCII letter into its upper-case letter (code minus 32). Every other character is kept. White space stays white space. |
| Text.UpperIdempotent | Services/ScoreService.cs:37 | Upper-casing twice gives the same result as upper-casing once. |
| Text.UpperKeeps | Services/ScoreService.cs:37 | A non-letter, such as the separator or a line break, occurs in the upper-cased name iff it occurs in the name. The same holds for white space at the ends. |
| Text.Split | Services/ScoreService.cs:62 | Splitting on the separator gives one more part than there are separators. No part holds a separator. Joining the parts with the separator gives the line back. |
| Text.SplitJoin | Services/ScoreService.cs:62 | Splitting separator-free pieces joined by the separator gives the pieces back. |
| Text.SplitNoSeparator | Services/ScoreService.cs:62 | A string without the separator splits into itself alone. |
| Text.RemoveAllKeepsPrefix | Services/ScoreService.cs:66 | `Replace("PTS", "")` keeps a prefix unchanged when the prefix holds no `P`. |
| Text.ReadLinesNoBreaks | Services/ScoreService.cs:59 | No line returned by `ReadAllLines` holds `\r` or `\n`. |
| Text.ReadLinesAppend | Services/ScoreService.cs:59 | Take text whose last line is terminated, and appended text that does not start with `\n` (which would complete a `\r\n` pair across the boundary). The appended text is read as lines of their own, after the old lines. |
| Text.ReadOneLine | Services/ScoreService.cs:37-39 | A line without a line break, followed by a newline, is read back as exactly that line. |
| Numbers.NatToDigits | Services/ScoreService.cs:37 | The decimal text of a natural number is digits only, with no leading zero, and it reads back as the number. |
| Numbers.FormatInt32 | Services/ScoreService.cs:37 | `int.ToString()` starts with `-` iff the value is negative, followed by digits only. |
| Numbers.ParseInt32 | Services/ScoreService.cs:68 | `int.TryParse` succeeds iff the text is an optional sign followed by at least one digit (leading zeros, `+` and `-0` allowed) whose value fits in 32 bits, and the result is that signed value. |
| Numbers.ParseFormatInt32 | Services/ScoreService.cs:37-68 | Parsing the text of any 32-bit value, `int.MinValue` included, gives the value back. |
| Numbers.FormatParseInt32 | Services/ScoreService.cs:37-68 | Canonical text that parses to `n` is exactly the text of `n`. Canonical means no `+`, no leading zero and no `-0`. |
| Numbers.PadDigits | Services/ScoreService.cs:37 | A `yyyy`/`MM` field is digits that read back as the value. It is at least `width` long, and exactly `width` long when the value is below 10^width. |
| ScoreRecord.FormatTimestamp | Services/ScoreService.cs:37 | `yyyy-MM-dd HH:mm` is 16 characters, with `-`, `-`, ` ` and `:` at positions 4, 7, 10 and 13. Each field reads back as the timestamp's component. |
| ScoreRecord.TimestampIsPlainField | Services/ScoreService.cs:37 | A formatted date has no separator, no line break and no white space at its ends. |
| ScoreRecord.FormatRecord | Services/ScoreService.cs:37 | The saved line holds a line break iff the player name does. It starts with the 16-character date, followed by the separator. |
| ScoreRecord.LevelFieldIsPlain | Services/ScoreService.cs:37 | `Level N` holds no separator and no white space at its ends. |
| ScoreRecord.ScoreFieldRoundTrip | Services/ScoreService.cs:37-68 | The field `S PTS` holds no separator. Removing `PTS`, trimming and parsing it gives `S` back. |
| ScoreRecord.ParseLine | Services/ScoreService.cs:62-72 | A line is kept iff it has exactly three separators and its fourth field parses after `PTS` is removed and the field is trimmed. A kept entry has the parsed score, and its date, name and level are the first three fields, trimmed; they hold no separator. |
| ScoreRecord.PlainFieldsRoundTrip | Services/ScoreService.cs:62-70 | Take four separator-free fields whose first three have no white space at their ends and whose last is a valid score field. Joined by the separator, they are read back as exactly those fields and that score. |
| ScoreRecord.TrimKeepsOut | Services/ScoreService.cs:70 | Trimming a field adds no character to it. |
| ScoreRecord.RecordRoundTrip | Services/ScoreService.cs:37-70 | The saved line parses back as (date, upper-cased name, `Level N`, score). This holds for any name without a separator and without white space at its ends. |
| ScoreRecord.CollectAppend | Services/ScoreService.cs:60-73 | For any line parser, collecting over two stretches of lines gives the values of each, in order: a rejected line does not end the loop. |
| ScoreRecord.ParseAll | Services/ScoreService.cs:60-73 | The loop keeps at most one entry per line. |
| ScoreRecord.ParseAllAppend | Services/ScoreService.cs:60-73 | A skipped line does not stop the loop. The entries of two stretches of lines are those of each stretch, in order. |
| ScoreRecord.ParseAllFromLines | Services/ScoreService.cs:60-73 | Every kept entry is what `ParseLine` makes of some line of the file. |
| Leaderboard.Insert | Services/ScoreService.cs:80 | Inserting into a descending list keeps it descending, adds exactly the new entry and adds one to the length. |
| Leaderboard.SortByScoreDesc | Services/ScoreService.cs:80 | `OrderByDescending(x => x.Score)` returns a permutation of its input with the highest score first. |
| Leaderboard.WithScoreInsert | Services/ScoreService.cs:80 | Insertion puts the new entry in front of the entries with the same score. It changes no other score's entries. |
| Leaderboard.SortIsStable | Services/ScoreService.cs:80 | The sort is stable: for every score, the entries with that score keep their input order. |
| Leaderboard.InWithScore | Services/ScoreService.cs:80 | An entry is among `WithScore(s, k)` iff it is in `s` with score `k`. |
| Leaderboard.StableOrderUnique | Services/ScoreService.cs:80 | Two descending orders that agree on every score's subsequence are equal, so the stable sort's result is unique. |
| Leaderboard.TopScores | Services/ScoreService.cs:80 | `Take(10)` returns min(n, 10) entries, sorted descending, drawn from the input. |
| Leaderboard.TopScoresKeepsAll | Services/ScoreService.cs:80 | With ten valid entries or fewer, all of them are returned, in stable descending order. |
| Leaderboard.TopScoresKeepsBest | Services/ScoreService.cs:80 | No entry left out has a higher score than any entry returned. |
| Leaderboard.TopScoresKeepsFileOrder | Services/ScoreService.cs:80 | For each score, the returned entries with that score are the first ones of that score in file order. |
| Leaderboard.WithScoreAppend | Services/ScoreService.cs:80 | Filtering by score distributes over concatenation. |
| ScoreService.ScoreStore.constructor | Services/ScoreService.cs:25 | The store starts as the file found: absent, or with some text. |
| ScoreService.ScoreStore.SaveScore | Services/ScoreService.cs:33-45 | The file becomes its old text plus the formatted line plus a newline. A missing file is created. Take an old text whose last line is terminated, and a name without a line break. Then the file's lines are the old lines plus the new record. |
| ScoreService.ScoreStore.GetBestScores | Services/ScoreService.cs:51-81 | The result is `TopScores` of the lines that parse, in file order, and is empty when the file is missing. It holds at most ten entries and is sorted by score, highest first. |
| ScoreService.ScoreStore.ClearScores | Services/ScoreService.cs:86-92 | Afterwards the file does not exist, whether or not it did before. |
| ScoreService.AppendedLineReadBack | Services/ScoreService.cs:37-59 | A non-empty line without a line break, appended with a newline after a terminated last line, is read back as exactly one more line. |
| ScoreService.SavedEntryReadBack | Services/ScoreService.cs:33-73 | When the file ended with a line break and the name has no pipe character, no line break and no white space at its ends, saving then reading gives the earlier valid entries followed by the saved entry. |
| ScoreService.SavedScoreShown | Services/ScoreService.cs:33-81 | When the file ended with a line break, the name has no pipe character, no line break and no white space at its ends, and the file holds fewer than ten valid entries, a score just saved appears on the leaderboard. |
| Entities.GameObject.constructor | Models/GameObject.cs:23-27 | The new object is at `(x, y)`. |
| Entities.GameObject.SetX | Models/GameObject.cs:11 | Assigning `X` sets it to any value, with no bounds check, and leaves `Y` unchanged. |
| Entities.GameObject.SetY | Models/GameObject.cs:16 | Assigning `Y` sets it to any value, with no bounds check, and leaves `X` unchanged. |
| Entities.Ghost.constructor | Models/Ghost.cs:13-51 | A new ghost is at `(x, y)`, in state `Normal`, with last direction `(0, 0)`. Its start tile is `(x, y)` and its type is the one given. |
| Entities.Ghost.SetState | Models/Ghost.cs:13 | Changing the state leaves the position and the last direction unchanged. The start tile and the type are constants. |
| Entities.Ghost.SetLastDir | Models/Ghost.cs:23-28 | Recording the last direction leaves the state and the position unchanged. |
| Entities.Ghost.MoveTo | Models/Ghost.cs:33-38 | Moving the ghost changes only its position. The state, last direction, start tile and type stay unchanged. |
| Entities.Pacman.constructor | Models/Pacman.cs:11-25 | A new player is at `(x, y)` with 3 lives and score 0. |
| Entities.Pacman.SetLives | Models/Pacman.cs:11 | Assigning `Lives` leaves the score and the position unchanged. |
| Entities.Pacman.SetScore | Models/Pacman.cs:16 | Assigning `Score` leaves the lives and the position unchanged. |
| Entities.Pacman.MoveTo | Models/GameObject.cs:11-16 | Moving the player leaves the lives and the score unchanged. |
| Entities.Coin.constructor | Models/Coin.cs:8-23 | A new coin is at `(x, y)`. It is a power pellet iff `isPower` is true, and `isPower` defaults to false. |
| Entities.Coin.MoveTo | Models/Coin.cs:12-20 | Moving a coin leaves its kind unchanged. |
| Entities.Cherry.constructor | Models/Cherry.cs:14-25 | A new cherry is at `(x, y)` with the given type. |
| Entities.Cherry.MoveTo | Models/Cherry.cs:14-22 | Moving a cherry leaves its type unchanged. |

## Left out

- **File system.**
  - The exceptions `SaveScore` and `GetBestScores` catch and log (Services/ScoreService.cs:41-44, 75-78) are not modelled. The file calls always succeed here.
  - A file that exists but cannot be read gives an empty leaderboard in the source (the read finishes before the loop starts, so nothing has been collected); the model always reads it.
  - `FilePath` and the application directory are not modelled; the store is the one file.
- **Clock.** `DateTime.Now` is a `Timestamp` parameter. The `-` and ` ` of the format are literals; the `:` time separator depends on the culture and is fixed to the invariant culture's.
- **Encoding.** The file is a `string`. UTF-8 encoding, a byte-order mark and invalid bytes are not modelled.
- **Newline.** `Environment.NewLine` is `"\n"`. With `"\r\n"` the lines read back the same, but that case is not proved.
- ScoreService.ScoreStore.SaveScore: the line-by-line postcondition assumes the file ended with a line break and the name holds none. Otherwise `ReadAllLines` joins or splits lines, and only the file text is stated.
- Text.Upper: only ASCII letters are upper-cased. Culture-specific casing, such as the Turkish dotted i, and non-ASCII letters are not modelled.
- Numbers.FormatInt32: `int.ToString()` in the interpolated `{level}` and `{score}` uses the current culture's negative sign; the model fixes it as `-` (invariant culture).
- Numbers.ParseInt32: models `int.TryParse` on already-trimmed text in the invariant culture. The following are not modelled:
  - culture-specific signs and digits;
  - the trailing NUL characters that .NET tolerates.
- Text.RemoveAll: its own contract states only that the text does not grow. What it does to a score field is proved in `ScoreRecord.ScoreFieldRoundTrip`.
- Text.ReadLines and ScoreRecord.RecordFields: specification functions without their own contract. Their properties are the lemmas listed above.
- **GameObject.** It is abstract with a protected constructor (Models/GameObject.cs:6, 23). Dafny has no inheritance here, so `GameObject` is a plain class that each entity owns as its `body`; it is never used on its own.
- **Other files.** These are not part of this model:
  - `Models/Wall.cs`, which only calls the base constructor;
  - the game loop, ghost AI, collisions and map loading, which are outside the files this model covers;
  - `Services/AudioPlayer.cs`, which is process and sound I/O;
  - `Services/GameRenderer.cs` and the Views, which are UI drawing and key handling;
  - the ViewModels, which are navigation and copying of the leaderboard.
