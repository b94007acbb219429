# PowerShellClient: command builder and table reader

This project models the deterministic core of the PowerShellClient library, a
thin .NET wrapper that runs a PowerShell script in a child process and reads
its output back. The model has three parts.

- **Parameter formatting** (`Parameters.dfy`). `PowerShellParameter` and
  `PowerShellNamedParameter` become one datatype, `Positional(value) |
  Named(name, value)`. A value is `Str(s)`, a .NET `string`, or `Other(text)`,
  any other object given by its `ToString()` text. `Format` wraps a string in
  single quotes and does no escaping. Any other value is emitted as its own
  text. A named parameter is prefixed with `-name `. `Value` and `Name` are
  get-only properties set by the constructor, and the datatype value holds
  them. A non-string value holds the text of its `ToString()`, not the object.
- **The command builder** (`Command.dfy`). `PowerShellCommand` is a class.
  Its fields are the script, the parameter list and `CommandTimeoutSeconds`.
  `AddArgument` and `AddParameter` append to the list in place.
  `GetCommandString` is the source's `StringBuilder` loop. It is proved equal to
  the specification function `CommandString`, which is the script followed by
  `" " + Format(p) + " "` for each parameter in insertion order. Lemmas about
  `CommandString` cover:
  - the script as a prefix;
  - the total length;
  - where each parameter sits;
  - the equivalent layout with two spaces between parameters;
  - the consequence of the missing escaping.
- **The table reader** (`Tokenize.dfy`, `DataReader.dfy`,
  `DataReaderProperties.dfy`). `PowerShellDataReader` is a class over the
  output taken as a sequence of lines, plus a stream position.
  - `Split(new[] { ' ' }, StringSplitOptions.RemoveEmptyEntries)` is the pure
    function `Tokens`.
  - The methods `Read`, `GetColumnNameMap`, the column-adding loop inside it,
    and the indexer's `GetValue` are imperative. Each is proved against a
    state-transition function. `ReadStep`, `HeaderStep`, `MapStep` and
    `Lookup` work on `ReaderState`, which holds the position, `_columnNameMap`
    and `_currentRow`.
  - Every exception is an error value. There is one constructor per throw
    site: no output, a repeated column name (`Dictionary.Add`), `Read()` not
    yet called, an unknown column, no current row and a row too short.
  - The lemmas in `DataReaderProperties.dfy` cover the first read (header
    search, the no-output error, duplicate names, the column map), later
    reads, and a well-formed table: leading blank lines, a header, a
    partition line, n rows and the trailing blank lines. On such a table
    `Read()` returns true n times, standing on the rows in order, then false.
    That false read takes the first trailing blank line and leaves an empty
    current row. When no line follows the rows, it stops at end of stream.

Facts about the code that the model follows:
- The reader parses only the space-separated table layout: header, dash line,
  rows.
- `PowerShellParameter` quotes a string with single quotes and does not escape
  it (PowerShellClient/PowerShellParameter.cs:14-17). The double quotes
  described by PowerShellClient/ParameterQuoteOptions.cs:6 and expected by
  PowerShellClient.Tests/PowerShellParameterTests.cs:13 are not what that code
  produces.
- No constructor or `Add` method validates its arguments.

Consequences of the code that the model makes explicit:
- A `Read()` that returns false at end of stream leaves the previous row in
  place, so `reader[c]` still answers from it.
- The dictionary is assigned before the header's names are added. When a name
  repeats, `Dictionary.Add` throws with the map holding the names before the
  repeat. The next `Read()` then sees a map and reads the partition line as a
  row.
- `GetValue` evaluates in C#'s order. The missing map comes first
  (`InvalidOperationException`), then the dictionary lookup
  (`KeyNotFoundException`), then the null row (`NullReferenceException`), then
  the array bound (`IndexOutOfRangeException`).

## Model

| member | source | states |
|---|---|---|
| Tokenize.TokensAreWords | PowerShellClient/PowerShellDataReader.cs:31 | every token of a line is non-empty and contains no space |
| Tokenize.TokensEmptyIffBlank | PowerShellClient/PowerShellDataReader.cs:46-48 | a line yields no tokens exactly when it consists of spaces only |
| Tokenize.TokensSplitAtSpace | PowerShellClient/PowerShellDataReader.cs:31 | a space separates: the tokens of `a + " " + b` are the tokens of `a` followed by those of `b`, so a value containing a space becomes several tokens |
| Tokenize.TokensOfWord | PowerShellClient/PowerShellDataReader.cs:31 | a non-empty string without spaces is its own only token |
| Tokenize.TokensOfJoinWords | PowerShellClient/PowerShellDataReader.cs:31 | round trip: splitting words joined by single spaces gives back exactly those words, in order |
| DataReader.HeaderIndexIsFirst | PowerShellClient/PowerShellDataReader.cs:44-49 | the header search skips exactly the lines without tokens and stops at the first line with some |
| DataReader.FirstDuplicateIsFirst | PowerShellClient/PowerShellDataReader.cs:58-61 | the header names before the first repeated one are distinct, and that one repeats an earlier name |
| DataReader.IndexMapKeys | PowerShellClient/PowerShellDataReader.cs:56-61 | the column map built by the `Add` loop has exactly the header names as keys |
| DataReader.IndexMapPositions | PowerShellClient/PowerShellDataReader.cs:58-61 | with distinct names, each name maps to its 0-based position in the header |
| DataReader.ReadStep | PowerShellClient/PowerShellDataReader.cs:19-38 | a read never moves the stream backwards or past its end |
| DataReader.FirstReadStep | PowerShellClient/PowerShellDataReader.cs:21-27 | the first read, including the header search and the discarded partition line, stays within the stream |
| DataReader.PowerShellDataReader.constructor | PowerShellClient/PowerShellDataReader.cs:14-17 | a new reader stands at the start of the stream with no column map and no current row |
| DataReader.PowerShellDataReader.Read | PowerShellClient/PowerShellDataReader.cs:19-38 | the new state and the return value or exception are those of `ReadStep` on the old state |
| DataReader.PowerShellDataReader.GetColumnNameMap | PowerShellClient/PowerShellDataReader.cs:40-62 | the new position and column map, and the no-output or duplicate-name exception, are those of `HeaderStep` on the old state |
| DataReader.PowerShellDataReader.AddColumns | PowerShellClient/PowerShellDataReader.cs:56-61 | the `Add` loop leaves the map of `MapStep`: all names with their positions, or the names before the first repeat with that repeat's exception |
| DataReader.PowerShellDataReader.GetValue | PowerShellClient/PowerShellDataReader.cs:69-79 | returns the row's token at the column's index exactly when there is a map that holds the column, a row and enough tokens. Otherwise it throws: the invalid-operation error before any read, key-not-found for a name not in the map, the null-row error when no row has been read, and out-of-range when the row is too short |
| DataReaderProperties.FirstReadNoOutput | PowerShellClient/PowerShellDataReader.cs:51-54 | the first read throws the no-output exception exactly when every remaining line is blank |
| DataReaderProperties.FirstReadDuplicate | PowerShellClient/PowerShellDataReader.cs:56-61 | the first read throws on a repeated column exactly when the header line's names are not distinct |
| DataReaderProperties.FirstReadHeader | PowerShellClient/PowerShellDataReader.cs:21-61 | a successful first read skipped only blank lines, took the first non-blank line as header, mapped every name to its position, discarded one line and read at most one row |
| DataReaderProperties.LaterRead | PowerShellClient/PowerShellDataReader.cs:29-37 | once the map exists, a read never throws, keeps the map and consumes at most one line; at end of stream it returns false and changes nothing; otherwise the row is the next line's tokens and the result is true exactly when that line is not blank |
| DataReaderProperties.BlankLineEmptiesRow | PowerShellClient/PowerShellDataReader.cs:31-32 | reading a blank line returns false and makes the current row empty |
| DataReaderProperties.DistinctOrDuplicate | PowerShellClient/PowerShellDataReader.cs:58-61 | the `Add` loop finds a repeated name exactly when the names are not distinct |
| DataReaderProperties.TableHeaderIndex | PowerShellClient/PowerShellDataReader.cs:44-49 | on a table the header is the first line after the leading blank lines |
| DataReaderProperties.TableFirstRead | PowerShellClient/PowerShellDataReader.cs:21-33 | the first read of a table maps the header, skips the partition line and stands on the first row returning true; with no rows it returns false, on the first trailing blank line with an empty row or else at end of stream |
| DataReaderProperties.TableNextRead | PowerShellClient/PowerShellDataReader.cs:29-37 | on row `i - 1` of a table a read moves to row `i` and returns true. After the last row it returns false: on the first trailing blank line with an empty row, or with nothing changed when the stream ends at the last row |
| DataReaderProperties.TableReads | PowerShellClient.Tests/PowerShellDataReaderTests.cs:30-33 | after `i` reads of a table the reader stands on row `i - 1`, rows in input order |
| DataReaderProperties.TableReadResults | PowerShellClient.Tests/PowerShellDataReaderTests.cs:30-43 | on a table with `n` rows the first `n` reads return true and read `n + 1` returns false and keeps the column map. With trailing blank lines, that read takes the first of them and the current row becomes empty. When the stream ends at the last row, it changes nothing |
| DataReaderProperties.TableValue | PowerShellClient/PowerShellDataReader.cs:76-78 | on a table row, `reader[c]` for the header's column `q` is the row's token `q` or the out-of-range error, and a name not in the header is the key-not-found error |
| DataReaderProperties.LookupBeforeRead | PowerShellClient/PowerShellDataReader.cs:71-74 | field access before the first read throws the invalid-operation error |
| Parameters.StringIsQuoted | PowerShellClient/PowerShellParameter.cs:14-17 | a string value comes out as `'` + s + `'`; removing the first and last character gives `s` back exactly, quotes inside it included |
| Parameters.OtherIsVerbatim | PowerShellClient/PowerShellParameter.cs:18-21 | any other value comes out as its own text, with no quotes added |
| Parameters.NamedIsPrefixed | PowerShellClient/PowerShellNamedParameter.cs:12-15 | a named parameter is `-`, the name verbatim and a space, followed by exactly the positional format of the same value |
| Parameters.NamedString | PowerShellClient/PowerShellNamedParameter.cs:14 | a named string parameter formats as `-name 's'` |
| Command.PowerShellCommand.constructor | PowerShellClient/PowerShellCommand.cs:13-19 | a new command holds the script verbatim, no parameters and a timeout of 30 seconds |
| Command.PowerShellCommand.AddArgument | PowerShellClient/PowerShellCommand.cs:21-24 | appends exactly one positional parameter carrying the value, leaving the earlier ones unchanged |
| Command.PowerShellCommand.AddParameter | PowerShellClient/PowerShellCommand.cs:26-29 | appends exactly one named parameter carrying the name and value, leaving the earlier ones unchanged (the value is the first argument) |
| Command.PowerShellCommand.GetCommandString | PowerShellClient/PowerShellCommand.cs:69-79 | the builder loop returns `CommandString`: the script, then `" " + format + " "` for each parameter in order |
| Command.SpacedAppend | PowerShellClient/PowerShellCommand.cs:73-76 | the text appended for two lists of parameters one after the other is the text of each, in order |
| Command.SpacedLength | PowerShellClient/PowerShellCommand.cs:73-76 | the appended text is as long as the formats plus two spaces each |
| Command.ScriptIsPrefix | PowerShellClient/PowerShellCommand.cs:71-78 | the script is an unescaped prefix of the command string, and with no parameters it is the whole command string |
| Command.CommandStringLength | PowerShellClient/PowerShellCommand.cs:71-78 | the command string's length is the script's plus each parameter's format length plus two |
| Command.CommandStringAppend | PowerShellClient/PowerShellCommand.cs:73-76 | adding a parameter extends the command string by `" " + format + " "` and leaves what was there |
| Command.ParameterAt | PowerShellClient/PowerShellCommand.cs:73-76 | parameter `i`'s format, between single spaces, sits right after the script and the text of the parameters before it |
| Command.TwoSpaceLayout | PowerShellClient/PowerShellCommand.cs:75 | with parameters, the command string is the script, a space, the formats joined by two spaces, and a trailing space |
| Command.NoEscaping | PowerShellClient/PowerShellParameter.cs:16 | a string argument `x'  'y` produces exactly the command string of the two string arguments `x` and `y` |

## Left out

- `Execute`, `ExecuteScalar` (with its `Trim`) and `ExecuteDataReader` start a `powershell` process, wait with `CommandTimeoutSeconds * 1000` as the budget, inspect the exit code and hand back the redirected output. That is process I/O. The reader takes the output as its sequence of lines instead, and `CommandTimeoutSeconds` is only stored, because only `Execute` reads it.
- `ExecuteStreamAsync` is used by the stream tests but is defined in none of the modelled files. It is also asynchronous callback I/O.
- `ParameterQuoteOptions` and the parameter tests that use it are left out. No modelled code refers to the enum. The tests expect a two-argument constructor and double-quoted output, which `PowerShellParameter` (PowerShellClient/PowerShellParameter.cs:5-22) does not have.
- `StreamReader`'s splitting of the byte stream into lines and its encoding are not modelled. The lines are given.
- `EndOfStream` is the position reaching the end of the given lines. A `ReadLine()` at end of stream, for the partition line, returns null and changes nothing.
- `Dispose` only releases the stream; there is no logic to model.
- Null values are left out, because `Value.GetType()` on null would throw before formatting. The culture-dependent `ToString()` of numbers and other objects is modelled as the given `Other(text)`.
- `Other(text)` is the text `Value.ToString()` returns when the command string is built. The source keeps the object reference and calls `ToString()` only in `GetCommandString` (PowerShellClient/PowerShellParameter.cs:20, PowerShellClient/PowerShellCommand.cs:75). So a value object changed after it was added, through a shared reference, or a culture change between adding and building, is not modelled.
- Split on `' '` separates at the space character only. Tabs and other white space are ordinary characters, as in .NET.
- The three-host scenario of the data reader test is covered by the lemmas for any table with leading and trailing blank lines. No lemma checks it on the interpreter's concrete text.
- Null arguments other than parameter values are left out. A null column name makes the dictionary lookup throw `ArgumentNullException`, `new StringBuilder(null)` starts from the empty string, and a null name formats as `- ` followed by the value. Strings here are never null.
- Dafny's `char` is a Unicode scalar value, while C#'s is a UTF-16 code unit. So for text outside the Basic Multilingual Plane, the lengths in `CommandStringLength`, `SpacedLength` and `StringIsQuoted` count characters, not the code units that `string.Length` counts.
