/**
  The table-output reader `PowerShellDataReader`: a forward-only cursor over
  the interpreter's standard output, taken as its sequence of lines.

  The first `Read()` skips blank lines, takes the first line with tokens as the
  header, maps each column name to its 0-based position and discards the next
  line (the `----` partition line). Every `Read()` then splits one more line
  into the current row. The stream is the sequence `lines` with a position;
  `EndOfStream` is `pos == |lines|`. A .NET `null` field is `None`.
 */
module DataReader {
  import opened Tokenize

  datatype Option<T> = None | Some(value: T)

  /** The exceptions the reader raises, one constructor per throw site. */
  datatype ReaderError =
    | NoOutput                       // PowerShellException: "Command ran successfully but had no output."
    | DuplicateColumn(name: string)  // ArgumentException from Dictionary.Add
    | NotRead                        // InvalidOperationException: Read() not yet called
    | KeyNotFound(column: string)    // KeyNotFoundException from the dictionary indexer
    | NoCurrentRow                   // NullReferenceException: no row has been read
    | IndexOutOfRange                // IndexOutOfRangeException: row shorter than the column's index

  datatype Result<T> = Ok(value: T) | Err(error: ReaderError)

  datatype Outcome = Pass | Fail(error: ReaderError)

  /** The reader's fields: stream position, `_columnNameMap` and `_currentRow`. */
  datatype ReaderState = ReaderState(
    pos: nat,
    columnNameMap: Option<map<string, nat>>,
    currentRow: Option<seq<string>>)

  /** The state of a freshly constructed reader. */
  const Initial := ReaderState(0, None, None)

  /** No two entries of `s` are equal. */
  predicate Distinct(s: seq<string>) {
    forall i, j :: 0 <= i < j < |s| ==> s[i] != s[j]
  }

  /** The index of the first line at or after `from` that has tokens, or `|lines|` if none has. */
  function HeaderIndex(lines: seq<string>, from: nat): (k: nat)
    requires from <= |lines|
    ensures from <= k <= |lines|
    decreases |lines| - from
  {
    if from == |lines| then from
    else if Tokens(lines[from]) != [] then from
    else HeaderIndex(lines, from + 1)
  }

  /** The header search skips exactly the lines without tokens before the first line with some. */
  lemma {:induction false} HeaderIndexIsFirst(lines: seq<string>, from: nat)
    requires from <= |lines|
    ensures var k := HeaderIndex(lines, from);
      (forall j :: from <= j < k ==> Tokens(lines[j]) == []) &&
      (k < |lines| ==> Tokens(lines[k]) != [])
    decreases |lines| - from
  {
    if from < |lines| && Tokens(lines[from]) == [] {
      HeaderIndexIsFirst(lines, from + 1);
    }
  }

  /** The index of the first name that repeats an earlier one, or `|names|` if none does. */
  function FirstDuplicate(names: seq<string>): (j: nat)
    ensures j <= |names|
  {
    FirstDuplicateFrom(names, 0)
  }

  function FirstDuplicateFrom(names: seq<string>, i: nat): (j: nat)
    requires i <= |names|
    ensures i <= j <= |names|
    decreases |names| - i
  {
    if i == |names| then i
    else if names[i] in names[..i] then i
    else FirstDuplicateFrom(names, i + 1)
  }

  /** The names before the first duplicate are distinct, and the duplicate repeats one of them. */
  lemma FirstDuplicateIsFirst(names: seq<string>)
    ensures var j := FirstDuplicate(names);
      Distinct(names[..j]) && (j < |names| ==> names[j] in names[..j])
  {
    FirstDuplicateFromIsFirst(names, 0);
  }

  lemma {:induction false} FirstDuplicateFromIsFirst(names: seq<string>, i: nat)
    requires i <= |names| && Distinct(names[..i])
    ensures var j := FirstDuplicateFrom(names, i);
      Distinct(names[..j]) && (j < |names| ==> names[j] in names[..j])
    decreases |names| - i
  {
    if i < |names| && names[i] !in names[..i] {
      assert names[..i + 1] == names[..i] + [names[i]];
      FirstDuplicateFromIsFirst(names, i + 1);
    }
  }

  /** The dictionary the header loop builds, one `Add(name, position)` per name. */
  function IndexMap(names: seq<string>): map<string, nat>
    decreases |names|
  {
    if names == [] then map[]
    else IndexMap(names[..|names| - 1])[names[|names| - 1] := |names| - 1]
  }

  /** The dictionary's keys are exactly the names. */
  lemma {:induction false} IndexMapKeys(names: seq<string>)
    ensures forall x :: x in IndexMap(names) <==> x in names
    decreases |names|
  {
    if names != [] {
      var last := |names| - 1;
      IndexMapKeys(names[..last]);
      assert names == names[..last] + [names[last]];
    }
  }

  /** With distinct names, each name maps to its 0-based position. */
  lemma {:induction false} IndexMapPositions(names: seq<string>)
    requires Distinct(names)
    ensures forall i :: 0 <= i < |names| ==> names[i] in IndexMap(names) && IndexMap(names)[names[i]] == i
    decreases |names|
  {
    if names != [] {
      var last := |names| - 1;
      assert forall i :: 0 <= i < last ==> names[..last][i] == names[i];
      IndexMapPositions(names[..last]);
      IndexMapKeys(names[..last]);
    }
  }

  /** What `GetColumnNameMap` does to the state: skip blank lines, read the header, fill the map. */
  function HeaderStep(lines: seq<string>, st: ReaderState): (ReaderState, Outcome)
    requires st.pos <= |lines|
  {
    var k := HeaderIndex(lines, st.pos);
    if k == |lines| then (st.(pos := |lines|), Fail(NoOutput))
    else MapStep(st.(pos := k + 1), Tokens(lines[k]))
  }

  /** Filling the dictionary from the header's names; `Add` throws at the first repeated name. */
  function MapStep(st: ReaderState, names: seq<string>): (ReaderState, Outcome)
  {
    var j := FirstDuplicate(names);
    if j < |names| then (st.(columnNameMap := Some(IndexMap(names[..j]))), Fail(DuplicateColumn(names[j])))
    else (st.(columnNameMap := Some(IndexMap(names))), Pass)
  }

  /** What reading one row does: at end of stream nothing; otherwise the next line's tokens. */
  function RowStep(lines: seq<string>, st: ReaderState): (ReaderState, Result<bool>)
    requires st.pos <= |lines|
  {
    if st.pos < |lines| then
      var row := Tokens(lines[st.pos]);
      (st.(pos := st.pos + 1, currentRow := Some(row)), Ok(row != []))
    else
      (st, Ok(false))
  }

  /** What the first call of `Read()` does: parse the header, discard the partition line, read a row. */
  function FirstReadStep(lines: seq<string>, st: ReaderState): (r: (ReaderState, Result<bool>))
    requires st.pos <= |lines|
    ensures st.pos <= r.0.pos <= |lines|
  {
    var h := HeaderStep(lines, st);
    if h.1.Fail? then (h.0, Err(h.1.error))
    else
      // the partition line; ReadLine at end of stream returns null and changes nothing
      var p := if h.0.pos < |lines| then h.0.pos + 1 else h.0.pos;
      RowStep(lines, h.0.(pos := p))
  }

  /** What one call of `Read()` does to the state, and what it returns or throws. */
  function ReadStep(lines: seq<string>, st: ReaderState): (r: (ReaderState, Result<bool>))
    requires st.pos <= |lines|
    ensures st.pos <= r.0.pos <= |lines|
  {
    if st.columnNameMap.None? then FirstReadStep(lines, st) else RowStep(lines, st)
  }

  /** What `reader[column]` returns or throws in a given state. */
  function Lookup(st: ReaderState, column: string): Result<string>
  {
    if st.columnNameMap.None? then Err(NotRead)
    else if column !in st.columnNameMap.value then Err(KeyNotFound(column))
    else if st.currentRow.None? then Err(NoCurrentRow)
    else if st.columnNameMap.value[column] >= |st.currentRow.value| then Err(IndexOutOfRange)
    else Ok(st.currentRow.value[st.columnNameMap.value[column]])
  }

  /** A name that repeats an earlier one is where the first duplicate is. */
  lemma NotDistinctAt(names: seq<string>, i: nat, j: nat)
    requires i <= j <= |names| && i < |names|
    requires Distinct(names[..j]) && names[i] in names[..i]
    ensures i == j
  {
  }

  class PowerShellDataReader {
    /** The lines the stream will yield, from the first. */
    const lines: seq<string>
    /** How many lines have been read from the stream. */
    var pos: nat
    var columnNameMap: Option<map<string, nat>>
    var currentRow: Option<seq<string>>

    ghost predicate Valid()
      reads this
    {
      pos <= |lines|
    }

    function State(): ReaderState
      reads this
    {
      ReaderState(pos, columnNameMap, currentRow)
    }

    constructor (lines: seq<string>)
      ensures Valid()
      ensures this.lines == lines && State() == Initial
    {
      this.lines := lines;
      pos := 0;
      columnNameMap := None;
      currentRow := None;
    }

    /** Advances to the next row; `Ok(b)` is the return value, `Err(e)` the exception thrown. */
    method Read() returns (r: Result<bool>)
      requires Valid()
      modifies this
      ensures Valid()
      ensures (State(), r) == ReadStep(lines, old(State()))
    {
      if columnNameMap.None? {
        var o := GetColumnNameMap();
        if o.Fail? {
          return Err(o.error);
        }
        // Discard the partition line.
        if pos < |lines| {
          pos := pos + 1;
        }
      }
      if pos < |lines| {
        var row := Tokens(lines[pos]);
        pos := pos + 1;
        currentRow := Some(row);
        r := Ok(|row| != 0);
      } else {
        r := Ok(false);
      }
    }

    /** Skips blank lines, then maps each header name to its position. */
    method GetColumnNameMap() returns (o: Outcome)
      requires Valid()
      modifies this`pos, this`columnNameMap
      ensures Valid()
      ensures (State(), o) == HeaderStep(lines, old(State()))
    {
      ghost var st := old(State());
      ghost var k := HeaderIndex(lines, pos);
      var columnNames: Option<seq<string>> := None;
      while columnNames.None? && pos < |lines|
        invariant old(pos) <= pos <= |lines|
        invariant columnNames.None? ==> k == HeaderIndex(lines, pos)
        invariant columnNames.Some? ==> 0 < pos && k == pos - 1 && columnNames.value == Tokens(lines[k])
        invariant columnNameMap == old(columnNameMap)
        decreases |lines| - pos, columnNames.None?
      {
        var t := Tokens(lines[pos]);
        pos := pos + 1;
        columnNames := if |t| == 0 then None else Some(t);
      }

      if columnNames.None? {
        assert State() == st.(pos := |lines|);
        return Fail(NoOutput);
      }

      assert HeaderStep(lines, st) == MapStep(st.(pos := k + 1), columnNames.value);
      o := AddColumns(columnNames.value);
    }

    /** The loop of `GetColumnNameMap` that adds each header name with its position. */
    method AddColumns(names: seq<string>) returns (o: Outcome)
      modifies this`columnNameMap
      ensures (State(), o) == MapStep(old(State()), names)
    {
      ghost var st := old(State());
      ghost var j := FirstDuplicate(names);
      FirstDuplicateIsFirst(names);
      columnNameMap := Some(map[]);
      for i := 0 to |names|
        invariant i <= j
        invariant columnNameMap == Some(IndexMap(names[..i]))
      {
        IndexMapKeys(names[..i]);
        if names[i] in columnNameMap.value {
          NotDistinctAt(names, i, j);
          assert State() == st.(columnNameMap := Some(IndexMap(names[..j])));
          return Fail(DuplicateColumn(names[i]));
        }
        assert names[..i + 1][..i] == names[..i];
        columnNameMap := Some(columnNameMap.value[names[i] := i]);
      }
      assert names[..|names|] == names;
      assert State() == st.(columnNameMap := Some(IndexMap(names)));
      o := Pass;
    }

    /** The indexer `reader[column]`: the current row's token at the column's position. */
    method GetValue(column: string) returns (r: Result<string>)
      ensures r.Ok? <==>
        columnNameMap.Some? && column in columnNameMap.value && currentRow.Some? &&
        columnNameMap.value[column] < |currentRow.value|
      ensures r.Ok? ==> r.value == currentRow.value[columnNameMap.value[column]]
      ensures columnNameMap.None? ==> r == Err(NotRead)
      ensures columnNameMap.Some? && column !in columnNameMap.value ==> r == Err(KeyNotFound(column))
      ensures columnNameMap.Some? && column in columnNameMap.value && currentRow.None? ==> r == Err(NoCurrentRow)
      ensures (columnNameMap.Some? && column in columnNameMap.value && currentRow.Some? &&
               columnNameMap.value[column] >= |currentRow.value|) ==> r == Err(IndexOutOfRange)
      ensures r == Lookup(State(), column)
    {
      if columnNameMap.None? {
        return Err(NotRead);
      }
      var m := columnNameMap.value;
      if column !in m {
        return Err(KeyNotFound(column));
      }
      if currentRow.None? {
        return Err(NoCurrentRow);
      }
      var row := currentRow.value;
      if m[column] >= |row| {
        return Err(IndexOutOfRange);
      }
      r := Ok(row[m[column]]);
    }
  }
}
