/**
  What the table reader promises over whole inputs: how the first `Read()`
  finds the header, how later calls advance, and what a caller sees when the
  input is a table of a header, a partition line and rows.
 */
module DataReaderProperties {
  import opened Tokenize
  import opened DataReader

  /** The state after `n` calls of `Read()` from `st`, whatever each returned. */
  function Reads(lines: seq<string>, st: ReaderState, n: nat): (r: ReaderState)
    requires st.pos <= |lines|
    ensures st.pos <= r.pos <= |lines|
    decreases n
  {
    if n == 0 then st else ReadStep(lines, Reads(lines, st, n - 1)).0
  }

  /** The first `Read()` fails for lack of output exactly when every remaining line is blank. */
  lemma FirstReadNoOutput(lines: seq<string>, st: ReaderState)
    requires st.pos <= |lines| && st.columnNameMap.None?
    ensures ReadStep(lines, st).1 == Err(NoOutput) <==>
      forall j :: st.pos <= j < |lines| ==> IsBlank(lines[j])
  {
    var k := HeaderIndex(lines, st.pos);
    HeaderIndexIsFirst(lines, st.pos);
    forall j | st.pos <= j < |lines| {
      TokensEmptyIffBlank(lines[j]);
    }
    if k < |lines| {
      assert !IsBlank(lines[k]);
    }
  }

  /** The first `Read()` fails on a repeated column name exactly when the header repeats one. */
  lemma FirstReadDuplicate(lines: seq<string>, st: ReaderState)
    requires st.pos <= |lines| && st.columnNameMap.None?
    ensures var k := HeaderIndex(lines, st.pos);
      (ReadStep(lines, st).1.Err? && ReadStep(lines, st).1.error.DuplicateColumn?) <==>
      (k < |lines| && !Distinct(Tokens(lines[k])))
  {
    var k := HeaderIndex(lines, st.pos);
    if k < |lines| {
      DistinctOrDuplicate(Tokens(lines[k]));
    }
  }

  /**
    A first `Read()` that succeeds skipped only blank lines, took the first
    non-blank line as the header, mapped each column name to its position,
    discarded one line and then read at most one row.
   */
  lemma FirstReadHeader(lines: seq<string>, st: ReaderState)
    requires st.pos <= |lines| && st.columnNameMap.None?
    requires ReadStep(lines, st).1.Ok?
    ensures var k := HeaderIndex(lines, st.pos);
      var (st', r) := ReadStep(lines, st);
      k < |lines| &&
      (forall j :: st.pos <= j < k ==> IsBlank(lines[j])) && !IsBlank(lines[k]) &&
      st'.columnNameMap.Some? &&
      (forall x :: x in st'.columnNameMap.value <==> x in Tokens(lines[k])) &&
      (forall i :: 0 <= i < |Tokens(lines[k])| ==> st'.columnNameMap.value[Tokens(lines[k])[i]] == i) &&
      (if k + 2 < |lines|
       then st'.pos == k + 3 && st'.currentRow == Some(Tokens(lines[k + 2])) && r == Ok(!IsBlank(lines[k + 2]))
       else st'.pos == |lines| && st'.currentRow == st.currentRow && r == Ok(false))
  {
    var k := HeaderIndex(lines, st.pos);
    HeaderIndexIsFirst(lines, st.pos);
    FirstReadNoOutput(lines, st);
    forall j | st.pos <= j <= k && j < |lines| {
      TokensEmptyIffBlank(lines[j]);
    }
    var names := Tokens(lines[k]);
    DistinctOrDuplicate(names);
    IndexMapKeys(names);
    IndexMapPositions(names);
    if k + 2 < |lines| {
      TokensEmptyIffBlank(lines[k + 2]);
    }
  }

  /**
    Once the header is known, `Read()` never throws, keeps the column map and
    consumes at most one line: at end of stream it returns false and changes
    nothing; otherwise the next line's tokens become the row, and it returns
    true exactly when that line is not blank.
   */
  lemma LaterRead(lines: seq<string>, st: ReaderState)
    requires st.pos <= |lines| && st.columnNameMap.Some?
    ensures var (st', r) := ReadStep(lines, st);
      r.Ok? && st'.columnNameMap == st.columnNameMap && st'.pos <= st.pos + 1 &&
      (st.pos == |lines| ==> st' == st && r == Ok(false)) &&
      (st.pos < |lines| ==>
        st'.pos == st.pos + 1 && st'.currentRow == Some(Tokens(lines[st.pos])) &&
        (r == Ok(true) <==> !IsBlank(lines[st.pos])))
  {
    if st.pos < |lines| {
      TokensEmptyIffBlank(lines[st.pos]);
    }
  }

  /** A blank line ends the rows: `Read()` returns false and the current row becomes empty. */
  lemma BlankLineEmptiesRow(lines: seq<string>, st: ReaderState)
    requires st.pos < |lines| && st.columnNameMap.Some? && IsBlank(lines[st.pos])
    ensures ReadStep(lines, st) == (st.(pos := st.pos + 1, currentRow := Some([])), Ok(false))
  {
    TokensEmptyIffBlank(lines[st.pos]);
  }

  /** Either the names are all different or the search for a repeat stops inside them. */
  lemma DistinctOrDuplicate(names: seq<string>)
    ensures Distinct(names) <==> FirstDuplicate(names) == |names|
  {
    var j := FirstDuplicate(names);
    FirstDuplicateIsFirst(names);
    if j < |names| {
      var q :| 0 <= q < j && names[..j][q] == names[j];
      assert names[q] == names[j];
    } else {
      assert names[..j] == names;
    }
  }

  /**
    The table output the reader is written for: leading blank lines, the
    header line, the partition line of dashes, one line per row, and the
    blank lines the interpreter writes after the table.
   */
  datatype Table = Table(
    blanks: seq<string>,
    header: string,
    partition: string,
    rows: seq<string>,
    trailing: seq<string>)

  /** The header's column names are distinct, the rows are not blank and the lines around them are. */
  predicate IsTable(t: Table) {
    (forall i :: 0 <= i < |t.blanks| ==> IsBlank(t.blanks[i])) &&
    !IsBlank(t.header) && Distinct(Tokens(t.header)) &&
    (forall i :: 0 <= i < |t.rows| ==> !IsBlank(t.rows[i])) &&
    (forall i :: 0 <= i < |t.trailing| ==> IsBlank(t.trailing[i]))
  }

  function TableLines(t: Table): seq<string>
  {
    t.blanks + [t.header, t.partition] + t.rows + t.trailing
  }

  /** On a table the header is the first line after the leading blank lines. */
  lemma TableHeaderIndex(t: Table)
    requires IsTable(t)
    ensures HeaderIndex(TableLines(t), 0) == |t.blanks|
  {
    var lines := TableLines(t);
    var k := HeaderIndex(lines, 0);
    HeaderIndexIsFirst(lines, 0);
    assert lines[|t.blanks|] == t.header;
    TokensEmptyIffBlank(t.header);
    if k < |t.blanks| {
      assert lines[k] == t.blanks[k];
      TokensEmptyIffBlank(t.blanks[k]);
    }
  }

  /** Where the reader stands after reading row `i - 1` of a table, `i >= 1`. */
  function OnRow(t: Table, i: nat): ReaderState
    requires 1 <= i <= |t.rows|
  {
    ReaderState(|t.blanks| + 2 + i, Some(IndexMap(Tokens(t.header))), Some(Tokens(t.rows[i - 1])))
  }

  /**
    Where the reader stands after the read that follows the last row: one
    blank line further on, with an empty row, or still at the end of the
    stream when nothing follows the rows.
   */
  function AfterRows(t: Table): ReaderState
  {
    var n := |t.blanks| + 2 + |t.rows|;
    var m := Some(IndexMap(Tokens(t.header)));
    if t.trailing != [] then ReaderState(n + 1, m, Some([]))
    else if t.rows == [] then ReaderState(n, m, None)
    else ReaderState(n, m, Some(Tokens(t.rows[|t.rows| - 1])))
  }

  /**
    The first `Read()` of a table parses the header and discards the partition
    line; it then returns true and stands on the first row, or, when there are
    no rows, returns false.
   */
  lemma TableFirstRead(t: Table)
    requires IsTable(t)
    ensures ReadStep(TableLines(t), Initial) ==
      if |t.rows| == 0 then (AfterRows(t), Ok(false))
      else (OnRow(t, 1), Ok(true))
  {
    var lines := TableLines(t);
    var b := |t.blanks|;
    TableHeaderIndex(t);
    DistinctOrDuplicate(Tokens(t.header));
    assert lines[b] == t.header;
    if 0 < |t.rows| {
      assert lines[b + 2] == t.rows[0];
      TokensEmptyIffBlank(t.rows[0]);
    } else if t.trailing != [] {
      assert lines[b + 2] == t.trailing[0];
      TokensEmptyIffBlank(t.trailing[0]);
    } else {
      assert |lines| == b + 2;
    }
  }

  /**
    Standing on row `i - 1` of a table, `Read()` moves to row `i` and returns
    true; after the last row it returns false, reading a blank line into an
    empty row, or changing nothing at end of stream.
   */
  lemma TableNextRead(t: Table, i: nat)
    requires IsTable(t)
    requires 1 <= i <= |t.rows|
    ensures ReadStep(TableLines(t), OnRow(t, i)) ==
      if i < |t.rows| then (OnRow(t, i + 1), Ok(true))
      else (AfterRows(t), Ok(false))
  {
    var lines := TableLines(t);
    var p := |t.blanks| + 2 + i;
    if i < |t.rows| {
      assert lines[p] == t.rows[i];
      TokensEmptyIffBlank(t.rows[i]);
    } else if t.trailing != [] {
      assert lines[p] == t.trailing[0];
      TokensEmptyIffBlank(t.trailing[0]);
    } else {
      assert |lines| == p;
    }
  }

  /** After `i` reads of a table, `1 <= i <= |rows|`, the reader stands on row `i - 1`. */
  lemma TableReads(t: Table, i: nat)
    requires IsTable(t)
    requires 1 <= i <= |t.rows|
    ensures Reads(TableLines(t), Initial, i) == OnRow(t, i)
  {
    var lines := TableLines(t);
    var f := (j: nat) => if 1 <= j <= |t.rows| then OnRow(t, j) else Initial;
    forall j | 1 <= j < |t.rows|
      ensures f(j).pos <= |lines| && ReadStep(lines, f(j)).0 == f(j + 1)
    {
      assert f(j) == OnRow(t, j) && f(j + 1) == OnRow(t, j + 1);
      TableRowStep(t, j);
    }
    TableReadOne(t);
    ReadsAlong(lines, f, i);
  }

  lemma TableReadOne(t: Table)
    requires IsTable(t) && 1 <= |t.rows|
    ensures Reads(TableLines(t), Initial, 1) == OnRow(t, 1)
  {
    TableFirstRead(t);
    assert Reads(TableLines(t), Initial, 0) == Initial;
  }

  lemma TableRowStep(t: Table, j: nat)
    requires IsTable(t) && 1 <= j < |t.rows|
    ensures OnRow(t, j).pos <= |TableLines(t)| && ReadStep(TableLines(t), OnRow(t, j)).0 == OnRow(t, j + 1)
  {
    TableNextRead(t, j);
  }

  /**
    If the first read lands on `f(1)` and each read from `f(j)` lands on
    `f(j + 1)`, then `j` reads land on `f(j)`.
   */
  lemma {:induction false} ReadsAlong(lines: seq<string>, f: nat -> ReaderState, n: nat)
    requires 1 <= n
    requires Reads(lines, Initial, 1) == f(1)
    requires forall j :: 1 <= j < n ==> f(j).pos <= |lines| && ReadStep(lines, f(j)).0 == f(j + 1)
    ensures Reads(lines, Initial, n) == f(n)
  {
    if n > 1 {
      ReadsAlong(lines, f, n - 1);
    }
  }

  /**
    While the reader stands on row `i - 1` of a table, `reader[c]` for the
    header's column `q` is the row's token `q`, or an out-of-range error when
    the row has fewer tokens; a name that is not a column is a key-not-found error.
   */
  lemma TableValue(t: Table, i: nat, c: string)
    requires IsTable(t)
    requires 1 <= i <= |t.rows|
    ensures var st := OnRow(t, i);
      var names, row := Tokens(t.header), Tokens(t.rows[i - 1]);
      (c !in names ==> Lookup(st, c) == Err(KeyNotFound(c))) &&
      (forall q :: 0 <= q < |names| && names[q] == c ==>
        Lookup(st, c) == if q < |row| then Ok(row[q]) else Err(IndexOutOfRange))
  {
    IndexMapKeys(Tokens(t.header));
    IndexMapPositions(Tokens(t.header));
  }

  /**
    On a table with `n` rows, `Read()` returns true `n` times, the `i`-th time
    standing on row `i - 1`, and then returns false. That last read keeps the
    column map. When blank lines follow the table it reads the first of them
    and the current row becomes empty; otherwise it stops at end of stream,
    changing nothing when there was a row.
   */
  lemma TableReadResults(t: Table, i: nat)
    requires IsTable(t)
    requires i <= |t.rows|
    ensures var lines := TableLines(t);
      var st := Reads(lines, Initial, i);
      var st' := Reads(lines, Initial, i + 1);
      ReadStep(lines, st).1 == Ok(i < |t.rows|) &&
      (i < |t.rows| ==> st' == OnRow(t, i + 1)) &&
      (i == |t.rows| ==> st'.columnNameMap == Some(IndexMap(Tokens(t.header)))) &&
      (i == |t.rows| && t.trailing != [] ==> st'.pos == |t.blanks| + 3 + i && st'.currentRow == Some([])) &&
      (i == |t.rows| && t.trailing == [] ==> st'.pos == |lines| && (i > 0 ==> st' == st))
  {
    var lines := TableLines(t);
    assert Reads(lines, Initial, 0) == Initial;
    if i == 0 {
      TableFirstRead(t);
    } else {
      TableReads(t, i);
      TableNextRead(t, i);
    }
  }

  /** A reader asked for a field before its first `Read()` throws the invalid-operation error. */
  lemma LookupBeforeRead(c: string)
    ensures Lookup(Initial, c) == Err(NotRead)
  {
  }
}
