/** The query result adapters (lib/dba.js:87-164). The engine's row iterator
    is the sequence of rows it would produce; a generator adapter is modelled
    by what it yields when it is consumed to the end. */
module ResultAdapters {
  import opened Common

  /** `limit(n, iterator)`: yields the first n elements. The loop pulls an
      element before it compares the count with n, so when the source is
      longer than n it is advanced one element past the last one yielded;
      `pulled` counts the elements taken from the source. */
  method Limit<T>(n: int, source: seq<T>) returns (r: seq<T>, pulled: nat)
    ensures |r| == if n <= 0 then 0 else if n < |source| then n else |source|
    ensures r == source[..|r|]
    ensures pulled == if |r| < |source| then |r| + 1 else |source|
  {
    var count := 0;
    r := [];
    pulled := 0;
    while pulled < |source|
      invariant pulled <= |source|
      invariant count == pulled == |r|
      invariant r == source[..pulled]
      invariant count == 0 || count <= n
    {
      var x := source[pulled];
      pulled := pulled + 1;
      if count >= n {
        return;
      }
      count := count + 1;
      r := r + [x];
    }
  }

  /** `first_row`: the first row, or nothing for an empty result. */
  function FirstRow(rows: seq<Row>): (r: Option<Row>)
    ensures r.None? <==> rows == []
    ensures r.Some? ==> r.value == rows[0]
  {
    if rows == [] then None else Some(rows[0])
  }

  /** `single_row`: like `first_row`, but an empty result raises µ33833. */
  function SingleRow(rows: seq<Row>): (r: Result<Row>)
    ensures r.Err? <==> rows == []
    ensures r.Err? ==> r.error == EmptyResult
    ensures r.Ok? ==> FirstRow(rows) == Some(r.value)
  {
    match FirstRow(rows)
    case None => Err(EmptyResult)
    case Some(row) => Ok(row)
  }

  /** The value a `for (key in row) return row[key]` loop returns. */
  function FirstValueOf(row: Row): Option<Value> {
    if row == [] then None else Some(row[0].1)
  }

  /** `first_value`: the first column of the first row; nothing when there
      is no row (a `for ... in` over undefined runs no iteration). */
  function FirstValue(rows: seq<Row>): Option<Value> {
    match FirstRow(rows)
    case None => None
    case Some(row) => FirstValueOf(row)
  }

  /** `single_value`: the first column of the single row; µ33833 when there is no row. */
  function SingleValue(rows: seq<Row>): Result<Option<Value>> {
    match SingleRow(rows)
    case Err(e) => Err(e)
    case Ok(row) => Ok(FirstValueOf(row))
  }

  /** The rows that have at least one column, in order. */
  function NonEmptyRows(rows: seq<Row>): (r: seq<Row>)
    ensures |r| <= |rows|
    ensures forall i :: 0 <= i < |r| ==> r[i] != []
    decreases |rows|
  {
    if rows == [] then []
    else (if rows[0] == [] then [] else [rows[0]]) + NonEmptyRows(rows[1..])
  }

  /** `all_first_values`: the first value of each row (the inner loop breaks
      after one key), rows without columns contributing nothing. */
  function AllFirstValues(rows: seq<Row>): (r: seq<Value>)
    ensures |r| == |NonEmptyRows(rows)|
    ensures forall i :: 0 <= i < |r| ==> r[i] == NonEmptyRows(rows)[i][0].1
    decreases |rows|
  {
    if rows == [] then []
    else (if rows[0] == [] then [] else [rows[0][0].1]) + AllFirstValues(rows[1..])
  }

  /** The values of one row, in column order. */
  function RowValues(row: Row): (r: seq<Value>)
    ensures |r| == |row|
    ensures forall i :: 0 <= i < |row| ==> r[i] == row[i].1
  {
    seq(|row|, i requires 0 <= i < |row| => row[i].1)
  }

  /** The number of values in all rows together. */
  function Width(rows: seq<Row>): nat
    decreases |rows|
  {
    if rows == [] then 0 else |rows[0]| + Width(rows[1..])
  }

  /** `first_values`: despite its name it has no `break`, so it yields every
      value of every row, row by row. */
  function FirstValues(rows: seq<Row>): (r: seq<Value>)
    ensures |r| == Width(rows)
    decreases |rows|
  {
    if rows == [] then [] else RowValues(rows[0]) + FirstValues(rows[1..])
  }

  /** `list`: the spread `[...iterator]` collects every element, in order. */
  method List<T>(source: seq<T>) returns (r: seq<T>)
    ensures r == source
  {
    r := [];
    var i := 0;
    while i < |source|
      invariant i <= |source|
      invariant r == source[..i]
    {
      r := r + [source[i]];
      i := i + 1;
    }
  }

  /** `single_value` agrees with `first_value` whenever there is a row, and
      raises µ33833 exactly when `first_value` finds no row. */
  lemma SingleValueAgreesWithFirstValue(rows: seq<Row>)
    ensures rows == [] ==> SingleValue(rows) == Err(EmptyResult) && FirstValue(rows) == None
    ensures rows != [] ==> SingleValue(rows) == Ok(FirstValue(rows))
  {
  }

  /** `first_value` is the head of `all_first_values` when the first row has
      a column, and absent exactly when there is no row or the first row is empty. */
  lemma {:induction false} FirstValueHeadsAllFirstValues(rows: seq<Row>)
    ensures FirstValue(rows).Some? <==> rows != [] && rows[0] != []
    ensures FirstValue(rows).Some? ==> AllFirstValues(rows) != [] && AllFirstValues(rows)[0] == FirstValue(rows).value
  {
    if rows != [] && rows[0] != [] {
      assert NonEmptyRows(rows)[0] == rows[0];
    }
  }

  /** On single-column results `first_values` and `all_first_values` agree. */
  lemma {:induction false} FirstValuesOfSingleColumns(rows: seq<Row>)
    requires forall i :: 0 <= i < |rows| ==> |rows[i]| == 1
    ensures FirstValues(rows) == AllFirstValues(rows)
    decreases |rows|
  {
    if rows != [] {
      FirstValuesOfSingleColumns(rows[1..]);
      assert RowValues(rows[0]) == [rows[0][0].1];
    }
  }

  lemma {:induction false} WidthCoversNonEmptyRows(rows: seq<Row>)
    ensures Width(rows) >= |NonEmptyRows(rows)|
    ensures (exists i :: 0 <= i < |rows| && |rows[i]| >= 2) ==> Width(rows) > |NonEmptyRows(rows)|
    decreases |rows|
  {
    if rows != [] {
      WidthCoversNonEmptyRows(rows[1..]);
      if exists i :: 0 <= i < |rows| && |rows[i]| >= 2 {
        var i :| 0 <= i < |rows| && |rows[i]| >= 2;
        if i > 0 {
          assert rows[1..][i - 1] == rows[i];
        }
      }
    }
  }

  /** As soon as one row has two columns, `first_values` yields more than
      `all_first_values`: it is not a lazy form of it. */
  lemma FirstValuesDifferOnWideRows(rows: seq<Row>)
    requires exists i :: 0 <= i < |rows| && |rows[i]| >= 2
    ensures |FirstValues(rows)| > |AllFirstValues(rows)|
  {
    WidthCoversNonEmptyRows(rows);
  }
}
