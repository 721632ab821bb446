/** Rows of a sparse matrix as values: what summing duplicates and writing out a dense
    row mean, and why the second is right only after the first. */
module CsrRows {

  datatype Cell = Cell(col: nat, value: real)

  type Row = seq<Cell>

  // ---------- meaning of a row

  /** The dense value of a column: the sum of all its cells. */
  function ColumnSum(row: Row, c: nat): real {
    if row == [] then 0.0
    else ColumnSum(row[..|row| - 1], c) + (if row[|row| - 1].col == c then row[|row| - 1].value else 0.0)
  }

  function Columns(row: Row): set<nat> {
    set x | x in row :: x.col
  }

  ghost predicate Canonical(row: Row) {
    forall i, j :: 0 <= i < j < |row| ==> row[i].col < row[j].col
  }

  ghost predicate InRange(row: Row, n: nat) {
    forall x :: x in row ==> x.col < n
  }

  // ---------- summing duplicates

  /** Adds a value to a column of a row kept in column order. */
  function AddTo(row: Row, x: Cell): (r: Row)
    ensures r != []
  {
    if row == [] then [x]
    else if x.col < row[0].col then [x] + row
    else if x.col == row[0].col then [Cell(x.col, row[0].value + x.value)] + row[1..]
    else [row[0]] + AddTo(row[1..], x)
  }

  function SumRow(row: Row): Row {
    if row == [] then [] else AddTo(SumRow(row[..|row| - 1]), row[|row| - 1])
  }

  lemma {:induction false} ColumnSumConcat(a: Row, b: Row, c: nat)
    ensures ColumnSum(a + b, c) == ColumnSum(a, c) + ColumnSum(b, c)
  {
    if b == [] {
      assert a + b == a;
    } else {
      var n := |b| - 1;
      assert (a + b)[..|a| + n] == a + b[..n];
      ColumnSumConcat(a, b[..n], c);
    }
  }

  lemma ColumnSumCons(x: Cell, row: Row, c: nat)
    ensures ColumnSum([x] + row, c) == (if x.col == c then x.value else 0.0) + ColumnSum(row, c)
  {
    ColumnSumConcat([x], row, c);
    assert [x][..0] == [];
  }

  lemma ColumnsCons(x: Cell, row: Row)
    ensures Columns([x] + row) == {x.col} + Columns(row)
  {
    forall c ensures c in Columns([x] + row) <==> c in {x.col} + Columns(row) {
      if c in Columns(row) {
        var y :| y in row && y.col == c;
        assert y in [x] + row;
      }
      assert x in [x] + row;
    }
  }

  lemma ColumnsSnoc(row: Row)
    requires row != []
    ensures Columns(row) == Columns(row[..|row| - 1]) + {row[|row| - 1].col}
  {
    var n := |row| - 1;
    assert forall x :: x in row <==> x in row[..n] || x == row[n];
    assert row[n] in row;
  }

  lemma CanonicalCons(x: Cell, row: Row)
    requires Canonical(row)
    requires row != [] ==> x.col < row[0].col
    ensures Canonical([x] + row)
    ensures x.col !in Columns(row)
  {}

  lemma ColumnSumSnoc(row: Row, x: Cell, c: nat)
    ensures ColumnSum(row + [x], c) == ColumnSum(row, c) + (if x.col == c then x.value else 0.0)
  {
    assert (row + [x])[..|row|] == row;
  }

  lemma {:induction false} AddToColumns(row: Row, x: Cell)
    ensures Columns(AddTo(row, x)) == Columns(row) + {x.col}
  {
    if row == [] {
      ColumnsCons(x, []);
      assert [x] + [] == [x];
    } else {
      assert row == [row[0]] + row[1..];
      ColumnsCons(row[0], row[1..]);
      if x.col < row[0].col {
        ColumnsCons(x, row);
      } else if x.col == row[0].col {
        ColumnsCons(Cell(x.col, row[0].value + x.value), row[1..]);
      } else {
        AddToColumns(row[1..], x);
        ColumnsCons(row[0], AddTo(row[1..], x));
      }
    }
  }

  lemma {:induction false} AddToCanonical(row: Row, x: Cell)
    requires Canonical(row)
    ensures Canonical(AddTo(row, x))
    ensures AddTo(row, x)[0].col == (if row == [] || x.col < row[0].col then x.col else row[0].col)
  {
    if row == [] || x.col <= row[0].col {
    } else {
      AddToCanonical(row[1..], x);
      CanonicalCons(row[0], AddTo(row[1..], x));
    }
  }

  lemma {:induction false} AddToSum(row: Row, x: Cell, c: nat)
    ensures ColumnSum(AddTo(row, x), c) == ColumnSum(row, c) + (if x.col == c then x.value else 0.0)
  {
    if row == [] {
      ColumnSumCons(x, [], c);
      assert [x] + [] == [x];
    } else {
      var tail := row[1..];
      assert row == [row[0]] + tail;
      ColumnSumCons(row[0], tail, c);
      ColumnSumCons(x, row, c);
      ColumnSumCons(Cell(x.col, row[0].value + x.value), tail, c);
      if x.col > row[0].col {
        AddToSum(tail, x, c);
        ColumnSumCons(row[0], AddTo(tail, x), c);
      }
    }
  }

  /** Summing duplicates gives strictly increasing columns, exactly those that occurred. */
  lemma {:induction false} SumRowCanonical(row: Row)
    ensures Canonical(SumRow(row))
    ensures Columns(SumRow(row)) == Columns(row)
  {
    if row == [] {
    } else {
      var n := |row| - 1;
      SumRowCanonical(row[..n]);
      AddToCanonical(SumRow(row[..n]), row[n]);
      AddToColumns(SumRow(row[..n]), row[n]);
      ColumnsSnoc(row);
    }
  }

  /** And keeps the sum of every column. */
  lemma {:induction false} SumRowKeepsSums(row: Row, c: nat)
    ensures ColumnSum(SumRow(row), c) == ColumnSum(row, c)
  {
    if row == [] {
    } else {
      var n := |row| - 1;
      SumRowKeepsSums(row[..n], c);
      AddToSum(SumRow(row[..n]), row[n], c);
    }
  }

  lemma SumRowInRange(row: Row, n: nat)
    requires InRange(row, n)
    ensures InRange(SumRow(row), n)
  {
    SumRowCanonical(row);
    forall x | x in SumRow(row) ensures x.col < n {
      assert x.col in Columns(SumRow(row));
    }
  }

  // ---------- a canonical row is determined by its columns and sums

  lemma {:induction false} AbsentColumn(row: Row, c: nat)
    requires c !in Columns(row)
    ensures ColumnSum(row, c) == 0.0
  {
    if row == [] {
    } else {
      var n := |row| - 1;
      assert row[n] in row;
      assert forall x :: x in row[..n] ==> x in row;
      AbsentColumn(row[..n], c);
    }
  }

  lemma CanonicalValue(row: Row, i: nat)
    requires Canonical(row) && i < |row|
    ensures ColumnSum(row, row[i].col) == row[i].value
  {
    var c := row[i].col;
    var a, b := row[..i], row[i + 1..];
    assert row == a + ([row[i]] + b);
    ColumnSumConcat(a, [row[i]] + b, c);
    ColumnSumCons(row[i], b, c);
    AbsentColumn(a, c);
    AbsentColumn(b, c);
  }

  lemma {:induction false} CanonicalUnique(a: Row, b: Row)
    requires Canonical(a) && Canonical(b)
    requires Columns(a) == Columns(b)
    requires forall c :: c in Columns(a) ==> ColumnSum(a, c) == ColumnSum(b, c)
    ensures a == b
  {
    if a == [] || b == [] {
      assert a != [] ==> a[0].col in Columns(a);
      assert b != [] ==> b[0].col in Columns(b);
    } else {
      SameFirst(a, b);
      SplitFirst(a);
      SplitFirst(b);
      forall c | c in Columns(a[1..]) ensures ColumnSum(a[1..], c) == ColumnSum(b[1..], c) {
        ColumnSumCons(a[0], a[1..], c);
        ColumnSumCons(b[0], b[1..], c);
      }
      CanonicalUnique(a[1..], b[1..]);
    }
  }

  lemma SplitFirst(a: Row)
    requires Canonical(a) && a != []
    ensures a == [a[0]] + a[1..]
    ensures Columns(a[1..]) == Columns(a) - {a[0].col}
    ensures forall c :: c in Columns(a) ==> a[0].col <= c
  {
    assert a == [a[0]] + a[1..];
    ColumnsCons(a[0], a[1..]);
    CanonicalCons(a[0], a[1..]);
  }

  lemma SameFirst(a: Row, b: Row)
    requires Canonical(a) && Canonical(b) && a != [] && b != []
    requires Columns(a) == Columns(b)
    requires forall c :: c in Columns(a) ==> ColumnSum(a, c) == ColumnSum(b, c)
    ensures a[0] == b[0]
  {
    assert a[0].col in Columns(a) && b[0].col in Columns(b);
    SplitFirst(a);
    SplitFirst(b);
    CanonicalValue(a, 0);
    CanonicalValue(b, 0);
  }

  /** Canonicalising twice changes nothing more. */
  lemma SumRowIdempotent(row: Row)
    ensures SumRow(SumRow(row)) == SumRow(row)
  {
    var s := SumRow(row);
    SumRowCanonical(row);
    SumRowCanonical(s);
    forall c | c in Columns(s) ensures ColumnSum(SumRow(s), c) == ColumnSum(s, c) {
      SumRowKeepsSums(s, c);
    }
    CanonicalUnique(SumRow(s), s);
  }

  // ---------- writing a row into a dense one

  function Zeros(n: nat): (z: seq<real>)
    ensures |z| == n && forall i :: 0 <= i < n ==> z[i] == 0.0
  {
    seq(n, _ => 0.0)
  }

  /** Every cell overwrites its column, in order. */
  function WriteCells(dense: seq<real>, row: Row): (d: seq<real>)
    requires InRange(row, |dense|)
    ensures |d| == |dense|
  {
    if row == [] then dense
    else
      assert row[|row| - 1] in row;
      WriteCells(dense, row[..|row| - 1])[row[|row| - 1].col := row[|row| - 1].value]
  }

  /** The dense form of a row: column sums. */
  function DenseRow(row: Row, n: nat): seq<real> {
    seq(n, c requires 0 <= c => ColumnSum(row, c))
  }

  /** No later cell of the row has the same column. */
  ghost predicate LastOfColumn(row: Row, i: nat)
    requires i < |row|
  {
    forall j :: i < j < |row| ==> row[j].col != row[i].col
  }

  lemma {:induction false} WrittenLast(dense: seq<real>, row: Row, i: nat)
    requires InRange(row, |dense|) && i < |row| && LastOfColumn(row, i)
    ensures row[i] in row && WriteCells(dense, row)[row[i].col] == row[i].value
  {
    var n := |row| - 1;
    assert row[n] in row;
    if i == n {
    } else {
      assert row[..n][i] == row[i];
      WrittenLast(dense, row[..n], i);
    }
  }

  lemma {:induction false} NeverWritten(dense: seq<real>, row: Row, c: nat)
    requires InRange(row, |dense|) && c < |dense| && c !in Columns(row)
    ensures WriteCells(dense, row)[c] == dense[c]
  {
    if row == [] {
    } else {
      var n := |row| - 1;
      assert row[n] in row;
      ColumnsSnoc(row);
      NeverWritten(dense, row[..n], c);
    }
  }

  lemma {:induction false} FindLast(row: Row, c: nat) returns (i: nat)
    requires c in Columns(row)
    ensures i < |row| && row[i].col == c && LastOfColumn(row, i)
  {
    var n := |row| - 1;
    ColumnsSnoc(row);
    if row[n].col == c {
      i := n;
    } else {
      i := FindLast(row[..n], c);
    }
  }

  lemma {:induction false} SumAtLast(row: Row, i: nat)
    requires i < |row| && LastOfColumn(row, i)
    ensures ColumnSum(row, row[i].col) == ColumnSum(row[..i], row[i].col) + row[i].value
  {
    var n := |row| - 1;
    if i == n {
    } else {
      assert row[..n][..i] == row[..i];
      SumAtLast(row[..n], i);
    }
  }

  /** Before the last cell of each column, the cells of that column cancel out. */
  ghost predicate Overwritable(row: Row) {
    forall i :: 0 <= i < |row| && LastOfColumn(row, i) ==> ColumnSum(row[..i], row[i].col) == 0.0
  }

  /** Overwriting computes the column sums of a row if and only if, in each column, nothing
      is left of the cells in front of the last one. */
  lemma OverwritingExactly(row: Row, n: nat)
    requires InRange(row, n)
    ensures WriteCells(Zeros(n), row) == DenseRow(row, n) <==> Overwritable(row)
  {
    var d := WriteCells(Zeros(n), row);
    forall i | 0 <= i < |row| && LastOfColumn(row, i)
      ensures row[i] in row
      ensures d[row[i].col] == DenseRow(row, n)[row[i].col] <==> ColumnSum(row[..i], row[i].col) == 0.0
    {
      WrittenLast(Zeros(n), row, i);
      SumAtLast(row, i);
    }
    if Overwritable(row) {
      forall c | 0 <= c < n ensures d[c] == DenseRow(row, n)[c] {
        if c in Columns(row) {
          var i := FindLast(row, c);
        } else {
          NeverWritten(Zeros(n), row, c);
          AbsentColumn(row, c);
        }
      }
    }
  }

  ghost predicate DistinctColumns(row: Row) {
    forall i, j :: 0 <= i < j < |row| ==> row[i].col != row[j].col
  }

  ghost predicate AllPositive(row: Row) {
    forall i :: 0 <= i < |row| ==> row[i].value > 0.0
  }

  lemma {:induction false} PositiveSum(row: Row, c: nat)
    requires AllPositive(row)
    ensures ColumnSum(row, c) >= 0.0
    ensures ColumnSum(row, c) == 0.0 <==> forall i :: 0 <= i < |row| ==> row[i].col != c
  {
    if row == [] {
    } else {
      var n := |row| - 1;
      PositiveSum(row[..n], c);
      assert forall i :: 0 <= i < n ==> row[..n][i] == row[i];
    }
  }

  /** In whatever order they come, distinct columns may be overwritten. */
  lemma DistinctOverwritable(row: Row)
    requires DistinctColumns(row)
    ensures Overwritable(row)
  {
    forall i | 0 <= i < |row| ensures ColumnSum(row[..i], row[i].col) == 0.0 {
      forall x | x in row[..i] ensures x.col != row[i].col {
        var k :| 0 <= k < i && row[k] == x;
      }
      AbsentColumn(row[..i], row[i].col);
    }
  }

  /** With positive values only, overwriting is right if and only if no column comes twice. */
  lemma PositiveOverwriting(row: Row, n: nat)
    requires InRange(row, n) && AllPositive(row)
    ensures WriteCells(Zeros(n), row) == DenseRow(row, n) <==> DistinctColumns(row)
  {
    OverwritingExactly(row, n);
    if DistinctColumns(row) {
      DistinctOverwritable(row);
    } else {
      var i, j :| 0 <= i < j < |row| && row[i].col == row[j].col;
      var c := row[i].col;
      assert row[i] in row;
      InColumns(row, i);
      var k := FindLast(row, c);
      assert i < k && row[..k][i] == row[i];
      PositiveSum(row[..k], c);
    }
  }

  lemma InColumns(row: Row, i: nat)
    requires i < |row|
    ensures row[i].col in Columns(row)
  {}

  /** After summing duplicates, overwriting computes the column sums of the original row. */
  lemma OverwritingIsSumming(row: Row, n: nat)
    requires InRange(row, n)
    ensures InRange(SumRow(row), n)
    ensures WriteCells(Zeros(n), SumRow(row)) == DenseRow(row, n)
  {
    var s := SumRow(row);
    SumRowCanonical(row);
    SumRowInRange(row, n);
    DistinctOverwritable(s);
    OverwritingExactly(s, n);
    forall c | 0 <= c < n ensures ColumnSum(s, c) == ColumnSum(row, c) {
      SumRowKeepsSums(row, c);
    }
  }

  /** A row on which overwriting alone goes wrong: the first cell is lost. */
  lemma OverwritingAloneIsWrong()
    ensures var row := [Cell(0, 1.0), Cell(0, 2.0)];
            WriteCells(Zeros(1), row) != DenseRow(row, 1)
  {
    var row := [Cell(0, 1.0), Cell(0, 2.0)];
    PositiveOverwriting(row, 1);
    assert row[0].col == row[1].col;
  }

  // ---------- rows laid out one after the other

  function Flat(rows: seq<Row>): Row {
    if rows == [] then [] else Flat(rows[..|rows| - 1]) + rows[|rows| - 1]
  }

  /** Where each row starts, and where the last one ends. */
  function Starts(rows: seq<Row>): (s: seq<int>)
    ensures |s| == |rows| + 1
  {
    if rows == [] then [0] else Starts(rows[..|rows| - 1]) + [|Flat(rows)|]
  }

  /** Row pointers start at 0, never decrease and end at the number of cells. */
  lemma {:induction false} StartsMonotone(rows: seq<Row>, i: nat, j: nat)
    requires i <= j <= |rows|
    ensures Starts(rows)[0] == 0 && Starts(rows)[|rows|] == |Flat(rows)|
    ensures 0 <= Starts(rows)[i] <= Starts(rows)[j] <= |Flat(rows)|
  {
    if rows == [] {
    } else {
      var n := |rows| - 1;
      StartsMonotone(rows[..n], if i <= n then i else n, if j <= n then j else n);
    }
  }

  /** Row `r` is the slice between its own start and the next one. */
  lemma {:induction false} RowSlice(rows: seq<Row>, r: nat)
    requires r < |rows|
    ensures 0 <= Starts(rows)[r] <= Starts(rows)[r + 1] <= |Flat(rows)|
    ensures Flat(rows)[Starts(rows)[r]..Starts(rows)[r + 1]] == rows[r]
  {
    var n := |rows| - 1;
    if r == n {
      StartsMonotone(rows[..n], 0, n);
    } else {
      RowSlice(rows[..n], r);
    }
  }

  lemma StartsPrefix(rows: seq<Row>, n: nat)
    requires n < |rows|
    ensures Starts(rows[..n + 1]) == Starts(rows[..n]) + [|Flat(rows[..n + 1])|]
    ensures Flat(rows[..n + 1]) == Flat(rows[..n]) + rows[n]
  {
    assert rows[..n + 1][..n] == rows[..n];
  }

  function SumRows(rows: seq<Row>): seq<Row> {
    seq(|rows|, r requires 0 <= r < |rows| => SumRow(rows[r]))
  }

  /** All dense rows, one after the other. */
  function Dense(rows: seq<Row>, n: nat): seq<real> {
    if rows == [] then []
    else Dense(rows[..|rows| - 1], n) + DenseRow(rows[|rows| - 1], n)
  }
}
