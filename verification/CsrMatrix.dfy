/** The compressed matrix the hasher hands over: three vectors, canonicalised in place
    and then written out densely. */
module CsrMatrices {
  import opened Collections
  import opened CsrRows

  function CellsOf(indices: seq<int>, data: seq<real>): Row
    requires |indices| == |data|
    requires forall i :: 0 <= i < |indices| ==> 0 <= indices[i]
  {
    seq(|indices|, i requires 0 <= i < |indices| => Cell(indices[i], data[i]))
  }

  /** The vectors hold exactly these rows, possibly followed by cells of no row. */
  ghost predicate Holds(rows: seq<Row>, indptr: seq<int>, indices: seq<int>, data: seq<real>) {
    && |indices| == |data|
    && (forall i :: 0 <= i < |indices| ==> 0 <= indices[i])
    && indptr == Starts(rows)
    && Flat(rows) <= CellsOf(indices, data)
  }

  lemma RowCell(rows: seq<Row>, indptr: seq<int>, indices: seq<int>, data: seq<real>, r: nat, k: nat)
    requires Holds(rows, indptr, indices, data)
    requires r < |rows| && k < |rows[r]|
    ensures 0 <= indptr[r] && indptr[r] + k < |indices| && indptr[r + 1] == indptr[r] + |rows[r]|
    ensures Cell(indices[indptr[r] + k], data[indptr[r] + k]) == rows[r][k]
  {
    RowSlice(rows, r);
    var cells := CellsOf(indices, data);
    assert Flat(rows)[Starts(rows)[r]..Starts(rows)[r + 1]][k] == rows[r][k];
    assert cells[indptr[r] + k] == Flat(rows)[indptr[r] + k];
  }

  lemma RowBounds(rows: seq<Row>, indptr: seq<int>, indices: seq<int>, data: seq<real>, r: nat)
    requires Holds(rows, indptr, indices, data)
    requires r < |rows|
    ensures 0 <= indptr[r] && indptr[r + 1] == indptr[r] + |rows[r]| <= |indices|
  {
    RowSlice(rows, r);
  }

  /** Inserts a cell before the first one with a larger column. */
  function Insert(row: Row, x: Cell): Row {
    if row == [] || x.col < row[0].col then [x] + row else [row[0]] + Insert(row[1..], x)
  }

  lemma {:induction false} InsertKeepsCells(row: Row, x: Cell)
    ensures multiset(Insert(row, x)) == multiset(row) + multiset{x}
  {
    if row == [] || x.col < row[0].col {
    } else {
      assert row == [row[0]] + row[1..];
      InsertKeepsCells(row[1..], x);
    }
  }

  lemma {:induction false} InsertSorted(row: Row, x: Cell)
    requires Canonical(row)
    requires forall y :: y in row ==> y.col != x.col
    ensures Canonical(Insert(row, x))
    ensures Insert(row, x) != []
    ensures Insert(row, x)[0].col == (if row == [] || x.col < row[0].col then x.col else row[0].col)
  {
    if row == [] || x.col < row[0].col {
    } else {
      assert row[0] in row;
      InsertSorted(row[1..], x);
      CanonicalCons(row[0], Insert(row[1..], x));
    }
  }

  /** std::sort by column, on cells with distinct columns. */
  method SortByColumn(cells: Row) returns (sorted: Row)
    requires forall i, j :: 0 <= i < j < |cells| ==> cells[i].col != cells[j].col
    ensures Canonical(sorted)
    ensures multiset(sorted) == multiset(cells)
  {
    sorted := [];
    assert cells[..0] == [];
    for i := 0 to |cells|
      invariant Canonical(sorted)
      invariant multiset(sorted) == multiset(cells[..i])
    {
      forall y | y in sorted ensures y.col != cells[i].col {
        assert y in multiset(cells[..i]);
      }
      assert cells[..i + 1] == cells[..i] + [cells[i]];
      InsertSorted(sorted, cells[i]);
      InsertKeepsCells(sorted, cells[i]);
      sorted := Insert(sorted, cells[i]);
    }
    assert cells[..|cells|] == cells;
  }

  /** The map that a row is accumulated into: its columns with their sums. */
  ghost predicate Accumulates(rowmap: map<int, real>, row: Row) {
    && (forall c: int :: c in rowmap ==> 0 <= c && c in Columns(row) && rowmap[c] == ColumnSum(row, c))
    && (forall c :: c in Columns(row) ==> c in rowmap)
  }

  lemma AccumulatesSnoc(rowmap: map<int, real>, row: Row, n: nat)
    requires n < |row| && Accumulates(rowmap, row[..n])
    ensures var x := row[n];
            Accumulates(rowmap[x.col := (if x.col in rowmap then rowmap[x.col] else 0.0) + x.value], row[..n + 1])
  {
    var x := row[n];
    assert row[..n + 1][..n] == row[..n];
    ColumnsSnoc(row[..n + 1]);
    if x.col !in rowmap {
      AbsentColumn(row[..n], x.col);
    }
  }

  /** The cells of the map in whatever order the hash map yields them. */
  method MapCells(rowmap: map<int, real>, ghost row: Row) returns (elems: Row)
    requires Accumulates(rowmap, row)
    ensures forall i, j :: 0 <= i < j < |elems| ==> elems[i].col != elems[j].col
    ensures forall x :: x in elems ==> x.col in Columns(row) && x.value == ColumnSum(row, x.col)
    ensures Columns(elems) == Columns(row)
  {
    elems := [];
    var keys: set<int> := rowmap.Keys;
    while keys != {}
      invariant keys <= rowmap.Keys
      invariant forall x :: x in elems ==> x.col in rowmap && x.col !in keys && x.value == rowmap[x.col]
      invariant forall c: int :: c in rowmap && c !in keys ==> c in Columns(elems)
      invariant forall i, j :: 0 <= i < j < |elems| ==> elems[i].col != elems[j].col
      decreases keys
    {
      HasMember(keys);
      var k: int :| k in keys;
      assert k in rowmap;
      ColumnsSnoc(elems + [Cell(k, rowmap[k])]);
      assert (elems + [Cell(k, rowmap[k])])[..|elems|] == elems;
      elems := elems + [Cell(k, rowmap[k])];
      keys := keys - {k};
    }
  }

  lemma SortedCellsAreSumRow(row: Row, elems: Row, sorted: Row)
    requires forall x :: x in elems ==> x.col in Columns(row) && x.value == ColumnSum(row, x.col)
    requires Columns(elems) == Columns(row)
    requires Canonical(sorted) && multiset(sorted) == multiset(elems)
    ensures sorted == SumRow(row)
  {
    assert forall x :: x in sorted <==> x in multiset(sorted);
    assert forall x :: x in elems <==> x in multiset(elems);
    assert Columns(sorted) == Columns(row);
    SumRowCanonical(row);
    forall c | c in Columns(sorted) ensures ColumnSum(sorted, c) == ColumnSum(SumRow(row), c) {
      var i :| 0 <= i < |sorted| && sorted[i].col == c;
      CanonicalValue(sorted, i);
      SumRowKeepsSums(row, c);
    }
    CanonicalUnique(sorted, SumRow(row));
  }

  class CsrMatrix {
    var nRows: nat
    var nCols: nat
    var indptr: seq<int>
    var indices: seq<int>
    var data: seq<real>

    constructor (nRows: nat, nCols: nat, indptr: seq<int>, indices: seq<int>, data: seq<real>)
      ensures this.nRows == nRows && this.nCols == nCols
      ensures this.indptr == indptr && this.indices == indices && this.data == data
    {
      this.nRows := nRows;
      this.nCols := nCols;
      this.indptr := indptr;
      this.indices := indices;
      this.data := data;
    }

    ghost predicate Is(rows: seq<Row>)
      reads this
    {
      && nRows == |rows|
      && Holds(rows, indptr, indices, data)
    }

    /** Steps 1 and 2 for one row: accumulate into a map, move to a vector, sort. */
    method CanonicalRow(r: nat, ghost rows: seq<Row>) returns (elems: Row)
      requires Is(rows) && r < nRows
      ensures elems == SumRow(rows[r])
    {
      RowBounds(rows, indptr, indices, data, r);
      ghost var row := rows[r];
      var start, end := indptr[r], indptr[r + 1];
      var rowmap: map<int, real> := map[];
      assert row[..0] == [];
      var i := start;
      while i < end
        invariant start <= i <= end
        invariant Accumulates(rowmap, row[..i - start])
      {
        RowCell(rows, indptr, indices, data, r, i - start);
        AccumulatesSnoc(rowmap, row, i - start);
        var c := indices[i];
        rowmap := rowmap[c := (if c in rowmap then rowmap[c] else 0.0) + data[i]];
        i := i + 1;
      }
      assert row[..end - start] == row;
      var unsorted := MapCells(rowmap, row);
      elems := SortByColumn(unsorted);
      SortedCellsAreSumRow(row, unsorted, elems);
    }

    /** sum_duplicates_and_sort_csr: every row is replaced by its canonical form, and the
        cells behind the last row are dropped. */
    method SumDuplicatesAndSort(ghost rows: seq<Row>)
      requires Is(rows)
      modifies this
      ensures Is(SumRows(rows))
      ensures nRows == old(nRows) && nCols == old(nCols)
      ensures |indices| == |Flat(SumRows(rows))|
    {
      var newIndices: seq<int>, newData: seq<real> := [], [];
      var newIndptr: seq<int> := [0];
      ghost var sums := SumRows(rows);
      assert sums[..0] == [];
      for r := 0 to nRows
        invariant newIndptr == Starts(sums[..r])
        invariant |newIndices| == |newData|
        invariant forall i :: 0 <= i < |newIndices| ==> 0 <= newIndices[i]
        invariant CellsOf(newIndices, newData) == Flat(sums[..r])
        invariant unchanged(this)
      {
        var elems := CanonicalRow(r, rows);
        StartsPrefix(sums, r);
        newIndices, newData := AppendCells(newIndices, newData, elems);
        newIndptr := newIndptr + [|newIndices|];
      }
      assert sums[..nRows] == sums;
      indptr, indices, data := newIndptr, newIndices, newData;
    }

    /** csr_to_dense: later cells of a column overwrite earlier ones. */
    method ToDense(ghost rows: seq<Row>) returns (out: array<real>)
      requires Is(rows)
      requires AllInRange(rows, nCols)
      ensures fresh(out) && out.Length == nRows * nCols
      ensures out[..] == Overwritten(rows, nCols)
    {
      out := new real[nRows * nCols](_ => 0.0);
      var at := 0;
      assert rows[..0] == [];
      for r := 0 to nRows
        invariant at == r * nCols <= out.Length
        invariant AllInRange(rows[..r], nCols)
        invariant out[..at] == Overwritten(rows[..r], nCols)
        invariant out[at..] == Zeros(out.Length - at)
      {
        RowFits(r, nRows, nCols);
        AddRow(out, at, r, rows);
        at := at + nCols;
      }
      assert rows[..nRows] == rows;
      assert out[..at] == out[..];
    }

    method AddRow(out: array<real>, at: nat, r: nat, ghost rows: seq<Row>)
      requires Is(rows) && r < nRows
      requires AllInRange(rows, nCols) && AllInRange(rows[..r], nCols)
      requires at + nCols <= out.Length
      requires out[..at] == Overwritten(rows[..r], nCols) && out[at..] == Zeros(out.Length - at)
      modifies out
      ensures AllInRange(rows[..r + 1], nCols)
      ensures out[..at + nCols] == Overwritten(rows[..r + 1], nCols)
      ensures out[at + nCols..] == Zeros(out.Length - at - nCols)
    {
      assert rows[r] in rows;
      FillRow(out, at, r, rows);
      OverwrittenSnoc(rows, nCols, r);
    }

    method FillRow(out: array<real>, at: nat, r: nat, ghost rows: seq<Row>)
      requires Is(rows) && r < nRows
      requires InRange(rows[r], nCols)
      requires at + nCols <= out.Length
      requires out[at..] == Zeros(out.Length - at)
      modifies out
      ensures out[..at + nCols] == old(out[..at]) + WriteCells(Zeros(nCols), rows[r])
      ensures out[at + nCols..] == Zeros(out.Length - at - nCols)
    {
      RowBounds(rows, indptr, indices, data, r);
      ghost var row := rows[r];
      var start, end := indptr[r], indptr[r + 1];
      var k := start;
      assert row[..0] == [];
      assert out[at..at + nCols] == Zeros(nCols);
      while k < end
        invariant start <= k <= end
        invariant InRange(row[..k - start], nCols)
        invariant out[..at] == old(out[..at])
        invariant out[at..at + nCols] == WriteCells(Zeros(nCols), row[..k - start])
        invariant out[at + nCols..] == Zeros(out.Length - at - nCols)
      {
        RowCell(rows, indptr, indices, data, r, k - start);
        assert row[..k - start + 1][..k - start] == row[..k - start];
        assert row[k - start] in row;
        ghost var before := out[at..at + nCols];
        out[at + indices[k]] := data[k];
        assert out[at..at + nCols] == before[indices[k] := data[k]];
        k := k + 1;
      }
      assert row[..end - start] == row;
      assert out[..at + nCols] == out[..at] + out[at..at + nCols];
    }
  }

  /** Step 3 for one row: append to the new storage. */
  method AppendCells(indices: seq<int>, data: seq<real>, elems: Row) returns (i': seq<int>, d': seq<real>)
    requires |indices| == |data|
    requires forall i :: 0 <= i < |indices| ==> 0 <= indices[i]
    ensures |i'| == |d'|
    ensures forall i :: 0 <= i < |i'| ==> 0 <= i'[i]
    ensures CellsOf(i', d') == CellsOf(indices, data) + elems
  {
    i', d' := indices, data;
    for k := 0 to |elems|
      invariant |i'| == |d'|
      invariant forall i :: 0 <= i < |i'| ==> 0 <= i'[i]
      invariant CellsOf(i', d') == CellsOf(indices, data) + elems[..k]
    {
      ghost var before := CellsOf(i', d');
      i' := i' + [elems[k].col];
      d' := d' + [elems[k].value];
      assert CellsOf(i', d') == before + [elems[k]];
      assert elems[..k + 1] == elems[..k] + [elems[k]];
    }
    assert elems[..|elems|] == elems;
  }

  ghost predicate AllInRange(rows: seq<Row>, n: nat) {
    forall row :: row in rows ==> InRange(row, n)
  }

  lemma RowFits(r: nat, rows: nat, n: nat)
    requires r < rows
    ensures (r + 1) * n == r * n + n <= rows * n
  {}

  lemma OverwrittenSnoc(rows: seq<Row>, n: nat, r: nat)
    requires AllInRange(rows, n) && r < |rows|
    ensures AllInRange(rows[..r], n) && AllInRange(rows[..r + 1], n) && InRange(rows[r], n)
    ensures Overwritten(rows[..r + 1], n) == Overwritten(rows[..r], n) + WriteCells(Zeros(n), rows[r])
  {
    assert forall row :: row in rows[..r + 1] ==> row in rows;
    assert rows[..r + 1][..r] == rows[..r];
  }

  /** What writing the rows out cell by cell leaves behind. */
  ghost function Overwritten(rows: seq<Row>, n: nat): seq<real>
    requires AllInRange(rows, n)
  {
    if rows == [] then []
    else
      assert rows[|rows| - 1] in rows;
      Overwritten(rows[..|rows| - 1], n) + WriteCells(Zeros(n), rows[|rows| - 1])
  }

  /** Canonicalise, then overwrite: the dense matrix of column sums. */
  lemma {:induction false} OverwrittenIsDense(rows: seq<Row>, n: nat)
    requires AllInRange(rows, n)
    ensures AllInRange(SumRows(rows), n)
    ensures Overwritten(SumRows(rows), n) == Dense(rows, n)
  {
    forall row | row in SumRows(rows) ensures InRange(row, n) {
      var r :| 0 <= r < |rows| && row == SumRow(rows[r]);
      assert rows[r] in rows;
      SumRowInRange(rows[r], n);
    }
    if rows == [] {
    } else {
      var k := |rows| - 1;
      assert SumRows(rows)[..k] == SumRows(rows[..k]);
      OverwrittenIsDense(rows[..k], n);
      assert rows[k] in rows;
      OverwritingIsSumming(rows[k], n);
    }
  }

  /** Without canonicalising, the matrix comes out right if and only if every row may be
      overwritten. */
  lemma {:induction false} OverwrittenExactly(rows: seq<Row>, n: nat)
    requires AllInRange(rows, n)
    ensures Overwritten(rows, n) == Dense(rows, n) <==> AllOverwritable(rows)
  {
    if rows == [] {
    } else {
      var k := |rows| - 1;
      assert rows[k] in rows;
      OverwrittenExactly(rows[..k], n);
      OverwritingExactly(rows[k], n);
      DenseLength(rows[..k], n);
      SameParts(Overwritten(rows[..k], n), WriteCells(Zeros(n), rows[k]), Dense(rows[..k], n), DenseRow(rows[k], n));
      AllOverwritableSnoc(rows);
    }
  }

  ghost predicate AllOverwritable(rows: seq<Row>) {
    forall row :: row in rows ==> Overwritable(row)
  }

  lemma AllOverwritableSnoc(rows: seq<Row>)
    requires rows != []
    ensures AllOverwritable(rows) <==> AllOverwritable(rows[..|rows| - 1]) && Overwritable(rows[|rows| - 1])
  {
    var k := |rows| - 1;
    assert rows == rows[..k] + [rows[k]];
  }

  lemma {:induction false} DenseLength(rows: seq<Row>, n: nat)
    requires AllInRange(rows, n)
    ensures |Overwritten(rows, n)| == |Dense(rows, n)|
  {
    if rows == [] {
    } else {
      var k := |rows| - 1;
      assert rows[k] in rows;
      DenseLength(rows[..k], n);
    }
  }

  lemma SameParts(a: seq<real>, b: seq<real>, a': seq<real>, b': seq<real>)
    requires |a| == |a'|
    ensures a + b == a' + b' <==> a == a' && b == b'
  {
    if a + b == a' + b' {
      assert (a + b)[..|a|] == a && (a' + b')[..|a'|] == a';
      assert (a + b)[|a|..] == b && (a' + b')[|a'|..] == b';
    }
  }
}
