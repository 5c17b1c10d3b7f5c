/**
 R matrices as ARRAY columns: the scan turns R's column-major cells into rows (src/scan.cpp), the
 result conversion turns rows back into a column-major matrix (src/transform.cpp).
*/
module MatrixColumns {
  import opened Arithmetic
  import opened Sequences
  import opened Wrappers

  /** How a cell of R type S is stored as an engine value of type D, and back; `na` is R's missing value. */
  datatype Cells<!S, !D> = Cells(isNull: S -> bool, convert: S -> D, back: D -> S, na: S)

  /** What makes the conversion lossless: one missing value, and every other value comes back. */
  ghost predicate Lossless<S(!new), D>(cells: Cells<S, D>) {
    forall v :: if cells.isNull(v) then v == cells.na else cells.back(cells.convert(v)) == v
  }

  function Encode<S, D>(cells: Cells<S, D>, v: S): Option<D> {
    if cells.isNull(v) then None else Some(cells.convert(v))
  }

  function Decode<S, D>(cells: Cells<S, D>, v: Option<D>): S {
    if v.None? then cells.na else cells.back(v.value)
  }

  // ---------------------------------------------------------------- positions

  /** Cell (row, col) of a column-major matrix of `rows` rows. */
  function At(row: nat, col: nat, rows: nat): nat {
    row + col * rows
  }

  lemma AtInBounds(row: nat, col: nat, rows: nat, cols: nat)
    requires row < rows && col < cols
    ensures At(row, col, rows) < rows * cols
  {
    ProductMonotone(col + 1, cols, rows);
  }

  lemma AtInjective(r: nat, c: nat, r': nat, c': nat, rows: nat)
    requires r < rows && r' < rows && At(r, c, rows) == At(r', c', rows)
    ensures r == r' && c == c'
  {
    if c < c' {
      ProductMonotone(c + 1, c', rows);
    } else if c' < c {
      ProductMonotone(c' + 1, c, rows);
    }
  }

  /** Every position is some cell's. */
  lemma AtSurjective(d: nat, rows: nat, cols: nat)
    requires d < rows * cols
    ensures rows > 0 && d % rows < rows && d / rows < cols && At(d % rows, d / rows, rows) == d
  {
    assert rows != 0;
    assert d == (d / rows) * rows + d % rows;
    if d / rows >= cols {
      ProductMonotone(cols, d / rows, rows);
    }
  }

  // ---------------------------------------------------------------- rows of a matrix

  /** Row `row` of a column-major matrix, as an ARRAY value. */
  function RowOf<S, D>(m: seq<S>, cells: Cells<S, D>, rows: nat, cols: nat, row: nat): (r: seq<Option<D>>)
    requires |m| == rows * cols && row < rows
    ensures |r| == cols
  {
    seq(cols, col requires 0 <= col < cols => AtInBounds(row, col, rows, cols); Encode(cells, m[At(row, col, rows)]))
  }

  function RowsOf<S, D>(m: seq<S>, cells: Cells<S, D>, rows: nat, cols: nat): (r: seq<seq<Option<D>>>)
    requires |m| == rows * cols
    ensures |r| == rows
  {
    seq(rows, row requires 0 <= row < rows => RowOf(m, cells, rows, cols, row))
  }

  /** Element c of row r comes from `rows` cells a column: it is missing, or the converted cell. */
  lemma ScannedCell<S, D>(m: seq<S>, cells: Cells<S, D>, rows: nat, cols: nat, r: nat, c: nat)
    requires |m| == rows * cols && r < rows && c < cols
    ensures 0 <= c * rows + r < |m|
    ensures var v := m[c * rows + r];
            RowsOf(m, cells, rows, cols)[r][c] == if cells.isNull(v) then None else Some(cells.convert(v))
  {
    AtInBounds(r, c, rows, cols);
    assert RowsOf(m, cells, rows, cols)[r] == RowOf(m, cells, rows, cols, r);
  }

  lemma {:induction false} ConcatLength<D>(rows: seq<seq<Option<D>>>, cols: nat)
    requires forall i :: 0 <= i < |rows| ==> |rows[i]| == cols
    ensures |Concat(rows)| == |rows| * cols
  {
    if rows != [] {
      ConcatLength(rows[..|rows| - 1], cols);
      assert |rows| * cols == (|rows| - 1) * cols + cols;
    }
  }

  lemma {:induction false} RowInConcat<D>(rows: seq<seq<Option<D>>>, cols: nat, i: nat)
    requires forall k :: 0 <= k < |rows| ==> |rows[k]| == cols
    requires i < |rows|
    ensures 0 <= i * cols <= i * cols + cols <= |Concat(rows)|
    ensures Concat(rows)[i * cols..i * cols + cols] == rows[i]
  {
    var front := rows[..|rows| - 1];
    ConcatLength(front, cols);
    if i < |front| {
      RowInConcat(front, cols, i);
      assert rows[i] == front[i];
    }
  }

  // ---------------------------------------------------------------- the child vector

  /** The child vector of an ARRAY column: values, and a mask of the valid ones. */
  class ChildVector<D(0)> {
    const data: array<D>
    const valid: array<bool>

    predicate Separate() {
      data as object != valid
    }

    /** A fresh vector: every value counts as valid until it is marked. */
    constructor (size: nat)
      ensures fresh(data) && fresh(valid) && Separate()
      ensures data.Length == size && valid.Length == size
      ensures forall i :: 0 <= i < size ==> valid[i]
    {
      data := new D[size];
      valid := new bool[size](_ => true);
    }

    function View(n: nat): (r: seq<Option<D>>)
      requires n <= data.Length && data.Length == valid.Length
      reads this, data, valid
      ensures |r| == n
    {
      seq(n, i requires 0 <= i < n && n <= data.Length && data.Length == valid.Length reads this, data, valid =>
          if valid[i] then Some(data[i]) else None)
    }

    method Write(i: nat, v: Option<D>)
      requires Separate() && i < data.Length == valid.Length && valid[i]
      modifies data, valid
      ensures View(i) == old(View(i)) && View(i + 1) == View(i) + [v]
      ensures forall j :: 0 <= j < data.Length && j != i ==> valid[j] == old(valid[j]) && data[j] == old(data[j])
    {
      if v.None? {
        valid[i] := false;
      } else {
        data[i] := v.value;
      }
    }
  }

  // ---------------------------------------------------------------- scanning

  /** Writes one row of the matrix, a cell a step of `rows` apart in the source. */
  method AppendRow<S, D(0)>(src: array<S>, cells: Cells<S, D>, rows: nat, cols: nat, row: nat, child: ChildVector<D>,
                            start: nat)
    requires src.Length == rows * cols && row < rows
    requires child.Separate() && src as object != child.data && src as object != child.valid
    requires start + cols <= child.data.Length == child.valid.Length
    requires forall i :: start <= i < child.data.Length ==> child.valid[i]
    modifies child.data, child.valid
    ensures child.View(start + cols) == old(child.View(start)) + RowOf(src[..], cells, rows, cols, row)
    ensures forall i :: start + cols <= i < child.data.Length ==> child.valid[i]
  {
    ghost var want := RowOf(src[..], cells, rows, cols, row);
    var matrixIdx := row;
    for k := 0 to cols
      invariant matrixIdx == At(row, k, rows)
      invariant child.View(start + k) == old(child.View(start)) + want[..k]
      invariant forall i :: start + k <= i < child.data.Length ==> child.valid[i]
    {
      AtInBounds(row, k, rows, cols);
      AtNext(row, k, rows);
      child.Write(start + k, Encode(cells, src[matrixIdx]));
      assert want[..k + 1] == want[..k] + [want[k]];
      matrixIdx := matrixIdx + rows;
    }
    assert want[..cols] == want;
  }

  lemma AtNext(row: nat, col: nat, rows: nat)
    ensures At(row, col + 1, rows) == At(row, col, rows) + rows
  {
  }

  /** Writes rows [offset, offset + count) of the matrix into the child vector, row by row. */
  method AppendMatrixSegment<S, D(0)>(src: array<S>, cells: Cells<S, D>, rows: nat, cols: nat, offset: nat,
                                      child: ChildVector<D>, count: nat)
    requires src.Length == rows * cols && offset + count <= rows
    requires child.Separate() && src as object != child.data && src as object != child.valid
    requires child.data.Length == child.valid.Length == count * cols
    requires forall i :: 0 <= i < child.data.Length ==> child.valid[i]
    modifies child.data, child.valid
    ensures child.View(child.data.Length) == Concat(RowsOf(src[..], cells, rows, cols)[offset..offset + count])
  {
    ghost var want := RowsOf(src[..], cells, rows, cols)[offset..offset + count];
    var vectorIdx := 0;
    for i := 0 to count
      invariant vectorIdx == i * cols
      invariant vectorIdx <= child.data.Length
      invariant child.View(vectorIdx) == Concat(want[..i])
      invariant forall j :: vectorIdx <= j < child.data.Length ==> child.valid[j]
    {
      ProductMonotone(i + 1, count, cols);
      ProductNext(i, cols);
      AppendRow(src, cells, rows, cols, offset + i, child, vectorIdx);
      ConcatNext(want, i);
      assert want[i] == RowsOf(src[..], cells, rows, cols)[offset + i] == RowOf(src[..], cells, rows, cols, offset + i);
      vectorIdx := vectorIdx + cols;
    }
    assert want[..count] == want;
  }

  lemma ProductNext(i: nat, d: nat)
    ensures (i + 1) * d == i * d + d
  {
  }

  // ---------------------------------------------------------------- back into a matrix

  /** Row `row` of a column-major matrix, as R values. */
  function RawRow<S>(m: seq<S>, rows: nat, cols: nat, row: nat): (r: seq<S>)
    requires |m| == rows * cols && row < rows
    ensures |r| == cols
  {
    seq(cols, col requires 0 <= col < cols => AtInBounds(row, col, rows, cols); m[At(row, col, rows)])
  }

  /** A matrix is determined by its rows. */
  lemma RowsDetermineMatrix<S>(a: seq<S>, b: seq<S>, rows: nat, cols: nat)
    requires |a| == |b| == rows * cols
    requires forall row :: 0 <= row < rows ==> RawRow(a, rows, cols, row) == RawRow(b, rows, cols, row)
    ensures a == b
  {
    forall d | 0 <= d < |a| ensures a[d] == b[d] {
      AtSurjective(d, rows, cols);
      var row, col := d % rows, d / rows;
      assert a[d] == RawRow(a, rows, cols, row)[col];
      assert b[d] == RawRow(b, rows, cols, row)[col];
    }
  }

  lemma OtherCells(row: nat, col: nat, rows: nat, cols: nat)
    requires row < rows && col < cols
    ensures forall r, c {:trigger At(r, c, rows)} :: 0 <= r < rows && 0 <= c < cols ==> At(r, c, rows) < rows * cols
    ensures forall r, c {:trigger At(r, c, rows)} :: 0 <= r < rows && 0 <= c < cols && (r != row || c != col) ==>
              At(r, c, rows) != At(row, col, rows)
  {
    forall r, c | 0 <= r < rows && 0 <= c < cols
      ensures At(r, c, rows) < rows * cols
      ensures r != row || c != col ==> At(r, c, rows) != At(row, col, rows)
    {
      AtInBounds(r, c, rows, cols);
      if At(r, c, rows) == At(row, col, rows) {
        AtInjective(r, c, row, col, rows);
      }
    }
  }

  /** Spreads one converted row over the columns of the destination. */
  method WriteRow<S>(dest: array<S>, rows: nat, cols: nat, row: nat, buffer: seq<S>)
    requires dest.Length == rows * cols && row < rows && |buffer| == cols
    modifies dest
    ensures RawRow(dest[..], rows, cols, row) == buffer
    ensures forall r :: 0 <= r < rows && r != row ==>
            RawRow(dest[..], rows, cols, r) == old(RawRow(dest[..], rows, cols, r))
  {
    ghost var before := dest[..];
    for i := 0 to cols
      invariant forall c :: 0 <= c < i ==> RawRow(dest[..], rows, cols, row)[c] == buffer[c]
      invariant forall r :: 0 <= r < rows && r != row ==>
                RawRow(dest[..], rows, cols, r) == RawRow(before, rows, cols, r)
    {
      ghost var current := dest[..];
      UpdateCell(current, rows, cols, row, i, buffer[i]);
      var destIdx := At(row, i, rows);
      dest[destIdx] := buffer[i];
      assert dest[..] == current[destIdx := buffer[i]];
    }
  }

  lemma UpdateCell<S>(m: seq<S>, rows: nat, cols: nat, row: nat, col: nat, v: S)
    requires |m| == rows * cols && row < rows && col < cols
    ensures At(row, col, rows) < |m|
    ensures var m' := m[At(row, col, rows) := v];
            && RawRow(m', rows, cols, row) == RawRow(m, rows, cols, row)[col := v]
            && forall r :: 0 <= r < rows && r != row ==> RawRow(m', rows, cols, r) == RawRow(m, rows, cols, r)
  {
    OtherCells(row, col, rows, cols);
  }

  function DecodeRow<S, D>(cells: Cells<S, D>, row: seq<Option<D>>): (r: seq<S>)
    ensures |r| == |row|
  {
    seq(|row|, i requires 0 <= i < |row| => Decode(cells, row[i]))
  }

  /** One ARRAY value, as it lies in the child vector. */
  method ReadRow<D(0)>(child: ChildVector<D>, arraySize: nat, rowIdx: nat, ghost rows: seq<seq<Option<D>>>)
    returns (slice: seq<Option<D>>)
    requires rowIdx < |rows| && forall i :: 0 <= i < |rows| ==> |rows[i]| == arraySize
    requires child.data.Length == child.valid.Length
    requires child.View(child.data.Length) == Concat(rows)
    ensures slice == rows[rowIdx]
  {
    var offset := rowIdx * arraySize;
    RowInConcat(rows, arraySize, rowIdx);
    slice := child.View(child.data.Length)[offset..offset + arraySize];
  }

  /** Where a converted row says a cell is missing the matrix holds NA, in column c and row r. */
  lemma ConvertedCell<S, D>(m: seq<S>, cells: Cells<S, D>, rows: nat, cols: nat, row: seq<Option<D>>, r: nat, c: nat)
    requires |m| == rows * cols && r < rows && c < cols == |row|
    requires RawRow(m, rows, cols, r) == DecodeRow(cells, row)
    ensures 0 <= c * rows + r < |m|
    ensures m[c * rows + r] == if row[c].None? then cells.na else cells.back(row[c].value)
  {
    AtInBounds(r, c, rows, cols);
    assert RawRow(m, rows, cols, r)[c] == DecodeRow(cells, row)[c];
  }

  /** Converts n ARRAY values, whose elements lie end to end in the child vector, into n rows of the matrix. */
  method TransformArrayVector<S, D(0)>(child: ChildVector<D>, cells: Cells<S, D>, arraySize: nat, dest: array<S>,
                                       destOffset: nat, n: nat, ghost rows: seq<seq<Option<D>>>)
    requires arraySize > 0 && dest.Length % arraySize == 0
    requires destOffset + n <= dest.Length / arraySize
    requires dest as object != child.data && dest as object != child.valid
    requires |rows| == n && forall i :: 0 <= i < n ==> |rows[i]| == arraySize
    requires child.data.Length == child.valid.Length
    requires child.View(child.data.Length) == Concat(rows)
    modifies dest
    ensures var total := dest.Length / arraySize;
            && dest.Length == total * arraySize
            && forall r :: 0 <= r < total ==>
                 RawRow(dest[..], total, arraySize, r) ==
                 if destOffset <= r < destOffset + n then DecodeRow(cells, rows[r - destOffset])
                 else old(RawRow(dest[..], total, arraySize, r))
  {
    var totalRows := dest.Length / arraySize;
    ghost var before := dest[..];
    assert dest.Length == totalRows * arraySize;
    for rowIdx := 0 to n
      invariant child.View(child.data.Length) == Concat(rows)
      invariant forall r :: 0 <= r < totalRows ==>
        RawRow(dest[..], totalRows, arraySize, r) ==
        if destOffset <= r < destOffset + rowIdx then DecodeRow(cells, rows[r - destOffset])
        else RawRow(before, totalRows, arraySize, r)
    {
      var slice := ReadRow(child, arraySize, rowIdx, rows);
      var buffer := DecodeRow(cells, slice);
      WriteRow(dest, totalRows, arraySize, destOffset + rowIdx, buffer);
    }
  }

  // ---------------------------------------------------------------- there and back

  function Total(chunks: seq<nat>): nat {
    if chunks == [] then 0 else Total(chunks[..|chunks| - 1]) + chunks[|chunks| - 1]
  }

  lemma {:induction false} TotalPrefix(chunks: seq<nat>, i: nat)
    requires i < |chunks|
    ensures Total(chunks[..i]) + chunks[i] == Total(chunks[..i + 1]) <= Total(chunks)
    decreases |chunks|
  {
    assert chunks[..i + 1][..i] == chunks[..i];
    if i + 1 == |chunks| {
      assert chunks[..i + 1] == chunks;
    } else {
      var front := chunks[..|chunks| - 1];
      TotalPrefix(front, i);
      assert front[..i] == chunks[..i] && front[..i + 1] == chunks[..i + 1];
    }
  }

  /** Scans the whole matrix in chunks of any sizes: the column of ARRAY values the engine sees. */
  method ScanMatrix<S, D(0)>(src: array<S>, cells: Cells<S, D>, rows: nat, cols: nat, chunks: seq<nat>)
    returns (column: seq<seq<Option<D>>>)
    requires src.Length == rows * cols && Total(chunks) == rows
    ensures column == RowsOf(src[..], cells, rows, cols)
  {
    column := [];
    ghost var want := RowsOf(src[..], cells, rows, cols);
    var offset := 0;
    for i := 0 to |chunks|
      invariant offset == Total(chunks[..i]) <= rows
      invariant column == want[..offset]
    {
      TotalPrefix(chunks, i);
      var count := chunks[i];
      var child := new ChildVector<D>(count * cols);
      AppendMatrixSegment(src, cells, rows, cols, offset, child, count);
      var read := ReadRows(child, cols, count, want[offset..offset + count]);
      column := column + read;
      offset := offset + count;
      assert want[..offset] == want[..offset - count] + want[offset - count..offset];
    }
    assert chunks[..|chunks|] == chunks;
    assert want[..rows] == want;
  }

  /** Reads the ARRAY values off a child vector. */
  method ReadRows<D(0)>(child: ChildVector<D>, cols: nat, n: nat, ghost rows: seq<seq<Option<D>>>)
    returns (column: seq<seq<Option<D>>>)
    requires child.data.Length == child.valid.Length
    requires |rows| == n && forall i :: 0 <= i < n ==> |rows[i]| == cols
    requires child.View(child.data.Length) == Concat(rows)
    ensures column == rows
  {
    column := [];
    for i := 0 to n
      invariant column == rows[..i]
    {
      var row := ReadRow(child, cols, i, rows);
      column := column + [row];
    }
  }

  /** Lays ARRAY values end to end in a fresh child vector. */
  method FillChild<D(0)>(column: seq<seq<Option<D>>>, cols: nat) returns (child: ChildVector<D>)
    requires forall i :: 0 <= i < |column| ==> |column[i]| == cols
    ensures fresh(child) && fresh(child.data) && fresh(child.valid)
    ensures child.data.Length == child.valid.Length
    ensures child.View(child.data.Length) == Concat(column)
  {
    ConcatLength(column, cols);
    child := new ChildVector<D>(|Concat(column)|);
    var flat := Concat(column);
    for i := 0 to |flat|
      invariant child.View(i) == flat[..i]
      invariant forall j :: i <= j < |flat| ==> child.valid[j]
    {
      child.Write(i, flat[i]);
    }
    assert flat[..|flat|] == flat;
  }

  /** Converts a whole column of ARRAY values into a matrix, in chunks of any sizes. */
  method TransformColumn<S, D(0)>(column: seq<seq<Option<D>>>, cells: Cells<S, D>, cols: nat, chunks: seq<nat>,
                                  dest: array<S>)
    requires cols > 0 && dest.Length == |column| * cols && Total(chunks) == |column|
    requires forall i :: 0 <= i < |column| ==> |column[i]| == cols
    modifies dest
    ensures forall r :: 0 <= r < |column| ==> RawRow(dest[..], |column|, cols, r) == DecodeRow(cells, column[r])
  {
    var offset := 0;
    QuotientOfProduct(|column|, cols);
    for i := 0 to |chunks|
      invariant offset == Total(chunks[..i]) <= |column|
      invariant forall r :: 0 <= r < offset ==> RawRow(dest[..], |column|, cols, r) == DecodeRow(cells, column[r])
    {
      TotalPrefix(chunks, i);
      var n := chunks[i];
      var part := column[offset..offset + n];
      var child := FillChild(part, cols);
      TransformArrayVector(child, cells, cols, dest, offset, n, part);
      offset := offset + n;
    }
    assert chunks[..|chunks|] == chunks;
  }

  lemma QuotientOfProduct(n: nat, d: nat)
    requires d > 0
    ensures (n * d) / d == n && (n * d) % d == 0
  {
    var q, r := (n * d) / d, (n * d) % d;
    assert n * d == q * d + r;
    if q < n {
      ProductMonotone(q + 1, n, d);
    } else if n < q {
      ProductMonotone(n + 1, q, d);
    }
  }

  /**
   A matrix scanned and converted back is the same matrix, missing values included, for every shape
   and every way of cutting the rows into chunks on either side.
  */
  method RoundTrip<S(!new), D(0)>(src: array<S>, cells: Cells<S, D>, rows: nat, cols: nat, scanChunks: seq<nat>,
                                  resultChunks: seq<nat>, dest: array<S>)
    requires Lossless(cells) && cols > 0
    requires src.Length == dest.Length == rows * cols && src != dest
    requires Total(scanChunks) == Total(resultChunks) == rows
    modifies dest
    ensures dest[..] == src[..]
  {
    var column := ScanMatrix(src, cells, rows, cols, scanChunks);
    TransformColumn(column, cells, cols, resultChunks, dest);
    forall r | 0 <= r < rows ensures RawRow(dest[..], rows, cols, r) == RawRow(src[..], rows, cols, r) {
      DecodeEncode(src[..], cells, rows, cols, r);
    }
    RowsDetermineMatrix(dest[..], src[..], rows, cols);
  }

  /** Converting a scanned row back restores it. */
  lemma DecodeEncode<S(!new), D>(m: seq<S>, cells: Cells<S, D>, rows: nat, cols: nat, row: nat)
    requires Lossless(cells) && |m| == rows * cols && row < rows
    ensures DecodeRow(cells, RowOf(m, cells, rows, cols, row)) == RawRow(m, rows, cols, row)
  {
    forall c | 0 <= c < cols
      ensures DecodeRow(cells, RowOf(m, cells, rows, cols, row))[c] == RawRow(m, rows, cols, row)[c]
    {
      AtInBounds(row, c, rows, cols);
      var v := m[At(row, c, rows)];
      assert RowOf(m, cells, rows, cols, row)[c] == Encode(cells, v);
      assert Decode(cells, Encode(cells, v)) == v;
    }
  }
}
