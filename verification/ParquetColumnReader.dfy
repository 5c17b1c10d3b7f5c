/**
 A Parquet column reader (src/duckdb/extension/parquet/column_reader.cpp): pages are read one at a
 time, skips are deferred until the next read, and a page that a skip covers is never decoded.

 The model has PLAIN pages with definition levels.  It shows that any sequence of skips, reads and
 selective reads returns what one cursor over the rows of all pages would return.
*/
module ParquetColumnReader {
  import opened Sequences
  import opened Wrappers

  /** A page: definition levels and the values of the rows that are defined, or a page without rows. */
  datatype Page<T> = DataPage(levels: seq<nat>, values: seq<T>) | DictionaryPage | OtherPage

  // ---------------------------------------------------------------- the rows of the pages

  function Defined(levels: seq<nat>, maxDefine: nat): nat {
    if levels == [] then 0 else (if levels[0] == maxDefine then 1 else 0) + Defined(levels[1..], maxDefine)
  }

  /** Only a defined row takes a value; any other is NULL. */
  function Decode<T>(levels: seq<nat>, values: seq<T>, maxDefine: nat): (rows: seq<Option<T>>)
    requires Defined(levels, maxDefine) <= |values|
    ensures |rows| == |levels|
  {
    if levels == [] then []
    else if levels[0] == maxDefine then [Some(values[0])] + Decode(levels[1..], values[1..], maxDefine)
    else [None] + Decode(levels[1..], values, maxDefine)
  }

  predicate WellFormed<T>(page: Page<T>, maxDefine: nat) {
    page.DataPage? ==>
      && Defined(page.levels, maxDefine) == |page.values|
      && forall i :: 0 <= i < |page.levels| ==> page.levels[i] <= maxDefine
  }

  function Rows<T>(page: Page<T>, maxDefine: nat): seq<Option<T>>
    requires WellFormed(page, maxDefine)
  {
    if page.DataPage? then Decode(page.levels, page.values, maxDefine) else []
  }

  predicate AllWellFormed<T>(pages: seq<Page<T>>, maxDefine: nat) {
    forall i :: 0 <= i < |pages| ==> WellFormed(pages[i], maxDefine)
  }

  function RowsOfPages<T>(pages: seq<Page<T>>, maxDefine: nat): seq<seq<Option<T>>>
    requires AllWellFormed(pages, maxDefine)
  {
    seq(|pages|, i requires 0 <= i < |pages| => Rows(pages[i], maxDefine))
  }

  /** The rows of all pages, in order. */
  function Flat<T>(pages: seq<Page<T>>, maxDefine: nat): seq<Option<T>>
    requires AllWellFormed(pages, maxDefine)
  {
    Concat(RowsOfPages(pages, maxDefine))
  }

  lemma {:induction false} DefinedSplit(levels: seq<nat>, maxDefine: nat, n: nat, m: nat)
    requires n <= m <= |levels|
    ensures Defined(levels[..m], maxDefine) == Defined(levels[..n], maxDefine) + Defined(levels[n..m], maxDefine)
  {
    if n == 0 {
      assert levels[..m] == levels[0..m];
    } else {
      DefinedSplit(levels[1..], maxDefine, n - 1, m - 1);
      assert levels[..m][1..] == levels[1..][..m - 1] && levels[..n][1..] == levels[1..][..n - 1];
      assert levels[1..][n - 1..m - 1] == levels[n..m];
    }
  }

  /** Row n takes the value whose number is the count of defined rows before it. */
  lemma {:induction false} RowByCount<T>(levels: seq<nat>, values: seq<T>, maxDefine: nat, n: nat)
    requires Defined(levels, maxDefine) <= |values| && n < |levels|
    ensures var before := Defined(levels[..n], maxDefine);
            && (levels[n] == maxDefine ==> before < |values|)
            && Decode(levels, values, maxDefine)[n] == if levels[n] == maxDefine then Some(values[before]) else None
  {
    if n > 0 {
      var here := levels[0] == maxDefine;
      RowByCount(levels[1..], if here then values[1..] else values, maxDefine, n - 1);
      assert levels[..n][1..] == levels[1..][..n - 1];
    }
  }

  lemma {:induction false} DecodeFront<T>(levels: seq<nat>, values: seq<T>, maxDefine: nat, n: nat)
    requires n <= |levels| && Defined(levels, maxDefine) <= |values| && Defined(levels[..n], maxDefine) <= |values|
    ensures Decode(levels[..n], values, maxDefine) == Decode(levels, values, maxDefine)[..n]
  {
    if n > 0 {
      assert levels[..n][1..] == levels[1..][..n - 1];
      DecodeFront(levels[1..], if levels[0] == maxDefine then values[1..] else values, maxDefine, n - 1);
    }
  }

  lemma {:induction false} DecodeBack<T>(levels: seq<nat>, values: seq<T>, maxDefine: nat, n: nat)
    requires n <= |levels| && Defined(levels, maxDefine) <= |values|
    requires Defined(levels[..n], maxDefine) + Defined(levels[n..], maxDefine) == Defined(levels, maxDefine)
    ensures Decode(levels[n..], values[Defined(levels[..n], maxDefine)..], maxDefine) ==
            Decode(levels, values, maxDefine)[n..]
  {
    if n == 0 {
      assert levels[0..] == levels && values[0..] == values;
    } else {
      assert levels[..n][1..] == levels[1..][..n - 1] && levels[1..][n - 1..] == levels[n..];
      DecodeBack(levels[1..], if levels[0] == maxDefine then values[1..] else values, maxDefine, n - 1);
    }
  }

  /** Splitting the levels splits the values where the defined rows end. */
  lemma DecodeSplit<T>(levels: seq<nat>, values: seq<T>, maxDefine: nat, n: nat)
    requires Defined(levels, maxDefine) <= |values| && n <= |levels|
    ensures var d := Defined(levels[..n], maxDefine);
            && d + Defined(levels[n..], maxDefine) == Defined(levels, maxDefine)
            && Decode(levels[..n], values, maxDefine) == Decode(levels, values, maxDefine)[..n]
            && Decode(levels[n..], values[d..], maxDefine) == Decode(levels, values, maxDefine)[n..]
  {
    DefinedSplit(levels, maxDefine, n, |levels|);
    assert levels[..|levels|] == levels;
    DecodeFront(levels, values, maxDefine, n);
    DecodeBack(levels, values, maxDefine, n);
  }

  /** Taking n rows from a page that holds rows[pos..end] leaves rows[pos + n..end]. */
  lemma PageSplit<T>(levels: seq<nat>, values: seq<T>, maxDefine: nat, n: nat,
                     rows: seq<Option<T>>, pos: nat, end: nat)
    requires n <= |levels| && pos <= end <= |rows|
    requires Holds(levels, values, maxDefine, rows, pos, end)
    ensures var d := Defined(levels[..n], maxDefine);
            && pos + n <= end
            && d <= |values|
            && Holds(levels[..n], values, maxDefine, rows, pos, pos + n)
            && Holds(levels[n..], values[d..], maxDefine, rows, pos + n, end)
  {
    DecodeSplit(levels, values, maxDefine, n);
    var decoded := Decode(levels, values, maxDefine);
    assert |levels| == |decoded| == end - pos;
    SliceOfSlice(rows, pos, end, pos, pos + n);
    SliceOfSlice(rows, pos, end, pos + n, end);
    assert decoded[..n] == decoded[0..n] && decoded[n..] == decoded[n..end - pos];
  }

  /** What is left of a page decodes to a stretch of the rows. */
  ghost predicate Holds<T>(levels: seq<nat>, values: seq<T>, maxDefine: nat, rows: seq<Option<T>>, pos: int, end: int)
    requires 0 <= pos <= end <= |rows|
  {
    && (forall i :: 0 <= i < |levels| ==> levels[i] <= maxDefine)
    && Defined(levels, maxDefine) <= |values|
    && Decode(levels, values, maxDefine) == rows[pos..end]
  }

  lemma CountOne(levels: seq<nat>, maxDefine: nat, n: nat)
    requires n < |levels|
    ensures Defined(levels[..n + 1], maxDefine) ==
            Defined(levels[..n], maxDefine) + if levels[n] == maxDefine then 1 else 0
  {
    DefinedSplit(levels, maxDefine, n, n + 1);
    assert levels[n..n + 1] == [levels[n]];
  }

  /** A selection: rows in increasing order. */
  predicate Selects(sel: seq<nat>, numValues: nat) {
    && (forall i :: 0 <= i < |sel| ==> sel[i] < numValues)
    && (forall i, j :: 0 <= i < j < |sel| ==> sel[i] < sel[j])
  }

  /** A stretch of NULL rows takes no values. */
  lemma {:induction false} NullsTakeNothing<T>(levels: seq<nat>, values: seq<T>, maxDefine: nat)
    requires Defined(levels, maxDefine) <= |values|
    requires forall i :: 0 <= i < |levels| ==> Decode(levels, values, maxDefine)[i] == None
    ensures Defined(levels, maxDefine) == 0
  {
    if levels != [] {
      var decoded := Decode(levels, values, maxDefine);
      assert decoded[0] == None;
      assert forall i :: 0 <= i < |levels| - 1 ==> decoded[1..][i] == decoded[i + 1];
      NullsTakeNothing(levels[1..], values, maxDefine);
    }
  }

  /** A page holds rows from..to. */
  ghost predicate PageLies<T>(page: Page<T>, maxDefine: nat, rows: seq<Option<T>>, from: nat, to: nat) {
    && to == (if page.DataPage? then from + |page.levels| else from) <= |rows|
    && (page.DataPage? ==> Holds(page.levels, page.values, maxDefine, rows, from, to))
  }

  /** Where each page starts among the rows of all pages. */
  ghost predicate LaidOut<T>(pages: seq<Page<T>>, maxDefine: nat, rows: seq<Option<T>>, starts: seq<nat>) {
    && |starts| == |pages| + 1 && starts[0] == 0 && starts[|pages|] == |rows|
    && forall i :: 0 <= i < |pages| ==> PageLies(pages[i], maxDefine, rows, starts[i], starts[i + 1])
  }

  lemma LayOut<T>(pages: seq<Page<T>>, maxDefine: nat) returns (starts: seq<nat>)
    requires AllWellFormed(pages, maxDefine)
    ensures LaidOut(pages, maxDefine, Flat(pages, maxDefine), starts)
  {
    var parts := RowsOfPages(pages, maxDefine);
    starts := seq(|pages| + 1, i requires 0 <= i <= |pages| => |Concat(parts[..i])|);
    forall i | 0 <= i < |pages|
      ensures PageLies(pages[i], maxDefine, Flat(pages, maxDefine), starts[i], starts[i + 1])
    {
      PartInConcat(parts, i);
    }
  }

  ghost predicate AllAt(levels: seq<nat>, maxDefine: nat) {
    forall i :: 0 <= i < |levels| ==> levels[i] == maxDefine
  }

  // ---------------------------------------------------------------- a flat result vector

  /** A row of a flat vector: its value, or NULL where the validity mask is cleared. */
  function Row<T>(value: T, valid: bool): Option<T> {
    if valid then Some(value) else None
  }

  // ---------------------------------------------------------------- the reader

  class ColumnReader<T> {
    const pages: seq<Page<T>>
    const maxDefine: nat
    const vectorSize: nat
    const isRoot: bool
    const allValuesAreNull: bool
    ghost const rows: seq<Option<T>>
    ghost const starts: seq<nat>

    // The transport is shared with other readers: its location is meaningless between calls.
    var location: nat
    var chunkReadOffset: nat
    var pageRowsAvailable: nat
    var pageIsFilteredOut: bool
    var levelsLeft: seq<nat>
    var valuesLeft: seq<T>
    var pendingSkips: nat
    var groupRowsAvailable: int

    /** Where the open page ends among the rows, and how many rows callers have read or skipped. */
    ghost var pageEnd: nat
    ghost var cursor: nat

    /** The statistics of the column chunk tell the truth. */
    ghost predicate NullsAreNull() {
      allValuesAreNull ==> forall i :: 0 <= i < |rows| ==> rows[i] == None
    }

    ghost predicate Static() {
      LaidOut(pages, maxDefine, rows, starts) && vectorSize > 0 && NullsAreNull()
    }

    /** What is left of the open page decodes to its last rows. */
    ghost predicate PageOk()
      reads this
    {
      && pageRowsAvailable <= pageEnd <= |rows|
      && (!pageIsFilteredOut && pageRowsAvailable > 0 ==>
            && |levelsLeft| == pageRowsAvailable
            && Holds(levelsLeft, valuesLeft, maxDefine, rows, pageEnd - pageRowsAvailable, pageEnd))
    }

    /** The open page is the one before `loc`. */
    ghost predicate At(loc: nat)
      requires Static()
      reads this
    {
      loc <= |pages| && pageEnd == starts[loc]
    }

    /** The row that is read next. */
    ghost function Pos(): int
      reads this
    {
      pageEnd - pageRowsAvailable
    }

    /** A root column of NULLs is never physically read. */
    predicate NeverRead() {
      isRoot && allValuesAreNull
    }

    ghost predicate Valid()
      reads this
    {
      && Static() && At(chunkReadOffset) && PageOk()
      && (pageIsFilteredOut ==> pageRowsAvailable == 0)
      && pendingSkips <= cursor <= |rows|
      && groupRowsAvailable == |rows| - Pos()
      && Pos() == if NeverRead() then 0 else cursor - pendingSkips
    }

    constructor (pages: seq<Page<T>>, maxDefine: nat, vectorSize: nat, isRoot: bool, allValuesAreNull: bool)
      requires AllWellFormed(pages, maxDefine) && vectorSize > 0
      requires allValuesAreNull ==> forall i :: 0 <= i < |Flat(pages, maxDefine)| ==> Flat(pages, maxDefine)[i] == None
      ensures Valid() && cursor == 0 && pendingSkips == 0 && rows == Flat(pages, maxDefine)
      ensures this.vectorSize == vectorSize && this.isRoot == isRoot && this.allValuesAreNull == allValuesAreNull
    {
      this.pages, this.maxDefine, this.vectorSize := pages, maxDefine, vectorSize;
      this.isRoot, this.allValuesAreNull := isRoot, allValuesAreNull;
      rows := Flat(pages, maxDefine);
      location, chunkReadOffset := 0, 0;
      pageRowsAvailable, pageIsFilteredOut, levelsLeft, valuesLeft := 0, false, [], [];
      pendingSkips, groupRowsAvailable, cursor, pageEnd := 0, |Flat(pages, maxDefine)|, 0, 0;
      ghost var laidOut := LayOut(pages, maxDefine);
      starts := laidOut;
    }

    // -------------------------------------------------------------- pages

    /** Opens the next page; one that the skip covers is passed over without decoding it. */
    method PreparePage(rowsToSkip: nat)
      requires Static() && At(location) && location < |pages| && pageRowsAvailable == 0
      modifies `location, `pageEnd, `pageRowsAvailable, `pageIsFilteredOut, `levelsLeft, `valuesLeft
      ensures location == old(location) + 1 && At(location) && PageOk() && Pos() == old(Pos())
      ensures pageIsFilteredOut ==> pageRowsAvailable <= rowsToSkip
      ensures pageIsFilteredOut <==>
                pages[old(location)].DataPage? && 0 < rowsToSkip && |pages[old(location)].levels| <= rowsToSkip
    {
      pageIsFilteredOut := false;
      var page := pages[location];
      assert PageLies(page, maxDefine, rows, starts[location], starts[location + 1]);
      location := location + 1;
      pageEnd := starts[location];
      if rowsToSkip > 0 && page.DataPage? && rowsToSkip >= |page.levels| {
        pageIsFilteredOut := true;
        pageRowsAvailable := |page.levels|;
        return;
      }
      match page
      case DataPage(levels, values) =>
        levelsLeft, valuesLeft := levels, values;
        pageRowsAvailable := |levels|;
      case DictionaryPage =>
      case OtherPage =>
    }

    /** Goes to a page with rows left, and says how many rows can be taken from it in one go. */
    method ReadPageHeaders(maxRead: nat, rowsToSkip: nat) returns (readNow: nat)
      requires Static() && At(location) && PageOk() && 0 < maxRead && Pos() + maxRead <= |rows|
      requires pageIsFilteredOut ==> pageRowsAvailable <= rowsToSkip
      modifies `location, `pageEnd, `pageRowsAvailable, `pageIsFilteredOut, `levelsLeft, `valuesLeft
      ensures At(location) && PageOk() && Pos() == old(Pos())
      ensures pageIsFilteredOut ==> pageRowsAvailable <= rowsToSkip
      ensures 0 < readNow <= maxRead && readNow <= pageRowsAvailable && readNow <= vectorSize
      ensures readNow == maxRead || readNow == pageRowsAvailable || readNow == vectorSize
    {
      while pageRowsAvailable == 0
        invariant At(location) && PageOk() && Pos() == old(Pos())
        invariant pageIsFilteredOut ==> pageRowsAvailable <= rowsToSkip
        decreases |pages| - location
      {
        PreparePage(rowsToSkip);
      }
      readNow := if maxRead < pageRowsAvailable then maxRead else pageRowsAvailable;
      readNow := if readNow < vectorSize then readNow else vectorSize;
    }

    /** Decodes the next levels; a run of defined rows may be recognised without writing them out. */
    method PrepareRead(readNow: nat, defines: array<nat>, offset: nat) returns (allValid: bool)
      requires readNow <= |levelsLeft| && offset + readNow <= defines.Length
      requires forall i :: 0 <= i < |levelsLeft| ==> levelsLeft[i] <= maxDefine
      modifies `levelsLeft, defines
      ensures levelsLeft == old(levelsLeft)[readNow..]
      ensures allValid ==> AllAt(old(levelsLeft)[..readNow], maxDefine)
      ensures !allValid ==> defines[offset..offset + readNow] == old(levelsLeft)[..readNow]
      ensures forall i :: 0 <= i < defines.Length && !(offset <= i < offset + readNow) ==> defines[i] == old(defines[i])
    {
      var batch := levelsLeft[..readNow];
      levelsLeft := levelsLeft[readNow..];
      if maxDefine == 0 {
        return true;
      }
      var isRun: bool := *;
      if isRun && forall i :: 0 <= i < |batch| ==> batch[i] == maxDefine {
        return true;
      }
      for i := 0 to readNow
        invariant forall k :: 0 <= k < i ==> defines[offset + k] == batch[k]
        invariant forall k :: 0 <= k < defines.Length && !(offset <= k < offset + i) ==> defines[k] == old(defines[k])
        invariant levelsLeft == old(levelsLeft)[readNow..]
      {
        defines[offset + i] := batch[i];
      }
      return false;
    }

    // -------------------------------------------------------------- values

    /** Whether a row takes a value, given the levels that were written out (if they were). */
    predicate IsDefined(hasDefines: bool, defines: array<nat>, row: nat)
      requires hasDefines ==> row < defines.Length
      reads defines
    {
      !hasDefines || defines[row] == maxDefine
    }

    /** `defines` agrees with the levels of rows from..from + |levels|. */
    ghost predicate Describes(hasDefines: bool, defines: array<nat>, from: nat, levels: seq<nat>)
      reads defines
    {
      if hasDefines
      then from + |levels| <= defines.Length && defines[from..from + |levels|] == levels
      else AllAt(levels, maxDefine)
    }

    lemma DescribesPart(hasDefines: bool, defines: array<nat>, levels: seq<nat>, from: nat, to: nat)
      requires from <= to <= |levels| && Describes(hasDefines, defines, 0, levels)
      ensures Describes(hasDefines, defines, from, levels[from..to])
    {
      if hasDefines {
        assert defines[from..to] == defines[0..|levels|][from..to];
      }
    }

    /** Reads the values of the defined rows and clears the validity of the others. */
    method Plain(hasDefines: bool, defines: array<nat>, numValues: nat, offset: nat,
                 data: array<T>, valid: array<bool>, ghost levels: seq<nat>)
      requires |levels| == numValues && Describes(hasDefines, defines, offset, levels)
      requires Defined(levels, maxDefine) <= |valuesLeft|
      requires offset + numValues <= data.Length == valid.Length
      requires data as object != defines && data as object != valid
      requires forall i :: offset <= i < offset + numValues ==> valid[i]
      modifies `valuesLeft, data, valid
      ensures valuesLeft == old(valuesLeft)[Defined(levels, maxDefine)..]
      ensures forall i :: offset <= i < offset + numValues ==>
                Row(data[i], valid[i]) == Decode(levels, old(valuesLeft), maxDefine)[i - offset]
      ensures forall i :: 0 <= i < data.Length && !(offset <= i < offset + numValues) ==>
                data[i] == old(data[i]) && valid[i] == old(valid[i])
    {
      ghost var decoded := Decode(levels, valuesLeft, maxDefine);
      ghost var taken := 0;
      for i := 0 to numValues
        invariant taken + Defined(levels[i..], maxDefine) == Defined(levels, maxDefine) <= old(|valuesLeft|)
        invariant valuesLeft == old(valuesLeft)[taken..]
        invariant Decode(levels[i..], valuesLeft, maxDefine) == decoded[i..]
        invariant forall k :: offset <= k < offset + i ==> Row(data[k], valid[k]) == decoded[k - offset]
        invariant forall k :: offset + i <= k < offset + numValues ==> valid[k]
        invariant forall k :: 0 <= k < data.Length && !(offset <= k < offset + i) ==>
                    data[k] == old(data[k]) && valid[k] == old(valid[k])
      {
        assert levels[i..][1..] == levels[i + 1..];
        assert decoded[i..][0] == decoded[i] && decoded[i..][1..] == decoded[i + 1..];
        if IsDefined(hasDefines, defines, offset + i) {
          assert levels[i] == maxDefine;
          data[offset + i] := valuesLeft[0];
          valuesLeft := valuesLeft[1..];
          taken := taken + 1;
        } else {
          assert levels[i] != maxDefine;
          valid[offset + i] := false;
        }
      }
    }

    /** Passes over the values of the defined rows. */
    method PlainSkip(hasDefines: bool, defines: array<nat>, numValues: nat, offset: nat, ghost levels: seq<nat>)
      requires |levels| == numValues && Describes(hasDefines, defines, offset, levels)
      requires Defined(levels, maxDefine) <= |valuesLeft|
      modifies `valuesLeft
      ensures valuesLeft == old(valuesLeft)[Defined(levels, maxDefine)..]
    {
      ghost var taken := 0;
      for i := 0 to numValues
        invariant taken + Defined(levels[i..], maxDefine) == Defined(levels, maxDefine) <= old(|valuesLeft|)
        invariant valuesLeft == old(valuesLeft)[taken..]
      {
        assert levels[i..][1..] == levels[i + 1..];
        if IsDefined(hasDefines, defines, offset + i) {
          assert levels[i] == maxDefine;
          valuesLeft := valuesLeft[1..];
          taken := taken + 1;
        }
      }
    }

    /** Reads the values of the selected rows only; the rows passed over hold a default value. */
    method PlainSelect(hasDefines: bool, defines: array<nat>, numValues: nat, data: array<T>, valid: array<bool>,
                       sel: seq<nat>, zero: T, ghost levels: seq<nat>)
      requires |levels| == numValues && Describes(hasDefines, defines, 0, levels)
      requires Defined(levels, maxDefine) <= |valuesLeft|
      requires numValues <= data.Length == valid.Length
      requires data as object != defines && data as object != valid
      requires forall i :: 0 <= i < numValues ==> valid[i]
      requires Selects(sel, numValues)
      modifies `valuesLeft, data, valid
      ensures valuesLeft == old(valuesLeft)[Defined(levels, maxDefine)..]
      ensures SelectedRows(data, valid, sel, |sel|, Decode(levels, old(valuesLeft), maxDefine), numValues)
    {
      ghost var values := valuesLeft;
      ghost var decoded := Decode(levels, values, maxDefine);
      var currentEntry := 0;
      for i := 0 to |sel|
        invariant currentEntry == (if i == 0 then 0 else sel[i - 1] + 1) <= numValues
        invariant PastRows(levels, values, currentEntry)
        invariant SelectedRows(data, valid, sel, i, decoded, currentEntry)
        invariant forall k :: currentEntry <= k < numValues ==> valid[k]
      {
        SelectRow(hasDefines, defines, currentEntry, sel, i, data, valid, zero, levels, values, decoded);
        currentEntry := sel[i] + 1;
      }
      SkipRest(hasDefines, defines, currentEntry, numValues, sel, data, valid, zero, levels, values, decoded);
    }

    /** After the last selected row the values of the remaining rows are passed over. */
    method SkipRest(hasDefines: bool, defines: array<nat>, from: nat, to: nat, ghost sel: seq<nat>,
                    data: array<T>, valid: array<bool>, zero: T,
                    ghost levels: seq<nat>, ghost values: seq<T>, ghost decoded: seq<Option<T>>)
      requires from <= to == |levels| == |decoded| <= data.Length == valid.Length
      requires Describes(hasDefines, defines, 0, levels)
      requires data as object != defines && data as object != valid
      requires Defined(levels, maxDefine) <= |values| && PastRows(levels, values, from)
      requires SelectedRows(data, valid, sel, |sel|, decoded, from)
      modifies `valuesLeft, data
      ensures valuesLeft == values[Defined(levels, maxDefine)..]
      ensures SelectedRows(data, valid, sel, |sel|, decoded, to)
    {
      assert levels[..|levels|] == levels;
      if from < to {
        SkipTo(hasDefines, defines, from, to, data, zero, levels, values);
      }
    }

    /** The rows selected so far, all of them before `bound`, are those of the page. */
    ghost predicate SelectedRows(data: array<T>, valid: array<bool>, sel: seq<nat>, count: nat,
                                 decoded: seq<Option<T>>, bound: nat)
      requires bound <= |decoded| <= data.Length == valid.Length && count <= |sel|
      reads data, valid
    {
      forall k :: 0 <= k < count ==> sel[k] < bound && Row(data[sel[k]], valid[sel[k]]) == decoded[sel[k]]
    }

    /** Goes to the i-th selected row and reads it. */
    method SelectRow(hasDefines: bool, defines: array<nat>, from: nat, sel: seq<nat>, i: nat,
                     data: array<T>, valid: array<bool>, zero: T,
                     ghost levels: seq<nat>, ghost values: seq<T>, ghost decoded: seq<Option<T>>)
      requires i < |sel| && from <= sel[i] < |levels| <= data.Length == valid.Length
      requires Describes(hasDefines, defines, 0, levels)
      requires data as object != defines && data as object != valid
      requires Defined(levels, maxDefine) <= |values| && PastRows(levels, values, from)
      requires forall k :: sel[i] <= k < |levels| ==> valid[k]
      requires decoded == Decode(levels, values, maxDefine) && SelectedRows(data, valid, sel, i, decoded, from)
      modifies `valuesLeft, data, valid
      ensures PastRows(levels, values, sel[i] + 1)
      ensures SelectedRows(data, valid, sel, i + 1, decoded, sel[i] + 1)
      ensures forall k :: sel[i] < k < |levels| ==> valid[k]
    {
      SkipTo(hasDefines, defines, from, sel[i], data, zero, levels, values);
      ReadRow(hasDefines, defines, sel[i], data, valid, levels, values);
    }

    /** The values of the first n rows have been taken. */
    ghost predicate PastRows(levels: seq<nat>, values: seq<T>, n: nat)
      requires n <= |levels|
      reads this
    {
      var taken := Defined(levels[..n], maxDefine);
      taken <= |values| && valuesLeft == values[taken..]
    }

    method ReadRow(hasDefines: bool, defines: array<nat>, row: nat, data: array<T>, valid: array<bool>,
                   ghost levels: seq<nat>, ghost values: seq<T>)
      requires row < |levels| <= data.Length == valid.Length && Describes(hasDefines, defines, 0, levels)
      requires data as object != defines && data as object != valid
      requires Defined(levels, maxDefine) <= |values| && PastRows(levels, values, row) && valid[row]
      modifies `valuesLeft, data, valid
      ensures PastRows(levels, values, row + 1)
      ensures Row(data[row], valid[row]) == Decode(levels, values, maxDefine)[row]
      ensures forall k :: 0 <= k < data.Length && k != row ==> data[k] == old(data[k]) && valid[k] == old(valid[k])
    {
      RowByCount(levels, values, maxDefine, row);
      CountOne(levels, maxDefine, row);
      if IsDefined(hasDefines, defines, row) {
        assert levels[row] == maxDefine;
        data[row] := valuesLeft[0];
        valuesLeft := valuesLeft[1..];
      } else {
        assert levels[row] != maxDefine;
        valid[row] := false;
      }
    }

    /** Passes over rows from..to, leaving the default value in their place. */
    method SkipTo(hasDefines: bool, defines: array<nat>, from: nat, to: nat,
                  data: array<T>, zero: T, ghost levels: seq<nat>, ghost values: seq<T>)
      requires from <= to <= |levels| <= data.Length && Describes(hasDefines, defines, 0, levels)
      requires data as object != defines
      requires Defined(levels, maxDefine) <= |values| && PastRows(levels, values, from)
      modifies `valuesLeft, data
      ensures PastRows(levels, values, to)
      ensures forall k :: 0 <= k < data.Length && !(from <= k < to) ==> data[k] == old(data[k])
    {
      DefinedSplit(levels, maxDefine, from, to);
      DefinedSplit(levels, maxDefine, to, |levels|);
      assert levels[..|levels|] == levels;
      DescribesPart(hasDefines, defines, levels, from, to);
      PlainSkip(hasDefines, defines, to - from, from, levels[from..to]);
      for k := from to to
        invariant forall j :: 0 <= j < data.Length && !(from <= j < to) ==> data[j] == old(data[j])
        invariant PastRows(levels, values, to)
      {
        data[k] := zero;
      }
    }

    // -------------------------------------------------------------- reading

    /** A read can go on from the transport's location: no rows of a dropped page are left over. */
    ghost predicate Ready()
      reads this
    {
      Static() && At(location) && PageOk() && (pageIsFilteredOut ==> pageRowsAvailable == 0)
    }

    method SetNull(data: array<T>, valid: array<bool>, offset: nat, n: nat)
      requires offset + n <= data.Length == valid.Length
      modifies valid
      ensures forall i :: offset <= i < offset + n ==> !valid[i]
      ensures forall i :: 0 <= i < valid.Length && !(offset <= i < offset + n) ==> valid[i] == old(valid[i])
    {
      for i := 0 to n
        invariant forall k :: offset <= k < offset + i ==> !valid[k]
        invariant forall k :: 0 <= k < valid.Length && !(offset <= k < offset + i) ==> valid[k] == old(valid[k])
      {
        valid[offset + i] := false;
      }
    }

    /** Rows offset..offset + n of the result are rows from..from + n of the column. */
    ghost predicate Copied(data: array<T>, valid: array<bool>, offset: nat, n: nat, from: nat)
      requires offset + n <= data.Length == valid.Length && from + n <= |rows|
      reads data, valid
    {
      forall i :: offset <= i < offset + n ==> Row(data[i], valid[i]) == rows[from + (i - offset)]
    }

    ghost predicate HasRoom(defines: array<nat>, data: array<T>, valid: array<bool>, offset: nat, n: nat)
      reads valid
    {
      && offset + n <= vectorSize <= defines.Length && offset + n <= data.Length == valid.Length
      && data as object != defines && data as object != valid
      && forall i :: offset <= i < offset + n ==> valid[i]
    }

    /** Reads the levels and the values of the next rows of the open page. */
    method DecodeRows(readNow: nat, defines: array<nat>, data: array<T>, valid: array<bool>, offset: nat)
      requires NullsAreNull() && PageOk() && 0 < readNow <= pageRowsAvailable && !pageIsFilteredOut
      requires HasRoom(defines, data, valid, offset, readNow)
      modifies `levelsLeft, `valuesLeft, defines, data, valid
      ensures Copied(data, valid, offset, readNow, Pos())
      ensures Holds(levelsLeft, valuesLeft, maxDefine, rows, Pos() + readNow, pageEnd)
      ensures forall i :: 0 <= i < data.Length && !(offset <= i < offset + readNow) ==>
                data[i] == old(data[i]) && valid[i] == old(valid[i])
    {
      ghost var levels := levelsLeft[..readNow];
      PageSplit(levelsLeft, valuesLeft, maxDefine, readNow, rows, Pos(), pageEnd);
      var allValid := PrepareRead(readNow, defines, offset);
      if !isRoot && allValuesAreNull {
        ghost var decoded, from := Decode(levels, valuesLeft, maxDefine), Pos();
        forall i | 0 <= i < |levels|
          ensures decoded[i] == None
        {
          assert decoded[i] == rows[from..from + readNow][i] == rows[from + i];
        }
        NullsTakeNothing(levels, valuesLeft, maxDefine);
        SetNull(data, valid, offset, readNow);
      } else {
        Plain(!allValid, defines, readNow, offset, data, valid, levels);
      }
    }

    /** Reads the next rows of the open page into the result, from `offset` on. */
    method ReadData(readNow: nat, defines: array<nat>, data: array<T>, valid: array<bool>, offset: nat)
      requires NullsAreNull() && PageOk() && 0 < readNow <= pageRowsAvailable
      requires HasRoom(defines, data, valid, offset, readNow)
      modifies `pageRowsAvailable, `levelsLeft, `valuesLeft, defines, data, valid
      ensures PageOk() && pageRowsAvailable == old(pageRowsAvailable) - readNow
      ensures !pageIsFilteredOut ==> Copied(data, valid, offset, readNow, old(Pos()))
      ensures pageIsFilteredOut ==> forall i :: offset <= i < offset + readNow ==> !valid[i]
      ensures forall i :: 0 <= i < data.Length && !(offset <= i < offset + readNow) ==>
                data[i] == old(data[i]) && valid[i] == old(valid[i])
    {
      if pageIsFilteredOut {
        SetNull(data, valid, offset, readNow);
      } else {
        DecodeRows(readNow, defines, data, valid, offset);
      }
      pageRowsAvailable := pageRowsAvailable - readNow;
    }

    method FinishRead(readCount: nat)
      modifies `chunkReadOffset, `groupRowsAvailable
      ensures chunkReadOffset == location && groupRowsAvailable == old(groupRowsAvailable) - readCount
    {
      chunkReadOffset := location;
      groupRowsAvailable := groupRowsAvailable - readCount;
    }

    /** The first `offset` of the rows asked for are in the result, and the rest can follow. */
    ghost predicate Reading(defines: array<nat>, data: array<T>, valid: array<bool>,
                            offset: nat, numValues: nat, from: nat)
      reads this, data, valid
    {
      && Ready() && Pos() == from + offset
      && offset <= numValues && from + numValues <= |rows|
      && numValues <= vectorSize <= defines.Length && numValues <= data.Length == valid.Length
      && data as object != defines && data as object != valid
      && Copied(data, valid, 0, offset, from)
      && forall i :: offset <= i < numValues ==> valid[i]
    }

    /** Takes what the open page (or the next one that has rows) can give. */
    method ReadMore(defines: array<nat>, data: array<T>, valid: array<bool>,
                    offset: nat, numValues: nat, ghost from: nat) returns (readNow: nat)
      requires Reading(defines, data, valid, offset, numValues, from) && offset < numValues
      modifies `location, `pageEnd, `pageRowsAvailable, `pageIsFilteredOut, `levelsLeft, `valuesLeft
      modifies defines, data, valid
      ensures 0 < readNow && Reading(defines, data, valid, offset + readNow, numValues, from)
    {
      readNow := ReadPageHeaders(numValues - offset, 0);
      ReadData(readNow, defines, data, valid, offset);
    }

    /** Reads rows page by page until the vector holds as many as asked for. */
    method ReadInternal(numValues: nat, defines: array<nat>, data: array<T>, valid: array<bool>)
      requires Ready() && Pos() + numValues <= |rows| && HasRoom(defines, data, valid, 0, numValues)
      modifies `location, `pageEnd, `pageRowsAvailable, `pageIsFilteredOut, `levelsLeft, `valuesLeft
      modifies `chunkReadOffset, `groupRowsAvailable, defines, data, valid
      ensures Ready() && chunkReadOffset == location && Pos() == old(Pos()) + numValues
      ensures groupRowsAvailable == old(groupRowsAvailable) - numValues
      ensures Copied(data, valid, 0, numValues, old(Pos()))
    {
      var resultOffset := 0;
      var toRead := numValues;
      while toRead > 0
        invariant 0 <= resultOffset && toRead == numValues - resultOffset
        invariant Reading(defines, data, valid, resultOffset, numValues, old(Pos()))
        invariant groupRowsAvailable == old(groupRowsAvailable)
      {
        var readNow := ReadMore(defines, data, valid, resultOffset, numValues, old(Pos()));
        resultOffset := resultOffset + readNow;
        toRead := toRead - readNow;
      }
      FinishRead(numValues);
    }

    /** Puts the shared transport back where this column left it, and applies the deferred skips. */
    method BeginRead(applySkips: bool)
      requires Valid()
      requires applySkips ==> !NeverRead()
      modifies `location, `pageEnd, `pageRowsAvailable, `pageIsFilteredOut, `levelsLeft, `valuesLeft
      modifies `chunkReadOffset, `groupRowsAvailable, `pendingSkips
      ensures Valid() && Ready() && location == chunkReadOffset
      ensures pendingSkips == if applySkips then 0 else old(pendingSkips)
      decreases if applySkips then 1 else 0, 1
    {
      location := chunkReadOffset;
      if applySkips {
        ApplyPendingSkips();
      }
    }

    /** Moves past the skipped rows; a page that the skip covers is dropped whole, inside this skip. */
    method ApplyPendingSkips()
      requires Valid() && !NeverRead() && location == chunkReadOffset
      modifies `location, `pageEnd, `pageRowsAvailable, `pageIsFilteredOut, `levelsLeft, `valuesLeft
      modifies `chunkReadOffset, `groupRowsAvailable, `pendingSkips
      ensures Valid() && Ready() && location == chunkReadOffset && pendingSkips == 0
      decreases 1, 0
    {
      if pendingSkips == 0 {
        return;
      }
      BeginRead(false);
      var numValues := pendingSkips;
      pendingSkips := 0;
      var toSkip := numValues;
      var skipDefines := new nat[vectorSize](_ => 0);
      ghost var from := Pos();
      while toSkip > 0
        invariant 0 <= toSkip <= numValues && from + numValues <= |rows|
        invariant Static() && At(location) && PageOk() && Pos() == from + (numValues - toSkip)
        invariant pageIsFilteredOut ==> pageRowsAvailable <= toSkip
        invariant groupRowsAvailable == |rows| - from && pendingSkips == 0
        invariant fresh(skipDefines) && skipDefines.Length == vectorSize
        decreases toSkip
      {
        var skipNow := ReadPageHeaders(toSkip, toSkip);
        SkipData(skipNow, skipDefines);
        toSkip := toSkip - skipNow;
      }
      FinishRead(numValues);
    }

    /** Takes rows from the open page without keeping them. */
    method SkipData(skipNow: nat, skipDefines: array<nat>)
      requires PageOk() && 0 < skipNow <= pageRowsAvailable && skipNow <= skipDefines.Length
      modifies `pageRowsAvailable, `levelsLeft, `valuesLeft, skipDefines
      ensures PageOk() && pageRowsAvailable == old(pageRowsAvailable) - skipNow
    {
      if !pageIsFilteredOut {
        ghost var levels := levelsLeft[..skipNow];
        PageSplit(levelsLeft, valuesLeft, maxDefine, skipNow, rows, Pos(), pageEnd);
        var allValid := PrepareRead(skipNow, skipDefines, 0);
        PlainSkip(!allValid, skipDefines, skipNow, 0, levels);
      }
      pageRowsAvailable := pageRowsAvailable - skipNow;
    }

    // -------------------------------------------------------------- the interface

    /** Skips rows; nothing is read until the next read. */
    method Skip(numValues: nat)
      requires Valid() && cursor + numValues <= |rows|
      modifies `pendingSkips, `cursor
      ensures Valid() && cursor == old(cursor) + numValues
    {
      pendingSkips := pendingSkips + numValues;
      cursor := cursor + numValues;
    }

    /** Reads the next rows: those at the cursor, whatever was skipped or read before. */
    method Read(numValues: nat, defines: array<nat>, data: array<T>, valid: array<bool>)
      requires Valid() && cursor + numValues <= |rows| && HasRoom(defines, data, valid, 0, numValues)
      modifies this, defines, data, valid
      ensures Valid() && cursor == old(cursor) + numValues
      ensures pendingSkips == if NeverRead() then old(pendingSkips) else 0
      ensures Copied(data, valid, 0, numValues, old(cursor))
    {
      if NeverRead() {
        SetNull(data, valid, 0, numValues);
      } else {
        BeginRead(true);
        ReadInternal(numValues, defines, data, valid);
      }
      cursor := cursor + numValues;
    }

    /** The selected rows of the result are the column's; what the other rows hold is unspecified. */
    ghost predicate SelectedCopied(data: array<T>, valid: array<bool>, sel: seq<nat>, n: nat, from: nat)
      requires n <= data.Length == valid.Length && from + n <= |rows| && Selects(sel, n)
      reads data, valid
    {
      forall k :: 0 <= k < |sel| ==> Row(data[sel[k]], valid[sel[k]]) == rows[from + sel[k]]
    }

    /** Reads the next rows, of which only the selected ones matter. */
    method Select(numValues: nat, defines: array<nat>, data: array<T>, valid: array<bool>, sel: seq<nat>,
                  supportsDirectSelect: bool, zero: T)
      requires Valid() && cursor + numValues <= |rows| && HasRoom(defines, data, valid, 0, numValues)
      requires Selects(sel, numValues)
      modifies this, defines, data, valid
      ensures Valid() && cursor == old(cursor) + numValues
      ensures SelectedCopied(data, valid, sel, numValues, old(cursor))
    {
      if supportsDirectSelect && |sel| < numValues && !NeverRead() {
        DirectSelect(numValues, defines, data, valid, sel, zero);
        cursor := cursor + numValues;
        return;
      }
      Read(numValues, defines, data, valid);
    }

    /** Skips and reads inside the page when it holds all rows asked for; otherwise reads them all. */
    method DirectSelect(numValues: nat, defines: array<nat>, data: array<T>, valid: array<bool>, sel: seq<nat>, zero: T)
      requires Valid() && !NeverRead() && 0 < numValues && cursor + numValues <= |rows|
      requires HasRoom(defines, data, valid, 0, numValues) && Selects(sel, numValues)
      modifies `location, `pageEnd, `pageRowsAvailable, `pageIsFilteredOut, `levelsLeft, `valuesLeft
      modifies `chunkReadOffset, `groupRowsAvailable, `pendingSkips, defines, data, valid
      ensures Ready() && chunkReadOffset == location && Pos() == cursor + numValues && pendingSkips == 0
      ensures groupRowsAvailable == |rows| - Pos()
      ensures SelectedCopied(data, valid, sel, numValues, cursor)
    {
      BeginRead(true);
      var readNow := ReadPageHeaders(numValues, 0);
      if readNow == numValues {
        SelectInPage(numValues, defines, data, valid, sel, zero);
        FinishRead(numValues);
      } else {
        ReadInternal(numValues, defines, data, valid);
        CopiedIsSelected(data, valid, sel, numValues, cursor);
      }
    }

    lemma CopiedAreRows(data: array<T>, valid: array<bool>, from: nat, out: seq<Option<T>>)
      requires data.Length == valid.Length == |out| && from + |out| <= |rows|
      requires Copied(data, valid, 0, |out|, from)
      requires forall k :: 0 <= k < |out| ==> out[k] == Row(data[k], valid[k])
      ensures out == rows[from..from + |out|]
    {
      forall k | 0 <= k < |out|
        ensures out[k] == rows[from..from + |out|][k]
      {
        assert Row(data[k], valid[k]) == rows[from + (k - 0)];
      }
    }

    lemma CopiedIsSelected(data: array<T>, valid: array<bool>, sel: seq<nat>, n: nat, from: nat)
      requires n <= data.Length == valid.Length && from + n <= |rows| && Selects(sel, n)
      requires Copied(data, valid, 0, n, from)
      ensures SelectedCopied(data, valid, sel, n, from)
    {
    }

    method SelectInPage(numValues: nat, defines: array<nat>, data: array<T>, valid: array<bool>, sel: seq<nat>, zero: T)
      requires PageOk() && !pageIsFilteredOut && 0 < numValues <= pageRowsAvailable
      requires HasRoom(defines, data, valid, 0, numValues) && Selects(sel, numValues)
      modifies `pageRowsAvailable, `levelsLeft, `valuesLeft, defines, data, valid
      ensures PageOk() && pageRowsAvailable == old(pageRowsAvailable) - numValues
      ensures SelectedCopied(data, valid, sel, numValues, old(Pos()))
    {
      ghost var levels := levelsLeft[..numValues];
      ghost var from := Pos();
      PageSplit(levelsLeft, valuesLeft, maxDefine, numValues, rows, from, pageEnd);
      var allValid := PrepareRead(numValues, defines, 0);
      PlainSelect(!allValid, defines, numValues, data, valid, sel, zero, levels);
      pageRowsAvailable := pageRowsAvailable - numValues;
    }

    /**
     The rows left in the row group are the total less those consumed and not still pending,
     except for a root column of NULLs, whose count never moves.
     */
    lemma RowsLeftAreAccounted()
      requires Valid()
      ensures groupRowsAvailable == |rows| - (cursor - pendingSkips) <==> !NeverRead() || cursor == pendingSkips
    {
    }
  }

  // ---------------------------------------------------------------- whole runs

  datatype Op = SkipRows(count: nat) | ReadRows(count: nat) | SelectRows(count: nat, sel: seq<nat>)

  /** Where the cursor stands after n operations. */
  function CursorAfter(ops: seq<Op>, at: nat, n: nat): nat
    requires n <= |ops|
  {
    if n == 0 then at else CursorAfter(ops, at, n - 1) + ops[n - 1].count
  }

  /** The operation asks for rows that exist, at most a vector at a time. */
  predicate AsksFor(op: Op, at: nat, total: nat, vectorSize: nat) {
    && at + op.count <= total
    && (op.SkipRows? || op.count <= vectorSize)
    && (op.SelectRows? ==> Selects(op.sel, op.count))
  }

  predicate Asks(ops: seq<Op>, at: nat, total: nat, vectorSize: nat) {
    forall i :: 0 <= i < |ops| ==> AsksFor(ops[i], CursorAfter(ops, at, i), total, vectorSize)
  }

  function Chosen<T>(rows: seq<Option<T>>, sel: seq<nat>, at: nat): (chosen: seq<Option<T>>)
    requires forall k :: 0 <= k < |sel| ==> at + sel[k] < |rows|
  {
    seq(|sel|, k requires 0 <= k < |sel| => rows[at + sel[k]])
  }

  /** What an operation gives when the cursor is at row `at`. */
  function Answer<T>(rows: seq<Option<T>>, op: Op, at: nat, vectorSize: nat): seq<seq<Option<T>>>
    requires AsksFor(op, at, |rows|, vectorSize)
  {
    match op
    case SkipRows(_) => []
    case ReadRows(n) => [rows[at..at + n]]
    case SelectRows(_, sel) => [Chosen(rows, sel, at)]
  }

  /** What one cursor over the rows of all pages gives for the first n operations. */
  function OneCursor<T>(rows: seq<Option<T>>, ops: seq<Op>, at: nat, vectorSize: nat, n: nat): seq<seq<Option<T>>>
    requires Asks(ops, at, |rows|, vectorSize) && n <= |ops|
  {
    if n == 0 then []
    else OneCursor(rows, ops, at, vectorSize, n - 1) + Answer(rows, ops[n - 1], CursorAfter(ops, at, n - 1), vectorSize)
  }

  /** Any sequence of skips, reads and selective reads gives what one cursor would. */
  method Replay<T>(reader: ColumnReader<T>, ops: seq<Op>, supportsDirectSelect: bool, zero: T)
    returns (out: seq<seq<Option<T>>>)
    requires reader.Valid() && Asks(ops, reader.cursor, |reader.rows|, reader.vectorSize)
    modifies reader
    ensures reader.Valid() && reader.cursor == CursorAfter(ops, old(reader.cursor), |ops|)
    ensures out == OneCursor(reader.rows, ops, old(reader.cursor), reader.vectorSize, |ops|)
  {
    out := [];
    for i := 0 to |ops|
      invariant reader.Valid() && reader.cursor == CursorAfter(ops, old(reader.cursor), i)
      invariant out == OneCursor(reader.rows, ops, old(reader.cursor), reader.vectorSize, i)
    {
      assert AsksFor(ops[i], reader.cursor, |reader.rows|, reader.vectorSize);
      var answer := Perform(reader, ops[i], supportsDirectSelect, zero);
      out := out + answer;
    }
  }

  method Perform<T>(reader: ColumnReader<T>, op: Op, supportsDirectSelect: bool, zero: T)
    returns (out: seq<seq<Option<T>>>)
    requires reader.Valid() && AsksFor(op, reader.cursor, |reader.rows|, reader.vectorSize)
    modifies reader
    ensures reader.Valid() && reader.cursor == old(reader.cursor) + op.count
    ensures out == Answer(reader.rows, op, old(reader.cursor), reader.vectorSize)
  {
    match op
    case SkipRows(n) =>
      reader.Skip(n);
      return [];
    case ReadRows(n) =>
      var read := PerformRead(reader, n, zero);
      return [read];
    case SelectRows(n, sel) =>
      var selected := PerformSelect(reader, n, sel, supportsDirectSelect, zero);
      return [selected];
  }

  /** A flat vector of n rows, all valid, and room for their levels. */
  method NewVector<T>(reader: ColumnReader<T>, n: nat, zero: T)
    returns (defines: array<nat>, data: array<T>, valid: array<bool>)
    requires n <= reader.vectorSize
    ensures fresh(defines) && fresh(data) && fresh(valid) && data.Length == valid.Length == n
    ensures reader.HasRoom(defines, data, valid, 0, n)
  {
    defines := new nat[reader.vectorSize](_ => 0);
    data := new T[n](_ => zero);
    valid := new bool[n](_ => true);
  }

  method PerformRead<T>(reader: ColumnReader<T>, n: nat, zero: T) returns (out: seq<Option<T>>)
    requires reader.Valid() && reader.cursor + n <= |reader.rows| && n <= reader.vectorSize
    modifies reader
    ensures reader.Valid() && reader.cursor == old(reader.cursor) + n
    ensures reader.pendingSkips == if reader.NeverRead() then old(reader.pendingSkips) else 0
    ensures out == reader.rows[old(reader.cursor)..old(reader.cursor) + n]
  {
    var defines, data, valid := NewVector(reader, n, zero);
    reader.Read(n, defines, data, valid);
    out := Gather(data, valid);
    reader.CopiedAreRows(data, valid, old(reader.cursor), out);
  }

  /** The rows of a flat vector. */
  method Gather<T>(data: array<T>, valid: array<bool>) returns (out: seq<Option<T>>)
    requires data.Length == valid.Length
    ensures |out| == data.Length && forall k :: 0 <= k < data.Length ==> out[k] == Row(data[k], valid[k])
  {
    out := [];
    for i := 0 to data.Length
      invariant |out| == i && forall k :: 0 <= k < i ==> out[k] == Row(data[k], valid[k])
    {
      out := out + [Row(data[i], valid[i])];
    }
  }

  method PerformSelect<T>(reader: ColumnReader<T>, n: nat, sel: seq<nat>, supportsDirectSelect: bool, zero: T)
    returns (out: seq<Option<T>>)
    requires reader.Valid() && reader.cursor + n <= |reader.rows| && n <= reader.vectorSize && Selects(sel, n)
    modifies reader
    ensures reader.Valid() && reader.cursor == old(reader.cursor) + n
    ensures out == Chosen(reader.rows, sel, old(reader.cursor))
  {
    var defines, data, valid := NewVector(reader, n, zero);
    reader.Select(n, defines, data, valid, sel, supportsDirectSelect, zero);
    var all := Gather(data, valid);
    out := seq(|sel|, k requires 0 <= k < |sel| => all[sel[k]]);
    assert forall k :: 0 <= k < |sel| ==> out[k] == reader.rows[old(reader.cursor) + sel[k]];
  }

  /** A root column of one NULL: when its row has been read, it still counts as left. */
  method RowsLeftAreMiscounted() returns (reader: ColumnReader<int>)
    ensures fresh(reader) && reader.Valid() && reader.NeverRead()
    ensures |reader.rows| == 1 && reader.cursor == 1 && reader.pendingSkips == 0
    ensures reader.groupRowsAvailable == 1
  {
    var pages: seq<Page<int>> := [DataPage([0], [])];
    assert Defined([0], 1) == Defined([], 1) == 0;
    assert RowsOfPages(pages, 1)[..0] == [];
    assert Flat(pages, 1) == Rows(pages[0], 1) == [None];
    reader := new ColumnReader(pages, 1, 1, true, true);
    var row := PerformRead(reader, 1, 0);
  }
}
