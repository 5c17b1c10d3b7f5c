/**
 The operator behind list_filter and list_transform
 (src/duckdb/extension/core_functions/lambda_functions.cpp).
*/
module LambdaExecution {
  import opened Wrappers
  import opened LambdaRows
  import opened LambdaBatches

  /** One call: the cursor of list_filter, the batch being packed, and the result being built. */
  class Executor<T(0)> {
    const f: Functor<T>
    const input: Input<T>
    /** The selection vectors and the index vector, entry by entry; their length is the vector size. */
    const batch: array<Slot>
    const resultEntries: array<Entry>
    const resultValidity: array<bool>
    var resultChild: seq<T>

    // list_filter's own state
    var entryLengths: seq<nat>
    var rowIdx: nat
    var srcLength: nat
    var length: nat
    var offset: nat

    constructor (f: Functor<T>, input: Input<T>, vectorSize: nat)
      requires input.Valid() && vectorSize > 0
      ensures this.f == f && this.input == input && Valid() && fresh(batch) && fresh(resultEntries)
              && fresh(resultValidity)
      ensures batch.Length == vectorSize && Fresh()
    {
      this.f := f;
      this.input := input;
      batch := new Slot[vectorSize](_ => Slot(0, 0, None));
      resultEntries := new Entry[|input.sel|](_ => Entry(0, 0));
      resultValidity := new bool[|input.sel|](_ => true);
      resultChild := [];
      entryLengths := [];
      rowIdx, srcLength, length, offset := 0, 0, 0, 0;
    }

    predicate Valid() {
      && input.Valid() && batch.Length > 0
      && resultEntries.Length == resultValidity.Length == |input.sel|
      && batch as object != resultEntries && batch as object != resultValidity
      && resultEntries as object != resultValidity
    }

    /** Nothing has been executed yet. */
    predicate Fresh()
      requires Valid()
      reads this, resultEntries, resultValidity
    {
      && View() == State([], Cursor(0, 0, 0, 0), resultEntries[..], [])
      && forall r :: 0 <= r < |input.sel| ==> resultValidity[r]
    }

    function View(): State<T>
      reads this, resultEntries
    {
      State(entryLengths, Cursor(rowIdx, srcLength, length, offset), resultEntries[..], resultChild)
    }

    method SkipEmptyRows()
      requires View().Valid()
      modifies this`rowIdx, resultEntries
      ensures View() == SkipRows(old(View()))
    {
      while rowIdx < |entryLengths| && entryLengths[rowIdx] == 0
        invariant View().Valid()
        invariant SkipRows(View()) == SkipRows(old(View()))
        decreases |entryLengths| - rowIdx
      {
        ghost var before := View();
        resultEntries[rowIdx] := Entry(offset, 0);
        rowIdx := rowIdx + 1;
        assert resultEntries[..] == before.entries[before.cursor.rowIdx := Entry(offset, 0)];
      }
    }

    method ConsumeElement(kept: bool)
      requires View().Valid() && rowIdx < |entryLengths| && entryLengths[rowIdx] > 0
      modifies this`rowIdx, this`srcLength, this`length, this`offset, resultEntries
      ensures View() == Consume(old(View()), kept)
    {
      ghost var before := View();
      if kept {
        length := length + 1;
      }
      srcLength := srcLength + 1;
      if entryLengths[rowIdx] == srcLength {
        resultEntries[rowIdx] := Entry(offset, length);
        assert resultEntries[..] == before.entries[rowIdx := Entry(offset, length)];
        offset := offset + length;
        rowIdx := rowIdx + 1;
        length := 0;
        srcLength := 0;
      }
    }

    /** list_filter: the batch's elements, kept or not, cut back into rows. */
    method AppendFiltered(slots: seq<Slot>, lambda: seq<Option<bool>>)
      requires f.ListFilter? && View().Valid() && View().Left() >= |slots|
      requires |lambda| == |slots| && InChild(slots, |input.child|)
      requires forall i :: 0 <= i < |slots| ==>
               lambda[i] == f.keep(input.child[slots[i].child], slots[i].row, slots[i].index)
      modifies this`resultChild, this`rowIdx, this`srcLength, this`length, this`offset, resultEntries
      ensures View() == Flush(f, input.child, old(View()), slots)
    {
      ghost var start := View();
      var kept: seq<T> := [];
      assert slots[0..] == slots;
      for i := 0 to |slots|
        invariant View().Valid() && View().Left() >= |slots| - i
        invariant Append(f, input.child, View(), slots[i..]) == Append(f, input.child, start, slots)
        invariant kept == Emit(f, input.child, slots[..i])
      {
        AppendNext(f, input.child, View(), slots, i);
        EmitNext(f, input.child, slots, i);
        SkipEmptyRows();
        var isKept := lambda[i] == Some(true);
        assert isKept == Keeps(f, input.child, slots[i]);
        if isKept {
          kept := kept + [input.child[slots[i].child]];
        }
        ConsumeElement(isKept);
      }
      SkipEmptyRows();
      assert slots[..|slots|] == slots;
      resultChild := resultChild + kept;
    }

    /** Runs the lambda on the packed elements and appends what comes of them. */
    method FlushBatch(elemCnt: nat)
      requires elemCnt <= batch.Length && InChild(batch[..elemCnt], |input.child|)
      requires View().Valid() && (f.ListFilter? ==> View().Left() >= elemCnt)
      requires batch as object != resultEntries
      modifies this`resultChild, this`rowIdx, this`srcLength, this`length, this`offset, resultEntries
      ensures View() == Flush(f, input.child, old(View()), old(batch[..elemCnt]))
    {
      var slots := batch[..elemCnt];
      match f {
        case ListFilter(keep) =>
          var lambda := seq(elemCnt,
                            i requires 0 <= i < elemCnt && InChild(slots, |input.child|) && |slots| == elemCnt =>
                            keep(input.child[slots[i].child], slots[i].row, slots[i].index));
          AppendFiltered(slots, lambda);
        case ListTransform(fn) =>
          var lambda := seq(elemCnt,
                            i requires 0 <= i < elemCnt && InChild(slots, |input.child|) && |slots| == elemCnt =>
                            fn(input.child[slots[i].child], slots[i].row, slots[i].index));
          EmitIsMap(fn, input.child, slots);
          assert lambda == Emit(f, input.child, slots);
          resultChild := resultChild + lambda;
      }
    }

    /** SetResultEntry or PushEmptyList, and the NULL mark of the row. */
    method BeginRow(r: nat, listOffset: nat) returns (nextOffset: nat)
      requires Valid() && r < |input.sel|
      modifies this`entryLengths, resultEntries, resultValidity
      ensures View() == Begin(f, old(View()), r, input.RowSlots(r), input.RowIsValid(r), listOffset)
      ensures nextOffset == if f.ListFilter? then listOffset else listOffset + |input.RowSlots(r)|
      ensures resultValidity[..] ==
              if input.RowIsValid(r) then old(resultValidity[..]) else old(resultValidity[..])[r := false]
    {
      nextOffset := listOffset;
      var listIdx := input.sel[r];
      if !input.validity[listIdx] {
        resultValidity[r] := false;
        if f.ListFilter? {
          entryLengths := entryLengths + [0];
        }
        return;
      }
      var len := input.entries[listIdx].length;
      if f.ListFilter? {
        entryLengths := entryLengths + [len];
      } else {
        ghost var before := resultEntries[..];
        resultEntries[r] := Entry(listOffset, len);
        assert resultEntries[..] == before[r := Entry(listOffset, len)];
        nextOffset := listOffset + len;
      }
    }

    method PackElement(slot: Slot, elemCnt0: nat) returns (elemCnt: nat)
      requires Valid() && elemCnt0 <= batch.Length && InChild(batch[..elemCnt0], |input.child|)
               && slot.child < |input.child|
      requires View().Valid() && (f.ListFilter? ==> View().Left() >= elemCnt0)
      modifies this`resultChild, this`rowIdx, this`srcLength, this`length, this`offset, resultEntries, batch
      ensures elemCnt <= batch.Length
      ensures View() == PackOne(f, input.child, batch.Length, old(View()), old(batch[..elemCnt0]), slot).0
      ensures batch[..elemCnt] == PackOne(f, input.child, batch.Length, old(View()), old(batch[..elemCnt0]), slot).1
    {
      elemCnt := elemCnt0;
      if elemCnt == batch.Length {
        FlushBatch(elemCnt);
        elemCnt := 0;
      }
      ghost var packed := batch[..elemCnt];
      batch[elemCnt] := slot;
      elemCnt := elemCnt + 1;
      assert batch[..elemCnt] == packed + [slot];
      assert packed == [] ==> packed + [slot] == [slot];
    }

    /** What is left of a row, packed onto the batch, gives the same as the whole row on the batch before it. */
    ghost predicate Packing(elemCnt: nat, row: seq<Slot>, i: nat, all: (State<T>, seq<Slot>))
      requires Valid() && i <= |row| && InChild(row, |input.child|)
      reads this, batch, resultEntries
    {
      && elemCnt <= batch.Length && InChild(batch[..elemCnt], |input.child|)
      && View().Valid() && (f.ListFilter? ==> View().Left() == elemCnt + |row| - i)
      && Pack(f, input.child, batch.Length, View(), batch[..elemCnt], row[i..]) == all
    }

    method PackNextElement(slot: Slot, elemCnt0: nat, ghost row: seq<Slot>, ghost i: nat,
                           ghost all: (State<T>, seq<Slot>)) returns (elemCnt: nat)
      requires Valid() && i < |row| && InChild(row, |input.child|) && slot == row[i] && Packing(elemCnt0, row, i, all)
      modifies this`resultChild, this`rowIdx, this`srcLength, this`length, this`offset, resultEntries, batch
      ensures Packing(elemCnt, row, i + 1, all)
    {
      PackNext(f, input.child, batch.Length, View(), batch[..elemCnt0], row, i);
      elemCnt := PackElement(slot, elemCnt0);
    }

    /** Packs the elements of a row, running every batch that fills up. */
    method PackRow(r: nat, elemCnt0: nat) returns (elemCnt: nat)
      requires Valid() && r < |input.sel| && elemCnt0 <= batch.Length && InChild(batch[..elemCnt0], |input.child|)
      requires View().Valid() && (f.ListFilter? ==> View().Left() == elemCnt0 + |input.RowSlots(r)|)
      modifies this`resultChild, this`rowIdx, this`srcLength, this`length, this`offset, resultEntries, batch
      ensures elemCnt <= batch.Length
      ensures (View(), batch[..elemCnt]) ==
              Pack(f, input.child, batch.Length, old(View()), old(batch[..elemCnt0]), input.RowSlots(r))
    {
      elemCnt := elemCnt0;
      ghost var row := input.RowSlots(r);
      ghost var all := Pack(f, input.child, batch.Length, View(), batch[..elemCnt], row);
      assert row[0..] == row;
      var listIdx := input.sel[r];
      if !input.validity[listIdx] || input.entries[listIdx].length == 0 {
        return;
      }
      var entry := input.entries[listIdx];
      for childIdx := 0 to entry.length
        invariant Packing(elemCnt, row, childIdx, all)
      {
        var index := if input.hasIndex then Some(childIdx + input.indexOffset) else None;
        var slot := Slot(entry.offset + childIdx, r, index);
        elemCnt := PackNextElement(slot, elemCnt, row, childIdx, all);
      }
    }

    /** One turn of the row loop. */
    method DoRow(r: nat, elemCnt0: nat, listOffset: nat) returns (elemCnt: nat, nextOffset: nat)
      requires Valid() && r < |input.sel| && elemCnt0 <= batch.Length && InChild(batch[..elemCnt0], |input.child|)
      requires View().Valid() && (f.ListFilter? ==> |entryLengths| == r && View().Left() == elemCnt0)
      modifies this, batch, resultEntries, resultValidity
      ensures elemCnt <= batch.Length
      ensures Run(View(), batch[..elemCnt], nextOffset) ==
              RowRun(f, input, batch.Length, Run(old(View()), old(batch[..elemCnt0]), listOffset), r)
      ensures resultValidity[..] ==
              if input.RowIsValid(r) then old(resultValidity[..]) else old(resultValidity[..])[r := false]
    {
      BeginValid(f, View(), r, input.RowSlots(r), input.RowIsValid(r), listOffset);
      nextOffset := BeginRow(r, listOffset);
      elemCnt := PackRow(r, elemCnt0);
    }

    /** The first n rows are done: they are packed or run, and the NULL rows among them marked. */
    ghost predicate DoneUpTo(n: nat, elemCnt: nat, listOffset: nat, entries0: seq<Entry>)
      requires Valid() && n <= |input.sel| == |entries0|
      reads this, batch, resultEntries, resultValidity
    {
      && elemCnt <= batch.Length
      && RunRows(f, input, batch.Length, entries0, n) == Run(View(), batch[..elemCnt], listOffset)
      && forall r :: 0 <= r < |input.sel| ==> resultValidity[r] == (r < n ==> input.RowIsValid(r))
    }

    method NextRow(r: nat, elemCnt0: nat, listOffset: nat, ghost entries0: seq<Entry>)
      returns (elemCnt: nat, nextOffset: nat)
      requires Valid() && r < |input.sel| == |entries0| && DoneUpTo(r, elemCnt0, listOffset, entries0)
      modifies this, batch, resultEntries, resultValidity
      ensures DoneUpTo(r + 1, elemCnt, nextOffset, entries0)
    {
      ghost var marked := resultValidity[..];
      elemCnt, nextOffset := DoRow(r, elemCnt0, listOffset);
      forall q | 0 <= q < |input.sel|
        ensures resultValidity[q] == (q < r + 1 ==> input.RowIsValid(q))
      {
        assert resultValidity[..][q] == if q == r then input.RowIsValid(r) && marked[q] else marked[q];
      }
    }

    /** The rows in order: all is done but for the last batch. */
    method ExecuteRows() returns (elemCnt: nat, ghost listOffset: nat)
      requires Valid() && Fresh()
      modifies this, batch, resultEntries, resultValidity
      ensures DoneUpTo(|input.sel|, elemCnt, listOffset, old(resultEntries[..]))
    {
      ghost var entries0 := resultEntries[..];
      elemCnt := 0;
      var nextOffset: nat := 0;
      assert batch[..0] == [];
      for r := 0 to |input.sel|
        invariant DoneUpTo(r, elemCnt, nextOffset, entries0)
      {
        elemCnt, nextOffset := NextRow(r, elemCnt, nextOffset, entries0);
      }
      listOffset := nextOffset;
    }

    /** The rows in order, and the last batch, full or not: the result is that of the rows taken one by one. */
    method ExecuteRowByRow()
      requires Valid() && Fresh()
      modifies this, batch, resultEntries, resultValidity
      ensures resultChild == EmitRows(f, input.child, input.Rows(|input.sel|))
      ensures forall r :: 0 <= r < |input.sel| ==> resultValidity[r] == input.RowIsValid(r)
      ensures forall r :: 0 <= r < |input.sel| && (f.ListFilter? || input.RowIsValid(r)) ==>
                resultEntries[r] == EntryOf(f, input.child, input.Rows(|input.sel|), r)
    {
      ghost var entries0 := resultEntries[..];
      var elemCnt, listOffset := ExecuteRows();
      BatchesBuildRows(f, input, batch.Length, entries0);
      FlushBatch(elemCnt);
      assert resultChild == View().out;
      assert forall r :: 0 <= r < |input.sel| ==> resultEntries[r] == View().entries[r];
    }

    /** What each row of the result is, in terms of its own list alone. */
    method Execute()
      requires Valid() && Fresh()
      modifies this, batch, resultEntries, resultValidity
      ensures forall r :: 0 <= r < |input.sel| ==> resultValidity[r] == input.validity[input.sel[r]]
      ensures f.ListFilter? ==> FilterResult(f.keep, input, resultEntries[..], resultChild)
      ensures f.ListTransform? ==> TransformResult(f.fn, input, resultEntries[..], resultChild)
    {
      ExecuteRowByRow();
      match f {
        case ListFilter(keep) => RowsGiveFilterResult(keep, input, input.Rows(|input.sel|), resultEntries[..]);
        case ListTransform(fn) => RowsGiveTransformResult(fn, input, input.Rows(|input.sel|), resultEntries[..]);
      }
    }
  }
}
