/**
 Batches of list elements, which end wherever the vector size is reached, and the cursor that cuts
 their results back into rows (src/duckdb/extension/core_functions/lambda_functions.cpp).

 First the steps of the operator as functions of its state; then the proof that, for every vector
 size, they build what LambdaRows defines row by row.
*/
module LambdaBatches {
  import opened Wrappers
  import opened LambdaRows

  datatype Cursor = Cursor(rowIdx: nat, srcLength: nat, length: nat, offset: nat)

  // ---------------------------------------------------------------- what the operator computes

  /** The state that list_filter and list_transform build up; the lengths are those of the rows seen so far. */
  datatype State<T> = State(lengths: seq<nat>, cursor: Cursor, entries: seq<Entry>, out: seq<T>) {
    predicate Valid() {
      && |lengths| <= |entries|
      && cursor.rowIdx <= |lengths|
      && (cursor.srcLength == 0 || (cursor.rowIdx < |lengths| && cursor.srcLength < lengths[cursor.rowIdx]))
    }

    /** How many elements the cursor may still consume. */
    function Left(): nat
      requires Valid()
    {
      Remaining(lengths, cursor.rowIdx) - cursor.srcLength
    }
  }

  function Remaining(lengths: seq<nat>, r: nat): (n: nat)
    requires r <= |lengths|
    ensures r < |lengths| ==> n >= lengths[r]
    decreases |lengths| - r
  {
    if r == |lengths| then 0 else lengths[r] + Remaining(lengths, r + 1)
  }

  /** Offset and length of the empty lists at the cursor. */
  function SkipRows<T>(s: State<T>): (t: State<T>)
    requires s.Valid()
    ensures t.Valid() && t.Left() == s.Left() && t.lengths == s.lengths && t.out == s.out && |t.entries| == |s.entries|
    ensures t.cursor.rowIdx < |t.lengths| ==> t.lengths[t.cursor.rowIdx] > 0
    decreases |s.lengths| - s.cursor.rowIdx
  {
    var c := s.cursor;
    if c.rowIdx < |s.lengths| && s.lengths[c.rowIdx] == 0 then
      SkipRows(s.(cursor := c.(rowIdx := c.rowIdx + 1), entries := s.entries[c.rowIdx := Entry(c.offset, 0)]))
    else s
  }

  /** One element, kept or not; with the last one of its list the entry is set. */
  function Consume<T>(s: State<T>, kept: bool): (t: State<T>)
    requires s.Valid() && s.cursor.rowIdx < |s.lengths| && s.lengths[s.cursor.rowIdx] > 0
    ensures t.Valid() && t.Left() == s.Left() - 1 && t.lengths == s.lengths && t.out == s.out
            && |t.entries| == |s.entries|
  {
    var c := s.cursor;
    var len := c.length + if kept then 1 else 0;
    if s.lengths[c.rowIdx] == c.srcLength + 1 then
      s.(cursor := Cursor(c.rowIdx + 1, 0, 0, c.offset + len), entries := s.entries[c.rowIdx := Entry(c.offset, len)])
    else s.(cursor := c.(srcLength := c.srcLength + 1, length := len))
  }

  predicate Keeps<T>(f: Functor<T>, child: seq<T>, slot: Slot)
    requires f.ListFilter? && slot.child < |child|
  {
    f.keep(child[slot.child], slot.row, slot.index) == Some(true)
  }

  /** The cursor's way through one batch of list_filter. */
  function Append<T>(f: Functor<T>, child: seq<T>, s: State<T>, slots: seq<Slot>): (t: State<T>)
    requires f.ListFilter? && InChild(slots, |child|) && s.Valid() && s.Left() >= |slots|
    ensures t.Valid() && t.Left() == s.Left() - |slots|
    ensures t.lengths == s.lengths && t.out == s.out && |t.entries| == |s.entries|
    decreases |slots|
  {
    if slots == [] then SkipRows(s)
    else Append(f, child, Consume(SkipRows(s), Keeps(f, child, slots[0])), slots[1..])
  }

  lemma AppendNext<T>(f: Functor<T>, child: seq<T>, s: State<T>, slots: seq<Slot>, i: nat)
    requires f.ListFilter? && InChild(slots, |child|) && s.Valid() && i < |slots| && s.Left() >= |slots| - i
    ensures Append(f, child, s, slots[i..]) ==
            Append(f, child, Consume(SkipRows(s), Keeps(f, child, slots[i])), slots[i + 1..])
  {
    assert slots[i..][0] == slots[i] && slots[i..][1..] == slots[i + 1..];
  }

  /** One batch: run the lambda, and append what comes of it. */
  function Flush<T>(f: Functor<T>, child: seq<T>, s: State<T>, slots: seq<Slot>): (t: State<T>)
    requires InChild(slots, |child|) && s.Valid() && (f.ListFilter? ==> s.Left() >= |slots|)
    ensures t.Valid() && t.lengths == s.lengths && |t.entries| == |s.entries|
    ensures f.ListFilter? ==> t.Left() == s.Left() - |slots|
  {
    var t := if f.ListFilter? then Append(f, child, s, slots) else s;
    t.(out := s.out + Emit(f, child, slots))
  }

  /** One element joins the batch, which is run first if it is full. */
  function PackOne<T>(f: Functor<T>, child: seq<T>, size: nat, s: State<T>, batch: seq<Slot>, slot: Slot)
    : (r: (State<T>, seq<Slot>))
    requires size > 0 && |batch| <= size && InChild(batch, |child|) && slot.child < |child|
    requires s.Valid() && (f.ListFilter? ==> s.Left() >= |batch|)
    ensures r.0.Valid() && r.0.lengths == s.lengths && |r.0.entries| == |s.entries|
    ensures |r.1| <= size && InChild(r.1, |child|) && (f.ListFilter? ==> r.0.Left() - |r.1| == s.Left() - |batch| - 1)
  {
    if |batch| == size then (Flush(f, child, s, batch), [slot]) else (s, batch + [slot])
  }

  /** The elements of one row join the batch. */
  function Pack<T>(f: Functor<T>, child: seq<T>, size: nat, s: State<T>, batch: seq<Slot>, row: seq<Slot>)
    : (r: (State<T>, seq<Slot>))
    requires size > 0 && |batch| <= size && InChild(batch, |child|) && InChild(row, |child|)
    requires s.Valid() && (f.ListFilter? ==> s.Left() == |batch| + |row|)
    ensures r.0.Valid() && r.0.lengths == s.lengths && |r.0.entries| == |s.entries|
    ensures |r.1| <= size && InChild(r.1, |child|) && (f.ListFilter? ==> r.0.Left() == |r.1|)
    decreases |row|
  {
    if row == [] then (s, batch)
    else
      var (t, packed) := PackOne(f, child, size, s, batch, row[0]);
      Pack(f, child, size, t, packed, row[1..])
  }

  lemma PackNext<T>(f: Functor<T>, child: seq<T>, size: nat, s: State<T>, batch: seq<Slot>, row: seq<Slot>, i: nat)
    requires size > 0 && |batch| <= size && InChild(batch, |child|) && InChild(row, |child|) && i < |row|
    requires s.Valid() && (f.ListFilter? ==> s.Left() == |batch| + |row| - i)
    ensures var (t, packed) := PackOne(f, child, size, s, batch, row[i]);
            Pack(f, child, size, s, batch, row[i..]) == Pack(f, child, size, t, packed, row[i + 1..])
  {
    assert row[i..][0] == row[i] && row[i..][1..] == row[i + 1..];
  }

  /** A row comes up: its length is noted, or for list_transform its entry is set right away. */
  function Begin<T>(f: Functor<T>, s: State<T>, r: nat, row: seq<Slot>, valid: bool, listOffset: nat): State<T>
    requires r < |s.entries|
  {
    if f.ListFilter? then s.(lengths := s.lengths + [|row|])
    else if valid then s.(entries := s.entries[r := Entry(listOffset, |row|)])
    else s
  }

  lemma {:induction false} RemainingAppend(lengths: seq<nat>, n: nat, r: nat)
    requires r <= |lengths|
    ensures Remaining(lengths + [n], r) == Remaining(lengths, r) + n
    decreases |lengths| - r
  {
    if r < |lengths| {
      RemainingAppend(lengths, n, r + 1);
    }
  }

  lemma BeginValid<T>(f: Functor<T>, s: State<T>, r: nat, row: seq<Slot>, valid: bool, listOffset: nat)
    requires s.Valid() && r < |s.entries| && (f.ListFilter? ==> |s.lengths| == r)
    ensures Begin(f, s, r, row, valid, listOffset).Valid()
    ensures f.ListFilter? ==> Begin(f, s, r, row, valid, listOffset).Left() == s.Left() + |row|
  {
    RemainingAppend(s.lengths, |row|, s.cursor.rowIdx);
  }

  /** The state after some rows: what is built, the batch not run yet, and the next list_transform offset. */
  datatype Run<T> = Run(s: State<T>, batch: seq<Slot>, listOffset: nat)

  function RowRun<T>(f: Functor<T>, input: Input<T>, size: nat, before: Run<T>, r: nat): (run: Run<T>)
    requires input.Valid() && size > 0 && r < |input.sel|
    requires before.s.Valid() && |before.s.entries| == |input.sel|
    requires |before.batch| <= size && InChild(before.batch, |input.child|)
    requires f.ListFilter? ==> |before.s.lengths| == r && before.s.Left() == |before.batch|
    ensures run.s.Valid() && |run.s.entries| == |input.sel| && |run.batch| <= size && InChild(run.batch, |input.child|)
    ensures f.ListFilter? ==> |run.s.lengths| == r + 1 && run.s.Left() == |run.batch|
  {
    var row, valid := input.RowSlots(r), input.RowIsValid(r);
    BeginValid(f, before.s, r, row, valid, before.listOffset);
    var (t, batch) := Pack(f, input.child, size, Begin(f, before.s, r, row, valid, before.listOffset), before.batch,
                           row);
    Run(t, batch, if f.ListFilter? then before.listOffset else before.listOffset + |row|)
  }

  function RunRows<T>(f: Functor<T>, input: Input<T>, size: nat, entries0: seq<Entry>, n: nat): (run: Run<T>)
    requires input.Valid() && size > 0 && n <= |input.sel| == |entries0|
    ensures run.s.Valid() && |run.s.entries| == |input.sel| && |run.batch| <= size && InChild(run.batch, |input.child|)
    ensures f.ListFilter? ==> |run.s.lengths| == n && run.s.Left() == |run.batch|
  {
    if n == 0 then Run(State([], Cursor(0, 0, 0, 0), entries0, []), [], 0)
    else RowRun(f, input, size, RunRows(f, input, size, entries0, n - 1), n - 1)
  }

  // ---------------------------------------------------------------- where the cursor is

  /** The elements from position `src` of row `r` on. */
  function Stream(rows: seq<seq<Slot>>, r: nat, src: nat): seq<Slot>
    requires r <= |rows| && (r < |rows| ==> src <= |rows[r]|)
    decreases |rows| - r, if r < |rows| then |rows[r]| - src else 0
  {
    if r == |rows| then []
    else if src == |rows[r]| then Stream(rows, r + 1, 0)
    else [rows[r][src]] + Stream(rows, r, src + 1)
  }

  /** In the middle of a row that has elements, or between two rows. */
  predicate In(c: Cursor, rows: seq<seq<Slot>>) {
    && c.rowIdx <= |rows|
    && (c.srcLength == 0 || (c.rowIdx < |rows| && c.srcLength < |rows[c.rowIdx]|))
  }

  function Rest(c: Cursor, rows: seq<seq<Slot>>): seq<Slot>
    requires In(c, rows)
  {
    Stream(rows, c.rowIdx, c.srcLength)
  }

  /** What the elements before position `src` of row `r` come to. */
  ghost function Emitted<T>(f: Functor<T>, child: seq<T>, rows: seq<seq<Slot>>, r: nat, src: nat): seq<T>
    requires RowsInChild(rows, |child|)
    requires r <= |rows| && (r < |rows| ==> src <= |rows[r]|) && (r == |rows| ==> src == 0)
    decreases r, src
  {
    if src > 0 then Emitted(f, child, rows, r, src - 1) + EmitOne(f, child, rows[r][src - 1])
    else if r > 0 then Emitted(f, child, rows, r - 1, |rows[r - 1]|)
    else []
  }

  ghost function EmittedBy<T>(f: Functor<T>, child: seq<T>, rows: seq<seq<Slot>>, c: Cursor): seq<T>
    requires RowsInChild(rows, |child|) && In(c, rows)
  {
    Emitted(f, child, rows, c.rowIdx, c.srcLength)
  }

  /** The entry of row r delimits what the row emits. */
  ghost predicate Entered<T>(f: Functor<T>, child: seq<T>, rows: seq<seq<Slot>>, e: Entry, r: nat)
    requires RowsInChild(rows, |child|) && r < |rows|
  {
    && e.offset == |Emitted(f, child, rows, r, 0)|
    && e.offset + e.length == |Emitted(f, child, rows, r + 1, 0)|
  }

  /** The cursor's sums and the entries set so far agree with what has been consumed. */
  ghost predicate Sound<T>(f: Functor<T>, child: seq<T>, rows: seq<seq<Slot>>, c: Cursor, entries: seq<Entry>)
    requires RowsInChild(rows, |child|)
  {
    && In(c, rows)
    && |entries| >= |rows|
    && c.offset == |Emitted(f, child, rows, c.rowIdx, 0)|
    && c.offset + c.length == |EmittedBy(f, child, rows, c)|
    && (forall r :: 0 <= r < c.rowIdx ==> Entered(f, child, rows, entries[r], r))
  }

  predicate Matches(lengths: seq<nat>, rows: seq<seq<Slot>>) {
    |lengths| == |rows| && forall r :: 0 <= r < |rows| ==> lengths[r] == |rows[r]|
  }

  lemma {:induction false} SkipRowsSound<T>(f: Functor<T>, child: seq<T>, rows: seq<seq<Slot>>, s: State<T>)
    requires RowsInChild(rows, |child|) && s.Valid() && Matches(s.lengths, rows)
    requires Sound(f, child, rows, s.cursor, s.entries)
    ensures var t := SkipRows(s);
            && Sound(f, child, rows, t.cursor, t.entries)
            && Rest(t.cursor, rows) == Rest(s.cursor, rows)
            && EmittedBy(f, child, rows, t.cursor) == EmittedBy(f, child, rows, s.cursor)
    decreases |s.lengths| - s.cursor.rowIdx
  {
    var c := s.cursor;
    if c.rowIdx < |s.lengths| && s.lengths[c.rowIdx] == 0 {
      var t := s.(cursor := c.(rowIdx := c.rowIdx + 1), entries := s.entries[c.rowIdx := Entry(c.offset, 0)]);
      assert Emitted(f, child, rows, c.rowIdx + 1, 0) == Emitted(f, child, rows, c.rowIdx, 0);
      SkipRowsSound(f, child, rows, t);
    }
  }

  /** Consuming one element, and closing its row with the last one. */
  lemma ConsumeSound<T>(f: Functor<T>, child: seq<T>, rows: seq<seq<Slot>>, s: State<T>)
    requires f.ListFilter? && RowsInChild(rows, |child|) && s.Valid() && Matches(s.lengths, rows)
    requires Sound(f, child, rows, s.cursor, s.entries)
    requires s.cursor.rowIdx < |rows| && s.lengths[s.cursor.rowIdx] > 0
    ensures var slot := rows[s.cursor.rowIdx][s.cursor.srcLength];
            && InChild(rows[s.cursor.rowIdx], |child|)
            && var t := Consume(s, Keeps(f, child, slot));
            && Sound(f, child, rows, t.cursor, t.entries)
            && Rest(s.cursor, rows) == [slot] + Rest(t.cursor, rows)
            && EmittedBy(f, child, rows, t.cursor) == EmittedBy(f, child, rows, s.cursor) + EmitOne(f, child, slot)
  {
    var c := s.cursor;
    assert InChild(rows[c.rowIdx], |child|);
    var slot := rows[c.rowIdx][c.srcLength];
    assert Emitted(f, child, rows, c.rowIdx, c.srcLength + 1) ==
           Emitted(f, child, rows, c.rowIdx, c.srcLength) + EmitOne(f, child, slot);
    if c.srcLength + 1 == |rows[c.rowIdx]| {
      assert Emitted(f, child, rows, c.rowIdx + 1, 0) == Emitted(f, child, rows, c.rowIdx, c.srcLength + 1);
      assert Stream(rows, c.rowIdx, c.srcLength + 1) == Stream(rows, c.rowIdx + 1, 0);
    }
  }

  /** One batch of list_filter, wherever it cuts the rows. */
  lemma {:induction false} AppendSound<T>(f: Functor<T>, child: seq<T>, rows: seq<seq<Slot>>, s: State<T>,
                                          slots: seq<Slot>, rest: seq<Slot>)
    requires f.ListFilter? && RowsInChild(rows, |child|) && InChild(slots, |child|)
    requires s.Valid() && s.Left() >= |slots| && Matches(s.lengths, rows)
    requires Sound(f, child, rows, s.cursor, s.entries) && Rest(s.cursor, rows) == slots + rest
    ensures var t := Append(f, child, s, slots);
            && Sound(f, child, rows, t.cursor, t.entries)
            && Rest(t.cursor, rows) == rest
            && EmittedBy(f, child, rows, t.cursor) == EmittedBy(f, child, rows, s.cursor) + Emit(f, child, slots)
    decreases |slots|
  {
    SkipRowsSound(f, child, rows, s);
    if slots == [] {
      assert slots + rest == rest;
    } else {
      AppendStepSound(f, child, rows, SkipRows(s), slots, rest);
      var u := Consume(SkipRows(s), Keeps(f, child, slots[0]));
      AppendSound(f, child, rows, u, slots[1..], rest);
      EmitHead(f, child, slots);
      Assoc(EmittedBy(f, child, rows, s.cursor), EmitOne(f, child, slots[0]), Emit(f, child, slots[1..]));
    }
  }

  lemma AppendStepSound<T>(f: Functor<T>, child: seq<T>, rows: seq<seq<Slot>>, s: State<T>, slots: seq<Slot>,
                           rest: seq<Slot>)
    requires f.ListFilter? && RowsInChild(rows, |child|) && InChild(slots, |child|) && slots != []
    requires s.Valid() && s.Left() >= |slots| && Matches(s.lengths, rows)
    requires s.cursor.rowIdx < |rows| ==> s.lengths[s.cursor.rowIdx] > 0
    requires Sound(f, child, rows, s.cursor, s.entries) && Rest(s.cursor, rows) == slots + rest
    ensures s.cursor.rowIdx < |rows|
    ensures var t := Consume(s, Keeps(f, child, slots[0]));
            && Sound(f, child, rows, t.cursor, t.entries)
            && Rest(t.cursor, rows) == slots[1..] + rest
            && EmittedBy(f, child, rows, t.cursor) == EmittedBy(f, child, rows, s.cursor) + EmitOne(f, child, slots[0])
  {
    ConsumeSound(f, child, rows, s);
    var slot := rows[s.cursor.rowIdx][s.cursor.srcLength];
    HeadTail(slots, rest);
    SameHeadTail(slot, Rest(Consume(s, Keeps(f, child, slot)).cursor, rows), slots[0], slots[1..] + rest);
  }

  // ---------------------------------------------------------------- rows become known one by one

  /** The rest of a row, then the rows after it. */
  lemma {:induction false} StreamOfRow(rows: seq<seq<Slot>>, r: nat, src: nat)
    requires r < |rows| && src <= |rows[r]|
    ensures Stream(rows, r, src) == rows[r][src..] + Stream(rows, r + 1, 0)
    decreases |rows[r]| - src
  {
    if src == |rows[r]| {
      assert rows[r][src..] == [];
    } else {
      StreamOfRow(rows, r, src + 1);
      assert rows[r][src..] == [rows[r][src]] + rows[r][src + 1..];
    }
  }

  lemma {:induction false} StreamGrows(rows: seq<seq<Slot>>, row: seq<Slot>, r: nat, src: nat)
    requires r <= |rows| && (r < |rows| ==> src <= |rows[r]|) && (r == |rows| ==> src == 0)
    ensures Stream(rows + [row], r, src) == Stream(rows, r, src) + row
    decreases |rows| - r, if r < |rows| then |rows[r]| - src else 0
  {
    var more := rows + [row];
    if r == |rows| {
      StreamOfRow(more, r, 0);
      assert more[r][0..] == row && Stream(more, r + 1, 0) == [] && Stream(rows, r, src) == [];
      assert row + [] == [] + row == row;
    } else if src == |rows[r]| {
      StreamGrows(rows, row, r + 1, 0);
      assert Stream(more, r, src) == Stream(more, r + 1, 0) && Stream(rows, r, src) == Stream(rows, r + 1, 0);
    } else {
      StreamGrows(rows, row, r, src + 1);
      Assoc([rows[r][src]], Stream(rows, r, src + 1), row);
    }
  }

  lemma {:induction false} EmittedGrows<T>(f: Functor<T>, child: seq<T>, rows: seq<seq<Slot>>, row: seq<Slot>, r: nat,
                                           src: nat)
    requires RowsInChild(rows, |child|) && InChild(row, |child|)
    requires r <= |rows| && (r < |rows| ==> src <= |rows[r]|) && (r == |rows| ==> src == 0)
    ensures Emitted(f, child, rows + [row], r, src) == Emitted(f, child, rows, r, src)
    decreases r, src
  {
    if src > 0 {
      EmittedGrows(f, child, rows, row, r, src - 1);
    } else if r > 0 {
      EmittedGrows(f, child, rows, row, r - 1, |rows[r - 1]|);
    }
  }

  /** What was entered for the earlier rows stays right. */
  lemma EnteredGrows<T>(f: Functor<T>, child: seq<T>, rows: seq<seq<Slot>>, row: seq<Slot>, e: Entry, r: nat)
    requires RowsInChild(rows, |child|) && InChild(row, |child|) && r < |rows| && Entered(f, child, rows, e, r)
    ensures Entered(f, child, rows + [row], e, r)
  {
    EmittedGrows(f, child, rows, row, r, 0);
    EmittedGrows(f, child, rows, row, r + 1, 0);
  }

  lemma SoundGrows<T>(f: Functor<T>, child: seq<T>, rows: seq<seq<Slot>>, row: seq<Slot>, c: Cursor,
                      entries: seq<Entry>)
    requires RowsInChild(rows, |child|) && InChild(row, |child|) && |entries| > |rows|
    requires Sound(f, child, rows, c, entries)
    ensures Sound(f, child, rows + [row], c, entries)
    ensures Rest(c, rows + [row]) == Rest(c, rows) + row
    ensures EmittedBy(f, child, rows + [row], c) == EmittedBy(f, child, rows, c)
  {
    StreamGrows(rows, row, c.rowIdx, c.srcLength);
    EmittedGrows(f, child, rows, row, c.rowIdx, 0);
    EmittedGrows(f, child, rows, row, c.rowIdx, c.srcLength);
    forall r | 0 <= r < c.rowIdx ensures Entered(f, child, rows + [row], entries[r], r) {
      EnteredGrows(f, child, rows, row, entries[r], r);
    }
  }

  // ---------------------------------------------------------------- all rows

  /** All is done for the rows but for the pending elements. */
  ghost predicate Progress<T>(f: Functor<T>, child: seq<T>, rows: seq<seq<Slot>>, valid: seq<bool>, s: State<T>,
                              pending: seq<Slot>)
    requires RowsInChild(rows, |child|) && InChild(pending, |child|) && |valid| == |rows| <= |s.entries|
  {
    if f.ListFilter? then
      && s.Valid() && Matches(s.lengths, rows)
      && Sound(f, child, rows, s.cursor, s.entries)
      && Rest(s.cursor, rows) == pending
      && s.out == EmittedBy(f, child, rows, s.cursor)
    else
      && s.out + Emit(f, child, pending) == Emitted(f, child, rows, |rows|, 0)
      && forall r :: 0 <= r < |rows| && valid[r] ==> Entered(f, child, rows, s.entries[r], r)
  }

  lemma FlushSound<T>(f: Functor<T>, child: seq<T>, rows: seq<seq<Slot>>, valid: seq<bool>, s: State<T>,
                      slots: seq<Slot>, rest: seq<Slot>)
    requires RowsInChild(rows, |child|) && InChild(slots, |child|) && InChild(rest, |child|)
    requires |valid| == |rows| <= |s.entries| && s.Valid() && (f.ListFilter? ==> s.Left() >= |slots|)
    requires Progress(f, child, rows, valid, s, slots + rest)
    ensures Progress(f, child, rows, valid, Flush(f, child, s, slots), rest)
  {
    if f.ListFilter? {
      AppendSound(f, child, rows, s, slots, rest);
    } else {
      EmitConcat(f, child, slots, rest);
    }
  }

  lemma {:induction false} PackSound<T>(f: Functor<T>, child: seq<T>, rows: seq<seq<Slot>>, valid: seq<bool>, size: nat,
                                      s: State<T>, batch: seq<Slot>, row: seq<Slot>)
    requires RowsInChild(rows, |child|) && InChild(batch, |child|) && InChild(row, |child|)
    requires |valid| == |rows| <= |s.entries| && size > 0 && |batch| <= size
    requires s.Valid() && (f.ListFilter? ==> s.Left() == |batch| + |row|)
    requires Progress(f, child, rows, valid, s, batch + row)
    ensures var (t, packed) := Pack(f, child, size, s, batch, row);
            Progress(f, child, rows, valid, t, packed)
    decreases |row|
  {
    if row == [] {
      assert batch + row == batch;
    } else {
      var (t, packed) := PackOne(f, child, size, s, batch, row[0]);
      if |batch| == size {
        FlushSound(f, child, rows, valid, s, batch, row);
        assert packed + row[1..] == row;
      } else {
        assert packed + row[1..] == batch + row;
      }
      PackSound(f, child, rows, valid, size, t, packed, row[1..]);
    }
  }

  /** A whole row on top of the rows before it. */
  lemma {:induction false} EmittedRow<T>(f: Functor<T>, child: seq<T>, rows: seq<seq<Slot>>, r: nat, src: nat)
    requires RowsInChild(rows, |child|) && r < |rows| && src <= |rows[r]|
    ensures Emitted(f, child, rows, r, src) == Emitted(f, child, rows, r, 0) + Emit(f, child, rows[r][..src])
  {
    if src > 0 {
      EmittedRow(f, child, rows, r, src - 1);
      EmitNext(f, child, rows[r], src - 1);
      Assoc(Emitted(f, child, rows, r, 0), Emit(f, child, rows[r][..src - 1]), EmitOne(f, child, rows[r][src - 1]));
    }
  }

  lemma BeginFilterSound<T>(f: Functor<T>, child: seq<T>, rows: seq<seq<Slot>>, valid: seq<bool>, s: State<T>,
                            pending: seq<Slot>, row: seq<Slot>, isValid: bool)
    requires RowsInChild(rows, |child|) && InChild(pending, |child|) && InChild(row, |child|)
    requires |valid| == |rows| < |s.entries| && f.ListFilter? && Progress(f, child, rows, valid, s, pending)
    ensures Progress(f, child, rows + [row], valid + [isValid], s.(lengths := s.lengths + [|row|]), pending + row)
  {
    SoundGrows(f, child, rows, row, s.cursor, s.entries);
  }

  lemma {:induction false} MapKeepsLength<T>(f: Functor<T>, child: seq<T>, slots: seq<Slot>)
    requires f.ListTransform? && InChild(slots, |child|)
    ensures |Emit(f, child, slots)| == |slots|
  {
    if slots != [] {
      MapKeepsLength(f, child, slots[..|slots| - 1]);
    }
  }

  lemma BeginTransformSound<T>(f: Functor<T>, child: seq<T>, rows: seq<seq<Slot>>, valid: seq<bool>, s: State<T>,
                               pending: seq<Slot>, row: seq<Slot>, isValid: bool, listOffset: nat)
    requires RowsInChild(rows, |child|) && InChild(pending, |child|) && InChild(row, |child|)
    requires |valid| == |rows| < |s.entries| && f.ListTransform? && Progress(f, child, rows, valid, s, pending)
    requires listOffset == |Emitted(f, child, rows, |rows|, 0)|
    ensures Progress(f, child, rows + [row], valid + [isValid], Begin(f, s, |rows|, row, isValid, listOffset),
                     pending + row)
    ensures listOffset + |row| == |Emitted(f, child, rows + [row], |rows| + 1, 0)|
  {
    var more, t := rows + [row], Begin(f, s, |rows|, row, isValid, listOffset);
    EmittedGrows(f, child, rows, row, |rows|, 0);
    EmittedRow(f, child, rows + [row], |rows|, |row|);
    assert row[..|row|] == row;
    MapKeepsLength(f, child, row);
    EmitConcat(f, child, pending, row);
    Assoc(s.out, Emit(f, child, pending), Emit(f, child, row));
    forall r | 0 <= r < |rows| && valid[r] ensures Entered(f, child, more, t.entries[r], r) {
      EnteredGrows(f, child, rows, row, s.entries[r], r);
    }
    assert isValid ==> Entered(f, child, more, t.entries[|rows|], |rows|);
  }

  ghost function Validity<T>(input: Input<T>, n: nat): (v: seq<bool>)
    requires input.Valid() && n <= |input.sel|
    ensures |v| == n
  {
    seq(n, r requires 0 <= r < n => input.RowIsValid(r))
  }

  /** The run is sound after some rows. */
  ghost predicate RunSound<T>(f: Functor<T>, child: seq<T>, rows: seq<seq<Slot>>, valid: seq<bool>, run: Run<T>)
    requires RowsInChild(rows, |child|) && InChild(run.batch, |child|) && |valid| == |rows| <= |run.s.entries|
  {
    && Progress(f, child, rows, valid, run.s, run.batch)
    && (f.ListTransform? ==> run.listOffset == |Emitted(f, child, rows, |rows|, 0)|)
  }

  lemma RowIsSound<T>(f: Functor<T>, input: Input<T>, size: nat, before: Run<T>, r: nat, rows: seq<seq<Slot>>,
                      valid: seq<bool>, more: seq<seq<Slot>>, moreValid: seq<bool>)
    requires input.Valid() && size > 0 && r < |input.sel| && |rows| == |valid| == r && RowsInChild(rows, |input.child|)
    requires before.s.Valid() && |before.s.entries| == |input.sel|
    requires |before.batch| <= size && InChild(before.batch, |input.child|)
    requires f.ListFilter? ==> |before.s.lengths| == r && before.s.Left() == |before.batch|
    requires RunSound(f, input.child, rows, valid, before)
    requires more == rows + [input.RowSlots(r)] && moreValid == valid + [input.RowIsValid(r)]
    ensures RunSound(f, input.child, more, moreValid, RowRun(f, input, size, before, r))
  {
    var row, isValid := input.RowSlots(r), input.RowIsValid(r);
    var begun := Begin(f, before.s, r, row, isValid, before.listOffset);
    BeginValid(f, before.s, r, row, isValid, before.listOffset);
    if f.ListFilter? {
      BeginFilterSound(f, input.child, rows, valid, before.s, before.batch, row, isValid);
    } else {
      BeginTransformSound(f, input.child, rows, valid, before.s, before.batch, row, isValid, before.listOffset);
    }
    PackSound(f, input.child, more, moreValid, size, begun, before.batch, row);
  }

  lemma RowsNext<T>(input: Input<T>, n: nat)
    requires input.Valid() && n < |input.sel|
    ensures input.Rows(n + 1) == input.Rows(n) + [input.RowSlots(n)]
    ensures Validity(input, n + 1) == Validity(input, n) + [input.RowIsValid(n)]
  {
  }

  lemma StartIsSound<T>(f: Functor<T>, input: Input<T>, size: nat, entries0: seq<Entry>)
    requires input.Valid() && size > 0 && |input.sel| == |entries0|
    ensures RunSound(f, input.child, [], [], RunRows(f, input, size, entries0, 0))
  {
  }

  lemma NextRowIsSound<T>(f: Functor<T>, input: Input<T>, size: nat, before: Run<T>, after: Run<T>, r: nat)
    requires input.Valid() && size > 0 && r < |input.sel|
    requires before.s.Valid() && |before.s.entries| == |input.sel|
    requires |before.batch| <= size && InChild(before.batch, |input.child|)
    requires f.ListFilter? ==> |before.s.lengths| == r && before.s.Left() == |before.batch|
    requires RunSound(f, input.child, input.Rows(r), Validity(input, r), before)
    requires after == RowRun(f, input, size, before, r)
    ensures RunSound(f, input.child, input.Rows(r + 1), Validity(input, r + 1), after)
  {
    RowsNext(input, r);
    RowIsSound(f, input, size, before, r, input.Rows(r), Validity(input, r), input.Rows(r + 1), Validity(input, r + 1));
  }

  lemma {:induction false} RunIsSound<T>(f: Functor<T>, input: Input<T>, size: nat, entries0: seq<Entry>, n: nat,
                                         run: Run<T>)
    requires input.Valid() && size > 0 && n <= |input.sel| == |entries0|
    requires run == RunRows(f, input, size, entries0, n)
    ensures RunSound(f, input.child, input.Rows(n), Validity(input, n), run)
  {
    if n == 0 {
      StartIsSound(f, input, size, entries0);
      assert input.Rows(0) == [] && Validity(input, 0) == [];
    } else {
      var before := RunRows(f, input, size, entries0, n - 1);
      RunIsSound(f, input, size, entries0, n - 1, before);
      NextRowIsSound(f, input, size, before, run, n - 1);
    }
  }

  lemma {:induction false} EmittedIsEmitRows<T>(f: Functor<T>, child: seq<T>, rows: seq<seq<Slot>>, r: nat)
    requires RowsInChild(rows, |child|) && r <= |rows|
    ensures Emitted(f, child, rows, r, 0) == EmitRows(f, child, rows[..r])
  {
    if r > 0 {
      EmittedIsEmitRows(f, child, rows, r - 1);
      EmittedRow(f, child, rows, r - 1, |rows[r - 1]|);
      assert rows[r - 1][..|rows[r - 1]|] == rows[r - 1];
      EmitRowsNext(f, child, rows, r - 1);
    }
  }

  lemma EnteredIsEntryOf<T>(f: Functor<T>, child: seq<T>, rows: seq<seq<Slot>>, e: Entry, r: nat)
    requires RowsInChild(rows, |child|) && r < |rows| && Entered(f, child, rows, e, r)
    ensures e == EntryOf(f, child, rows, r)
  {
    EmittedIsEmitRows(f, child, rows, r);
    EmittedIsEmitRows(f, child, rows, r + 1);
    EmitRowsNext(f, child, rows, r);
  }

  lemma StreamNonEmpty(rows: seq<seq<Slot>>, r: nat, src: nat)
    requires r < |rows| && src < |rows[r]|
    ensures Stream(rows, r, src) != []
  {
  }

  /** With nothing left, the trailing skip has brought the cursor to the end. */
  lemma NothingLeft<T>(f: Functor<T>, child: seq<T>, rows: seq<seq<Slot>>, s: State<T>)
    requires RowsInChild(rows, |child|) && s.Valid() && Matches(s.lengths, rows)
    requires Sound(f, child, rows, s.cursor, s.entries) && Rest(s.cursor, rows) == []
    requires s.cursor.rowIdx < |s.lengths| ==> s.lengths[s.cursor.rowIdx] > 0
    ensures s.cursor.rowIdx == |rows|
  {
    var c := s.cursor;
    if c.rowIdx != |rows| {
      StreamNonEmpty(rows, c.rowIdx, c.srcLength);
    }
  }

  lemma {:induction false} AppendEndsSkipped<T>(f: Functor<T>, child: seq<T>, s: State<T>, slots: seq<Slot>)
    requires f.ListFilter? && InChild(slots, |child|) && s.Valid() && s.Left() >= |slots|
    ensures var t := Append(f, child, s, slots);
            t.cursor.rowIdx < |t.lengths| ==> t.lengths[t.cursor.rowIdx] > 0
    decreases |slots|
  {
    if slots != [] {
      AppendEndsSkipped(f, child, Consume(SkipRows(s), Keeps(f, child, slots[0])), slots[1..]);
    }
  }

  /**
   After the last batch, for every vector size: the result child is the rows' own results end to end,
   and every entry delimits its row's (for list_transform, of the rows that are not NULL).
  */
  lemma BatchesBuildRows<T>(f: Functor<T>, input: Input<T>, size: nat, entries0: seq<Entry>)
    requires input.Valid() && size > 0 && |input.sel| == |entries0|
    ensures var n, run := |input.sel|, RunRows(f, input, size, entries0, |input.sel|);
            var t := Flush(f, input.child, run.s, run.batch);
            && t.out == EmitRows(f, input.child, input.Rows(n))
            && forall r :: 0 <= r < n && (f.ListFilter? || input.RowIsValid(r)) ==>
                 t.entries[r] == EntryOf(f, input.child, input.Rows(n), r)
  {
    var n, run, rows := |input.sel|, RunRows(f, input, size, entries0, |input.sel|), input.Rows(|input.sel|);
    RunIsSound(f, input, size, entries0, n, run);
    assert run.batch + [] == run.batch;
    FlushSound(f, input.child, rows, Validity(input, n), run.s, run.batch, []);
    var t := Flush(f, input.child, run.s, run.batch);
    if f.ListFilter? {
      AppendEndsSkipped(f, input.child, run.s, run.batch);
      NothingLeft(f, input.child, rows, t);
    }
    EmittedIsEmitRows(f, input.child, rows, n);
    assert rows[..n] == rows;
    forall r | 0 <= r < n && (f.ListFilter? || input.RowIsValid(r))
      ensures t.entries[r] == EntryOf(f, input.child, rows, r)
    {
      EnteredIsEntryOf(f, input.child, rows, t.entries[r], r);
    }
  }
}
