/**
 list_filter and list_transform, row by row: what the operator of
 src/duckdb/extension/core_functions/lambda_functions.cpp is meant to compute.
*/
module LambdaRows {
  import opened Wrappers

  datatype Entry = Entry(offset: nat, length: nat)

  /** One element in a batch: its place in the child vector, its row, and the index the lambda sees. */
  datatype Slot = Slot(child: nat, row: nat, index: Option<nat>)

  /** The lambda, given an element, its row (for captured columns) and its index; NULL is not TRUE. */
  datatype Functor<!T> =
    | ListFilter(keep: (T, nat, Option<nat>) -> Option<bool>)
    | ListTransform(fn: (T, nat, Option<nat>) -> T)

  /** The list column, in the engine's unified form, and the settings of the call. */
  datatype Input<T> = Input(sel: seq<nat>, validity: seq<bool>, entries: seq<Entry>, child: seq<T>,
                            hasIndex: bool, indexOffset: nat) {
    predicate Valid() {
      && |validity| == |entries|
      && (forall r :: 0 <= r < |sel| ==> sel[r] < |entries|)
      && (forall l :: 0 <= l < |entries| && validity[l] ==> entries[l].offset + entries[l].length <= |child|)
    }

    predicate RowIsValid(r: nat)
      requires Valid() && r < |sel|
    {
      validity[sel[r]]
    }

    /** The elements of a row, none for a NULL row. */
    function RowSlots(r: nat): (s: seq<Slot>)
      requires Valid() && r < |sel|
      ensures forall i :: 0 <= i < |s| ==> s[i].child < |child|
    {
      if !RowIsValid(r) then []
      else
        var e := entries[sel[r]];
        seq(e.length, k requires 0 <= k < e.length =>
            Slot(e.offset + k, r, if hasIndex then Some(k + indexOffset) else None))
    }

    function Rows(n: nat): (rows: seq<seq<Slot>>)
      requires Valid() && n <= |sel|
      ensures |rows| == n && RowsInChild(rows, |child|)
    {
      seq(n, r requires 0 <= r < n => RowSlots(r))
    }
  }

  // ---------------------------------------------------------------- the row-by-row meaning

  predicate InChild(slots: seq<Slot>, size: nat) {
    forall i :: 0 <= i < |slots| ==> slots[i].child < size
  }

  predicate RowsInChild(rows: seq<seq<Slot>>, size: nat) {
    forall r :: 0 <= r < |rows| ==> InChild(rows[r], size)
  }

  function EmitOne<T>(f: Functor<T>, child: seq<T>, s: Slot): seq<T>
    requires s.child < |child|
  {
    match f
    case ListFilter(keep) => if keep(child[s.child], s.row, s.index) == Some(true) then [child[s.child]] else []
    case ListTransform(fn) => [fn(child[s.child], s.row, s.index)]
  }

  /** What a list of elements becomes: those kept, in order, or all of them mapped. */
  function Emit<T>(f: Functor<T>, child: seq<T>, slots: seq<Slot>): seq<T>
    requires InChild(slots, |child|)
  {
    if slots == [] then []
    else Emit(f, child, slots[..|slots| - 1]) + EmitOne(f, child, slots[|slots| - 1])
  }

  /** The results of all rows, end to end. */
  function EmitRows<T>(f: Functor<T>, child: seq<T>, rows: seq<seq<Slot>>): seq<T>
    requires RowsInChild(rows, |child|)
  {
    if rows == [] then []
    else EmitRows(f, child, rows[..|rows| - 1]) + Emit(f, child, rows[|rows| - 1])
  }

  /** The entry of a row: it starts where the results of the rows before it end. */
  function EntryOf<T>(f: Functor<T>, child: seq<T>, rows: seq<seq<Slot>>, r: nat): Entry
    requires RowsInChild(rows, |child|) && r < |rows|
  {
    Entry(|EmitRows(f, child, rows[..r])|, |Emit(f, child, rows[r])|)
  }

  // Concatenation, one law at a time.

  lemma Assoc<A>(a: seq<A>, b: seq<A>, c: seq<A>)
    ensures (a + b) + c == a + (b + c)
  {
  }

  lemma HeadTail<A>(a: seq<A>, b: seq<A>)
    requires a != []
    ensures a + b == [a[0]] + (a[1..] + b)
  {
  }

  lemma SameHeadTail<A>(x: A, a: seq<A>, y: A, b: seq<A>)
    requires [x] + a == [y] + b
    ensures x == y && a == b
  {
    assert x == ([x] + a)[0] && y == ([y] + b)[0];
    assert a == ([x] + a)[1..] && b == ([y] + b)[1..];
  }

  lemma Middle<A>(a: seq<A>, b: seq<A>, c: seq<A>)
    requires a + b <= c
    ensures c[|a|..|a| + |b|] == b
  {
    assert c[..|a| + |b|] == a + b;
  }

  lemma {:induction false} EmitConcat<T>(f: Functor<T>, child: seq<T>, a: seq<Slot>, b: seq<Slot>)
    requires InChild(a, |child|) && InChild(b, |child|)
    ensures Emit(f, child, a + b) == Emit(f, child, a) + Emit(f, child, b)
  {
    if b == [] {
      assert a + b == a;
    } else {
      var front, last := b[..|b| - 1], b[|b| - 1];
      EmitConcat(f, child, a, front);
      assert (a + b)[..|a + b| - 1] == a + front;
      Assoc(Emit(f, child, a), Emit(f, child, front), EmitOne(f, child, last));
    }
  }

  lemma EmitNext<T>(f: Functor<T>, child: seq<T>, row: seq<Slot>, src: nat)
    requires InChild(row, |child|) && src < |row|
    ensures Emit(f, child, row[..src + 1]) == Emit(f, child, row[..src]) + EmitOne(f, child, row[src])
  {
    assert row[..src + 1][..src] == row[..src];
  }

  lemma EmitSingle<T>(f: Functor<T>, child: seq<T>, slot: Slot)
    requires slot.child < |child|
    ensures Emit(f, child, [slot]) == EmitOne(f, child, slot)
  {
    assert [slot][..0] == [];
  }

  lemma EmitHead<T>(f: Functor<T>, child: seq<T>, slots: seq<Slot>)
    requires InChild(slots, |child|) && slots != []
    ensures Emit(f, child, slots) == EmitOne(f, child, slots[0]) + Emit(f, child, slots[1..])
  {
    var rest := slots[1..];
    assert slots == [slots[0]] + rest;
    EmitConcat(f, child, [slots[0]], rest);
    EmitSingle(f, child, slots[0]);
  }

  lemma EmitRowsNext<T>(f: Functor<T>, child: seq<T>, rows: seq<seq<Slot>>, r: nat)
    requires RowsInChild(rows, |child|) && r < |rows|
    ensures EmitRows(f, child, rows[..r + 1]) == EmitRows(f, child, rows[..r]) + Emit(f, child, rows[r])
  {
    assert rows[..r + 1][..r] == rows[..r];
  }

  lemma {:induction false} EmitRowsPrefix<T>(f: Functor<T>, child: seq<T>, rows: seq<seq<Slot>>, r: nat)
    requires RowsInChild(rows, |child|) && r <= |rows|
    ensures EmitRows(f, child, rows[..r]) <= EmitRows(f, child, rows)
    decreases |rows| - r
  {
    if r == |rows| {
      assert rows[..r] == rows;
    } else {
      EmitRowsNext(f, child, rows, r);
      EmitRowsPrefix(f, child, rows, r + 1);
    }
  }

  /** So an entry delimits exactly its row's result in the concatenation. */
  lemma EntryDelimitsRow<T>(f: Functor<T>, child: seq<T>, rows: seq<seq<Slot>>, r: nat)
    requires RowsInChild(rows, |child|) && r < |rows|
    ensures var e := EntryOf(f, child, rows, r);
            && e.offset + e.length <= |EmitRows(f, child, rows)|
            && EmitRows(f, child, rows)[e.offset..e.offset + e.length] == Emit(f, child, rows[r])
            && (r + 1 < |rows| ==> EntryOf(f, child, rows, r + 1).offset == e.offset + e.length)
  {
    EmitRowsNext(f, child, rows, r);
    EmitRowsPrefix(f, child, rows, r + 1);
    Middle(EmitRows(f, child, rows[..r]), Emit(f, child, rows[r]), EmitRows(f, child, rows));
  }

  /** A NULL or empty list gives an entry of length 0, whatever the lambda. */
  lemma EmptyRowsGiveEmptyEntries<T>(f: Functor<T>, input: Input<T>, rows: seq<seq<Slot>>, r: nat)
    requires input.Valid() && RowsInChild(rows, |input.child|) && r < |rows| <= |input.sel|
             && rows[r] == input.RowSlots(r)
    requires !input.RowIsValid(r) || input.entries[input.sel[r]].length == 0
    ensures EntryOf(f, input.child, rows, r).length == 0
  {
    assert rows[r] == [];
  }

  lemma {:induction false} EmitIsMap<T>(fn: (T, nat, Option<nat>) -> T, child: seq<T>, slots: seq<Slot>)
    requires InChild(slots, |child|)
    ensures |Emit(ListTransform(fn), child, slots)| == |slots|
    ensures forall i :: 0 <= i < |slots| ==>
              Emit(ListTransform(fn), child, slots)[i] == fn(child[slots[i].child], slots[i].row, slots[i].index)
  {
    if slots != [] {
      EmitIsMap(fn, child, slots[..|slots| - 1]);
    }
  }
  // ---------------------------------------------------------------- what a caller sees

  /** The list of a row. */
  function ListOf<T>(input: Input<T>, r: nat): seq<T>
    requires input.Valid() && r < |input.sel| && input.validity[input.sel[r]]
  {
    var e := input.entries[input.sel[r]];
    input.child[e.offset..e.offset + e.length]
  }

  /** What the lambda sees as the index of the first element, if it sees indexes. */
  function FirstIndex<T>(input: Input<T>): Option<nat> {
    if input.hasIndex then Some(input.indexOffset) else None
  }

  function IndexAt(first: Option<nat>, k: nat): Option<nat> {
    if first.Some? then Some(first.value + k) else None
  }

  predicate KeepsElement<T>(keep: (T, nat, Option<nat>) -> Option<bool>, list: seq<T>, r: nat, first: Option<nat>,
                            k: nat)
    requires k < |list|
  {
    keep(list[k], r, IndexAt(first, k)) == Some(true)
  }

  /** `kept` holds the elements of the list at increasing positions p, which are exactly those kept of the first n. */
  ghost predicate Picks<T>(keep: (T, nat, Option<nat>) -> Option<bool>, list: seq<T>, r: nat, first: Option<nat>,
                           n: nat, p: seq<nat>, kept: seq<T>)
    requires n <= |list|
  {
    && |p| == |kept|
    && (forall i :: 0 <= i < |p| ==> p[i] < n && kept[i] == list[p[i]])
    && (forall i, j :: 0 <= i < j < |p| ==> p[i] < p[j])
    && (forall k :: 0 <= k < n ==> (k in p <==> KeepsElement(keep, list, r, first, k)))
  }

  /** A row of list_filter: what the lambda keeps of its list, in order. */
  ghost predicate IsFiltered<T>(keep: (T, nat, Option<nat>) -> Option<bool>, list: seq<T>, r: nat, first: Option<nat>,
                                kept: seq<T>) {
    exists p :: Picks(keep, list, r, first, |list|, p, kept)
  }

  /** A row of list_transform: the lambda's value for each element of its list. */
  ghost predicate IsTransformed<T>(fn: (T, nat, Option<nat>) -> T, list: seq<T>, r: nat, first: Option<nat>,
                                   values: seq<T>) {
    |values| == |list| && forall k :: 0 <= k < |list| ==> values[k] == fn(list[k], r, IndexAt(first, k))
  }

  /** The stretch of the result child that an entry delimits. */
  function Stretch<T>(out: seq<T>, q: Entry): seq<T>
    requires q.offset + q.length <= |out|
  {
    out[q.offset..q.offset + q.length]
  }

  /** How many elements the rows that are not NULL have before row n. */
  function LengthBefore<T>(input: Input<T>, n: nat): nat
    requires input.Valid() && n <= |input.sel|
  {
    if n == 0 then 0
    else
      LengthBefore(input, n - 1)
      + if input.validity[input.sel[n - 1]] then input.entries[input.sel[n - 1]].length else 0
  }

  /** The slots hold the elements of a list, in order, with the row and the index the lambda sees. */
  ghost predicate HoldList<T>(child: seq<T>, list: seq<T>, r: nat, first: Option<nat>, slots: seq<Slot>) {
    && |slots| == |list| && InChild(slots, |child|)
    && forall k :: 0 <= k < |list| ==>
         child[slots[k].child] == list[k] && slots[k].row == r && slots[k].index == IndexAt(first, k)
  }

  lemma SlotsHoldList<T>(input: Input<T>, r: nat)
    requires input.Valid() && r < |input.sel| && input.validity[input.sel[r]]
    ensures HoldList(input.child, ListOf(input, r), r, FirstIndex(input), input.RowSlots(r))
  {
  }

  lemma PicksNext<T>(keep: (T, nat, Option<nat>) -> Option<bool>, list: seq<T>, r: nat, first: Option<nat>, n: nat,
                     p: seq<nat>, kept: seq<T>)
    requires n < |list| && Picks(keep, list, r, first, n, p, kept)
    ensures if KeepsElement(keep, list, r, first, n) then Picks(keep, list, r, first, n + 1, p + [n], kept + [list[n]])
            else Picks(keep, list, r, first, n + 1, p, kept)
  {
    if KeepsElement(keep, list, r, first, n) {
      var more := p + [n];
      assert forall k :: 0 <= k < n ==> (k in more <==> k in p);
      assert more[|p|] == n;
    }
  }

  lemma {:induction false} PicksPrefix<T>(keep: (T, nat, Option<nat>) -> Option<bool>, child: seq<T>, list: seq<T>,
                                          r: nat, first: Option<nat>, slots: seq<Slot>, n: nat)
    returns (p: seq<nat>)
    requires HoldList(child, list, r, first, slots) && n <= |list|
    ensures Picks(keep, list, r, first, n, p, Emit(ListFilter(keep), child, slots[..n]))
  {
    if n == 0 {
      p := [];
    } else {
      var before := PicksPrefix(keep, child, list, r, first, slots, n - 1);
      var kept := Emit(ListFilter(keep), child, slots[..n - 1]);
      PicksNext(keep, list, r, first, n - 1, before, kept);
      EmitNext(ListFilter(keep), child, slots, n - 1);
      assert kept + [] == kept;
      p := if KeepsElement(keep, list, r, first, n - 1) then before + [n - 1] else before;
    }
  }

  lemma FilteredRow<T>(keep: (T, nat, Option<nat>) -> Option<bool>, input: Input<T>, r: nat, slots: seq<Slot>)
    requires input.Valid() && r < |input.sel| && slots == input.RowSlots(r)
    ensures if input.validity[input.sel[r]]
            then IsFiltered(keep, ListOf(input, r), r, FirstIndex(input), Emit(ListFilter(keep), input.child, slots))
            else Emit(ListFilter(keep), input.child, slots) == []
  {
    if input.validity[input.sel[r]] {
      SlotsHoldList(input, r);
      var p := PicksPrefix(keep, input.child, ListOf(input, r), r, FirstIndex(input), slots, |slots|);
      assert slots[..|slots|] == slots;
    }
  }

  lemma TransformedRow<T>(fn: (T, nat, Option<nat>) -> T, input: Input<T>, r: nat, slots: seq<Slot>)
    requires input.Valid() && r < |input.sel| && input.validity[input.sel[r]] && slots == input.RowSlots(r)
    ensures IsTransformed(fn, ListOf(input, r), r, FirstIndex(input), Emit(ListTransform(fn), input.child, slots))
  {
    SlotsHoldList(input, r);
    EmitIsMap(fn, input.child, slots);
  }

  lemma {:induction false} TransformedLength<T>(fn: (T, nat, Option<nat>) -> T, input: Input<T>, n: nat,
                                                rows: seq<seq<Slot>>)
    requires input.Valid() && n <= |input.sel| && rows == input.Rows(|input.sel|)
    ensures |EmitRows(ListTransform(fn), input.child, rows[..n])| == LengthBefore(input, n)
  {
    if n > 0 {
      TransformedLength(fn, input, n - 1, rows);
      EmitRowsNext(ListTransform(fn), input.child, rows, n - 1);
      EmitIsMap(fn, input.child, rows[n - 1]);
    }
  }

  /** The entries follow on each other and cover the result child. */
  predicate EndToEnd(entries: seq<Entry>, size: nat) {
    && (entries == [] ==> size == 0)
    && (entries != [] ==>
          entries[0].offset == 0 && entries[|entries| - 1].offset + entries[|entries| - 1].length == size)
    && forall r :: 0 <= r < |entries| - 1 ==> entries[r + 1].offset == entries[r].offset + entries[r].length
  }

  lemma EntriesFollow<T>(f: Functor<T>, child: seq<T>, rows: seq<seq<Slot>>, entries: seq<Entry>)
    requires RowsInChild(rows, |child|) && |entries| == |rows|
    requires forall r :: 0 <= r < |rows| ==> entries[r] == EntryOf(f, child, rows, r)
    ensures EndToEnd(entries, |EmitRows(f, child, rows)|)
  {
    forall r | 0 <= r < |rows|
      ensures |EmitRows(f, child, rows[..r + 1])| == entries[r].offset + entries[r].length
    {
      EmitRowsNext(f, child, rows, r);
    }
    assert rows[..|rows|] == rows;
  }

  /** A row of list_filter: its stretch of the result child is what the lambda keeps of its list; a NULL has none. */
  ghost predicate RowFiltered<T>(keep: (T, nat, Option<nat>) -> Option<bool>, input: Input<T>, r: nat, q: Entry,
                                 out: seq<T>)
    requires input.Valid() && r < |input.sel|
  {
    && q.offset + q.length <= |out|
    && if input.validity[input.sel[r]] then IsFiltered(keep, ListOf(input, r), r, FirstIndex(input), Stretch(out, q))
       else q.length == 0
  }

  /** A row of list_transform: its stretch, behind those of the rows before it, is the lambda's value per element. */
  ghost predicate RowTransformed<T>(fn: (T, nat, Option<nat>) -> T, input: Input<T>, r: nat, q: Entry, out: seq<T>)
    requires input.Valid() && r < |input.sel| && input.validity[input.sel[r]]
  {
    && q.offset == LengthBefore(input, r) && q.offset + q.length <= |out|
    && IsTransformed(fn, ListOf(input, r), r, FirstIndex(input), Stretch(out, q))
  }

  /** What list_filter gives: every row is filtered, and the entries follow on each other. */
  ghost predicate FilterResult<T>(keep: (T, nat, Option<nat>) -> Option<bool>, input: Input<T>, entries: seq<Entry>,
                                  out: seq<T>)
    requires input.Valid() && |entries| == |input.sel|
  {
    && EndToEnd(entries, |out|)
    && forall r :: 0 <= r < |entries| ==> RowFiltered(keep, input, r, entries[r], out)
  }

  /** What list_transform gives: every row that is not NULL is transformed, and there is nothing else. */
  ghost predicate TransformResult<T>(fn: (T, nat, Option<nat>) -> T, input: Input<T>, entries: seq<Entry>, out: seq<T>)
    requires input.Valid() && |entries| == |input.sel|
  {
    && |out| == LengthBefore(input, |input.sel|)
    && forall r :: 0 <= r < |entries| && input.validity[input.sel[r]] ==> RowTransformed(fn, input, r, entries[r], out)
  }

  lemma RowIsFiltered<T>(keep: (T, nat, Option<nat>) -> Option<bool>, input: Input<T>, rows: seq<seq<Slot>>, r: nat)
    requires input.Valid() && r < |rows| == |input.sel| && RowsInChild(rows, |input.child|)
    requires rows[r] == input.RowSlots(r)
    ensures RowFiltered(keep, input, r, EntryOf(ListFilter(keep), input.child, rows, r),
                        EmitRows(ListFilter(keep), input.child, rows))
  {
    EntryDelimitsRow(ListFilter(keep), input.child, rows, r);
    FilteredRow(keep, input, r, rows[r]);
  }

  lemma RowIsTransformed<T>(fn: (T, nat, Option<nat>) -> T, input: Input<T>, rows: seq<seq<Slot>>, r: nat)
    requires input.Valid() && r < |input.sel| && input.validity[input.sel[r]] && rows == input.Rows(|input.sel|)
    ensures RowTransformed(fn, input, r, EntryOf(ListTransform(fn), input.child, rows, r),
                           EmitRows(ListTransform(fn), input.child, rows))
  {
    TransformedLength(fn, input, r, rows);
    EntryDelimitsRow(ListTransform(fn), input.child, rows, r);
    TransformedRow(fn, input, r, rows[r]);
  }

  lemma RowsGiveFilterResult<T>(keep: (T, nat, Option<nat>) -> Option<bool>, input: Input<T>, rows: seq<seq<Slot>>,
                                entries: seq<Entry>)
    requires input.Valid() && |entries| == |input.sel| && rows == input.Rows(|input.sel|)
    requires forall r :: 0 <= r < |rows| ==> entries[r] == EntryOf(ListFilter(keep), input.child, rows, r)
    ensures FilterResult(keep, input, entries, EmitRows(ListFilter(keep), input.child, rows))
  {
    EntriesFollow(ListFilter(keep), input.child, rows, entries);
    forall r | 0 <= r < |entries|
      ensures RowFiltered(keep, input, r, entries[r], EmitRows(ListFilter(keep), input.child, rows))
    {
      RowIsFiltered(keep, input, rows, r);
    }
  }

  lemma RowsGiveTransformResult<T>(fn: (T, nat, Option<nat>) -> T, input: Input<T>, rows: seq<seq<Slot>>,
                                   entries: seq<Entry>)
    requires input.Valid() && |entries| == |input.sel| && rows == input.Rows(|input.sel|)
    requires forall r :: 0 <= r < |rows| && input.RowIsValid(r) ==>
               entries[r] == EntryOf(ListTransform(fn), input.child, rows, r)
    ensures TransformResult(fn, input, entries, EmitRows(ListTransform(fn), input.child, rows))
  {
    TransformedLength(fn, input, |rows|, rows);
    assert rows[..|rows|] == rows;
    forall r | 0 <= r < |entries| && input.validity[input.sel[r]]
      ensures RowTransformed(fn, input, r, entries[r], EmitRows(ListTransform(fn), input.child, rows))
    {
      RowIsTransformed(fn, input, rows, r);
      assert input.RowIsValid(r);
    }
  }
}
