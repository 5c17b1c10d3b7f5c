/**
 The parallel Parquet writer (src/duckdb/extension/parquet/parquet_extension.cpp): threads sink rows
 into buffers of their own, then flush or merge what is left under a lock, and the last step flushes
 the merged rest.

 A thread's step ends where it takes or gives up the lock; any thread may take the next step.
*/
module ParquetWrite {
  import opened Sequences
  import opened Wrappers

  type RowGroup<T> = seq<T>

  /** The size limits of a row group; the size of a buffer in bytes is a function of its rows. */
  datatype Limits<!T> = Limits(rows: nat, rowBytes: nat, bytes: seq<T> -> nat) {
    predicate Full(buffer: seq<T>) {
      |buffer| >= rows || bytes(buffer) >= rowBytes
    }

    predicate HalfFull(buffer: seq<T>) {
      |buffer| >= rows / 2 || bytes(buffer) >= rowBytes / 2
    }
  }

  /** What the threads share: the combine buffer, guarded by the lock, and the file written so far. */
  datatype Shared<T> = Shared(combine: Option<seq<T>>, groups: seq<RowGroup<T>>)

  /** A thread is sinking, or carries a full combine buffer it moved out of the lock, or is done. */
  datatype Thread<T> = Sinking(buffer: seq<T>) | Carrying(owned: seq<T>) | Done

  /** Flushing an empty buffer writes nothing. */
  function Flush<T>(groups: seq<RowGroup<T>>, buffer: seq<T>): seq<RowGroup<T>> {
    if buffer == [] then groups else groups + [buffer]
  }

  function SinkStep<T>(buffer: seq<T>, s: Shared<T>, chunk: seq<T>, limits: Limits<T>): (Thread<T>, Shared<T>) {
    var grown := buffer + chunk;
    if limits.Full(grown) then (Sinking([]), s.(groups := Flush(s.groups, grown)))
    else (Sinking(grown), s)
  }

  function CombineStep<T>(buffer: seq<T>, s: Shared<T>, limits: Limits<T>): (Thread<T>, Shared<T>) {
    if limits.HalfFull(buffer) then (Done, s.(groups := Flush(s.groups, buffer)))
    else if s.combine.Some? then
      var merged := s.combine.value + buffer;
      if limits.HalfFull(merged) then (Carrying(merged), s.(combine := None))
      else (Done, s.(combine := Some(merged)))
    else (Done, s.(combine := Some(buffer)))
  }

  function FinalizeStep<T>(s: Shared<T>): Shared<T> {
    if s.combine.Some? then Shared(Some([]), Flush(s.groups, s.combine.value)) else s
  }

  // ---------------------------------------------------------------- the code, field by field

  class Writer<T(==)> {
    var combineBuffer: Option<seq<T>>
    var rowGroups: seq<RowGroup<T>>
    const limits: Limits<T>

    constructor (limits: Limits<T>)
      ensures View() == Shared(None, []) && this.limits == limits
    {
      this.limits := limits;
      combineBuffer := None;
      rowGroups := [];
    }

    function View(): Shared<T>
      reads this
    {
      Shared(combineBuffer, rowGroups)
    }

    method FlushBuffer(buffer: seq<T>)
      modifies this`rowGroups
      ensures rowGroups == Flush(old(rowGroups), buffer)
    {
      if |buffer| == 0 {
        return;
      }
      rowGroups := rowGroups + [buffer];
    }

    method Sink(local: Local<T>, input: seq<T>)
      modifies this`rowGroups, local`buffer
      ensures (Sinking(local.buffer), View()) == SinkStep(old(local.buffer), old(View()), input, limits)
    {
      local.buffer := local.buffer + input;
      if |local.buffer| >= limits.rows || limits.bytes(local.buffer) >= limits.rowBytes {
        FlushBuffer(local.buffer);
        local.buffer := [];
      }
    }

    /** The locked part of Combine; a buffer returned is flushed once the lock is given up. */
    method Combine(local: Local<T>) returns (owned: Option<seq<T>>)
      modifies this, local`buffer
      ensures local.buffer == []
      ensures (if owned.Some? then Carrying(owned.value) else Done, View()) ==
              CombineStep(old(local.buffer), old(View()), limits)
    {
      owned := None;
      if |local.buffer| >= limits.rows / 2 || limits.bytes(local.buffer) >= limits.rowBytes / 2 {
        FlushBuffer(local.buffer);
        local.buffer := [];
        return;
      }
      if combineBuffer.Some? {
        combineBuffer := Some(combineBuffer.value + local.buffer);
        local.buffer := [];
        if |combineBuffer.value| >= limits.rows / 2 || limits.bytes(combineBuffer.value) >= limits.rowBytes / 2 {
          owned := combineBuffer;
          combineBuffer := None;
        }
        return;
      }
      combineBuffer := Some(local.buffer);
      local.buffer := [];
    }

    method Finalize()
      modifies this
      ensures View() == FinalizeStep(old(View()))
    {
      if combineBuffer.Some? {
        FlushBuffer(combineBuffer.value);
        combineBuffer := Some([]);
      }
    }
  }

  class Local<T(==)> {
    var buffer: seq<T>

    constructor ()
      ensures buffer == []
    {
      buffer := [];
    }
  }

  // ---------------------------------------------------------------- any interleaving

  /** All threads, what they share, and every row sunk so far. */
  datatype World<T> = World(threads: seq<Thread<T>>, shared: Shared<T>, sunk: seq<T>)

  datatype Event<T> = Sinks(t: nat, chunk: seq<T>) | Combines(t: nat) | FlushesOwned(t: nat)

  predicate Enabled<T>(w: World<T>, e: Event<T>) {
    && e.t < |w.threads|
    && match e
       case Sinks(t, _) => w.threads[t].Sinking?
       case Combines(t) => w.threads[t].Sinking?
       case FlushesOwned(t) => w.threads[t].Carrying?
  }

  function Apply<T>(w: World<T>, e: Event<T>, limits: Limits<T>): World<T>
    requires Enabled(w, e)
  {
    match e
    case Sinks(t, chunk) =>
      var (thread, shared) := SinkStep(w.threads[t].buffer, w.shared, chunk, limits);
      World(w.threads[t := thread], shared, w.sunk + chunk)
    case Combines(t) =>
      var (thread, shared) := CombineStep(w.threads[t].buffer, w.shared, limits);
      World(w.threads[t := thread], shared, w.sunk)
    case FlushesOwned(t) =>
      World(w.threads[t := Done], w.shared.(groups := Flush(w.shared.groups, w.threads[t].owned)), w.sunk)
  }

  ghost predicate IsRun<T>(w: World<T>, events: seq<Event<T>>, limits: Limits<T>)
    decreases |events|
  {
    events == [] || (Enabled(w, events[0]) && IsRun(Apply(w, events[0], limits), events[1..], limits))
  }

  ghost function After<T>(w: World<T>, events: seq<Event<T>>, limits: Limits<T>): World<T>
    requires IsRun(w, events, limits)
    decreases |events|
  {
    if events == [] then w else After(Apply(w, events[0], limits), events[1..], limits)
  }

  function Start<T>(n: nat): World<T> {
    World(seq(n, _ => Sinking([])), Shared(None, []), [])
  }

  function Content<T>(thread: Thread<T>): seq<T> {
    match thread
    case Sinking(b) => b
    case Carrying(b) => b
    case Done => []
  }

  function Combined<T>(s: Shared<T>): seq<T> {
    if s.combine.Some? then s.combine.value else []
  }

  /** Every row sunk is written, in a buffer, or carried: none is lost and none is there twice. */
  ghost predicate Conserved<T(!new)>(w: World<T>) {
    forall x :: ConservedOf(w, x)
  }

  ghost predicate ConservedOf<T>(w: World<T>, x: T) {
    Count(w.sunk, x) ==
    Count(Concat(w.shared.groups), x) + Sum(HeldCounts(w.threads, x)) + Count(Combined(w.shared), x)
  }

  /** How often x is held by each thread. */
  ghost function HeldCounts<T>(threads: seq<Thread<T>>, x: T): (r: seq<nat>)
    ensures |r| == |threads|
  {
    seq(|threads|, t requires 0 <= t < |threads| => Count(Content(threads[t]), x))
  }

  function Sum(counts: seq<nat>): nat {
    if counts == [] then 0 else Sum(counts[..|counts| - 1]) + counts[|counts| - 1]
  }

  lemma {:induction false} SumUpdate(counts: seq<nat>, t: nat, c: nat)
    requires t < |counts|
    ensures Sum(counts[t := c]) + counts[t] == Sum(counts) + c
  {
    var last := |counts| - 1;
    if t == last {
      assert counts[t := c][..last] == counts[..last];
    } else {
      SumUpdate(counts[..last], t, c);
      assert counts[t := c][..last] == counts[..last][t := c];
    }
  }

  lemma {:induction false} SumOfZeros(counts: seq<nat>)
    requires forall t :: 0 <= t < |counts| ==> counts[t] == 0
    ensures Sum(counts) == 0
  {
    if counts != [] {
      SumOfZeros(counts[..|counts| - 1]);
    }
  }

  /** The row groups are at least half full; what waits in the combine buffer is less. */
  predicate Sized<T>(w: World<T>, limits: Limits<T>) {
    && (w.shared.combine.Some? ==> !limits.HalfFull(w.shared.combine.value))
    && (forall i :: 0 <= i < |w.shared.groups| ==> limits.HalfFull(w.shared.groups[i]))
    && (forall t :: 0 <= t < |w.threads| && w.threads[t].Carrying? ==> limits.HalfFull(w.threads[t].owned))
  }

  lemma {:induction false} CountIsMultiplicity<T>(rows: seq<T>, x: T)
    ensures Count(rows, x) == multiset(rows)[x]
  {
    if rows != [] {
      CountIsMultiplicity(rows[..|rows| - 1], x);
      assert rows == rows[..|rows| - 1] + [rows[|rows| - 1]];
    }
  }

  lemma HeldUpdate<T>(threads: seq<Thread<T>>, t: nat, y: Thread<T>, x: T)
    requires t < |threads|
    ensures Sum(HeldCounts(threads[t := y], x)) + Count(Content(threads[t]), x) ==
            Sum(HeldCounts(threads, x)) + Count(Content(y), x)
  {
    var counts := HeldCounts(threads, x);
    SumUpdate(counts, t, Count(Content(y), x));
    assert HeldCounts(threads[t := y], x) == counts[t := Count(Content(y), x)];
  }

  lemma CountFlush<T>(groups: seq<RowGroup<T>>, buffer: seq<T>, x: T)
    ensures Count(Concat(Flush(groups, buffer)), x) == Count(Concat(groups), x) + Count(buffer, x)
  {
    if buffer != [] {
      assert (groups + [buffer])[..|groups|] == groups;
      CountConcat(Concat(groups), buffer, x);
    }
  }

  /** How often x is in a thread's hands, in the file, and in the combine buffer. */
  ghost function Around<T>(thread: Thread<T>, s: Shared<T>, x: T): nat {
    Count(Content(thread), x) + Count(Concat(s.groups), x) + Count(Combined(s), x)
  }

  lemma SinkMoves<T>(buffer: seq<T>, s: Shared<T>, chunk: seq<T>, limits: Limits<T>, x: T)
    ensures var (thread, after) := SinkStep(buffer, s, chunk, limits);
            Around(thread, after, x) == Around(Sinking(buffer), s, x) + Count(chunk, x)
  {
    CountConcat(buffer, chunk, x);
    if limits.Full(buffer + chunk) {
      CountFlush(s.groups, buffer + chunk, x);
    }
  }

  lemma CombineMoves<T>(buffer: seq<T>, s: Shared<T>, limits: Limits<T>, x: T)
    ensures var (thread, after) := CombineStep(buffer, s, limits);
            Around(thread, after, x) == Around(Sinking(buffer), s, x)
  {
    if limits.HalfFull(buffer) {
      CountFlush(s.groups, buffer, x);
    } else if s.combine.Some? {
      CountConcat(s.combine.value, buffer, x);
    }
  }

  /** A thread that moves what it holds, and takes on `more` of x, keeps the books. */
  lemma ThreadConserves<T>(w: World<T>, t: nat, thread: Thread<T>, shared: Shared<T>, sunk: seq<T>, more: nat, x: T)
    requires t < |w.threads| && ConservedOf(w, x)
    requires Around(thread, shared, x) == Around(w.threads[t], w.shared, x) + more
    requires Count(sunk, x) == Count(w.sunk, x) + more
    ensures ConservedOf(World(w.threads[t := thread], shared, sunk), x)
  {
    HeldUpdate(w.threads, t, thread, x);
  }

  lemma StepConserves<T>(w: World<T>, e: Event<T>, limits: Limits<T>, x: T)
    requires Enabled(w, e) && ConservedOf(w, x)
    ensures ConservedOf(Apply(w, e, limits), x)
  {
    match e {
      case Sinks(t, chunk) =>
        var (thread, shared) := SinkStep(w.threads[t].buffer, w.shared, chunk, limits);
        CountConcat(w.sunk, chunk, x);
        SinkMoves(w.threads[t].buffer, w.shared, chunk, limits, x);
        ThreadConserves(w, t, thread, shared, w.sunk + chunk, Count(chunk, x), x);
      case Combines(t) =>
        var (thread, shared) := CombineStep(w.threads[t].buffer, w.shared, limits);
        CombineMoves(w.threads[t].buffer, w.shared, limits, x);
        ThreadConserves(w, t, thread, shared, w.sunk, 0, x);
      case FlushesOwned(t) =>
        var owned := w.threads[t].owned;
        CountFlush(w.shared.groups, owned, x);
        ThreadConserves(w, t, Done, w.shared.(groups := Flush(w.shared.groups, owned)), w.sunk, 0, x);
    }
  }

  lemma StepKeepsSizes<T>(w: World<T>, e: Event<T>, limits: Limits<T>)
    requires Enabled(w, e) && Sized(w, limits)
    ensures Sized(Apply(w, e, limits), limits)
  {
  }

  lemma {:induction false} RunKeeps<T(!new)>(w: World<T>, events: seq<Event<T>>, limits: Limits<T>)
    requires IsRun(w, events, limits) && Conserved(w) && Sized(w, limits)
    ensures Conserved(After(w, events, limits)) && Sized(After(w, events, limits), limits)
    decreases |events|
  {
    if events != [] {
      forall x ensures ConservedOf(Apply(w, events[0], limits), x) {
        StepConserves(w, events[0], limits, x);
      }
      StepKeepsSizes(w, events[0], limits);
      RunKeeps(Apply(w, events[0], limits), events[1..], limits);
    }
  }

  lemma StartIsSound<T(!new)>(n: nat, limits: Limits<T>)
    ensures Conserved(Start<T>(n)) && Sized(Start<T>(n), limits)
  {
    forall x ensures ConservedOf(Start<T>(n), x) {
      SumOfZeros(HeldCounts(Start<T>(n).threads, x));
    }
  }

  /**
   Any number of threads, in any order: once all are done, finalizing leaves exactly the rows sunk in
   the file, and every row group but the one finalizing may add is at least half full.
  */
  lemma WritesEveryRowOnce<T(!new)>(n: nat, events: seq<Event<T>>, limits: Limits<T>)
    requires IsRun(Start<T>(n), events, limits)
    requires var w := After(Start<T>(n), events, limits); forall t :: 0 <= t < |w.threads| ==> w.threads[t].Done?
    ensures var w := After(Start<T>(n), events, limits);
            var file := FinalizeStep(w.shared).groups;
            && multiset(Concat(file)) == multiset(w.sunk)
            && w.shared.groups <= file && |file| <= |w.shared.groups| + 1
            && (forall i :: 0 <= i < |w.shared.groups| ==>
                  |file[i]| >= limits.rows / 2 || limits.bytes(file[i]) >= limits.rowBytes / 2)
  {
    StartIsSound(n, limits);
    RunKeeps(Start<T>(n), events, limits);
    var w := After(Start<T>(n), events, limits);
    var file := FinalizeStep(w.shared).groups;
    forall x ensures multiset(Concat(file))[x] == multiset(w.sunk)[x] {
      assert ConservedOf(w, x);
      SumOfZeros(HeldCounts(w.threads, x));
      CountFlush(w.shared.groups, Combined(w.shared), x);
      CountIsMultiplicity(Concat(file), x);
      CountIsMultiplicity(w.sunk, x);
    }
  }

  /** Whenever the lock is free, the combine buffer is below both half limits. */
  lemma CombineBufferStaysSmall<T(!new)>(n: nat, events: seq<Event<T>>, limits: Limits<T>)
    requires IsRun(Start<T>(n), events, limits)
    ensures var w := After(Start<T>(n), events, limits);
            w.shared.combine.Some? ==> |w.shared.combine.value| < limits.rows / 2
                                       && limits.bytes(w.shared.combine.value) < limits.rowBytes / 2
  {
    StartIsSound(n, limits);
    RunKeeps(Start<T>(n), events, limits);
  }

  // ---------------------------------------------------------------- where a row group comes from

  /** The rows thread t sinks in these events, in order. */
  ghost function Rows<T>(events: seq<Event<T>>, t: nat): seq<T> {
    if events == [] then []
    else
      var last := events[|events| - 1];
      Rows(events[..|events| - 1], t) + if last.Sinks? && last.t == t then last.chunk else []
  }

  /** What thread t sank from one event up to another. */
  datatype Piece = Piece(t: nat, from: nat, to: nat)

  ghost function PieceRows<T>(events: seq<Event<T>>, p: Piece): seq<T>
    requires p.from <= p.to <= |events|
  {
    Rows(events[p.from..p.to], p.t)
  }

  predicate Unfilled<T>(buffer: seq<T>, limits: Limits<T>) {
    buffer == [] || (|buffer| < limits.rows && limits.bytes(buffer) < limits.rowBytes)
  }

  /** A buffer holds what its thread sank since some event, and a full one is never held on to. */
  ghost predicate IsBuffer<T>(events: seq<Event<T>>, t: nat, buffer: seq<T>, limits: Limits<T>) {
    && Unfilled(buffer, limits)
    && exists from :: 0 <= from <= |events| && buffer == PieceRows(events, Piece(t, from, |events|))
  }

  /** The piece ends with the chunk that filled the buffer. */
  ghost predicate FilledBy<T>(events: seq<Event<T>>, p: Piece, limits: Limits<T>) {
    && p.from < p.to <= |events|
    && events[p.to - 1].Sinks? && events[p.to - 1].t == p.t
    && Unfilled(PieceRows(events, p.(to := p.to - 1)), limits)
    && (|PieceRows(events, p)| >= limits.rows || limits.bytes(PieceRows(events, p)) >= limits.rowBytes)
  }

  ghost predicate IsFilled<T>(events: seq<Event<T>>, group: seq<T>, limits: Limits<T>) {
    exists p :: FilledBy(events, p, limits) && group == PieceRows(events, p)
  }

  /** The piece is what its thread had left when it was combined. */
  ghost predicate LeftOver<T>(events: seq<Event<T>>, p: Piece) {
    p.from <= p.to < |events| && events[p.to] == Combines(p.t)
  }

  /** A thread's rest, written by itself: at least half full, but not full. */
  ghost predicate IsRest<T>(events: seq<Event<T>>, group: seq<T>, limits: Limits<T>) {
    && Unfilled(group, limits) && limits.HalfFull(group)
    && exists p :: LeftOver(events, p) && group == PieceRows(events, p)
  }

  /** Rests that are less than half full each, in the order in which their threads were combined. */
  ghost predicate SmallRests<T>(events: seq<Event<T>>, pieces: seq<Piece>, limits: Limits<T>) {
    && (forall i :: 0 <= i < |pieces| ==>
          LeftOver(events, pieces[i]) && !limits.HalfFull(PieceRows(events, pieces[i])))
    && (forall i, j :: 0 <= i < j < |pieces| ==> pieces[i].to < pieces[j].to)
  }

  ghost function Laid<T>(events: seq<Event<T>>, pieces: seq<Piece>): seq<T>
    requires forall i :: 0 <= i < |pieces| ==> LeftOver(events, pieces[i])
  {
    if pieces == [] then []
    else
      var last := pieces[|pieces| - 1];
      assert LeftOver(events, last);
      Laid(events, pieces[..|pieces| - 1]) + PieceRows(events, last)
  }

  /** What waits in the combine buffer: rests that are less than half full together. */
  ghost predicate IsWaiting<T>(events: seq<Event<T>>, rows: seq<T>, limits: Limits<T>) {
    && !limits.HalfFull(rows)
    && exists pieces :: SmallRests(events, pieces, limits) && rows == Laid(events, pieces)
  }

  /** The last of the rests is the one that makes them half full. */
  ghost predicate ReachHalf<T>(events: seq<Event<T>>, pieces: seq<Piece>, limits: Limits<T>) {
    && |pieces| > 0
    && SmallRests(events, pieces, limits)
    && !limits.HalfFull(Laid(events, pieces[..|pieces| - 1]))
    && limits.HalfFull(Laid(events, pieces))
  }

  ghost predicate IsMerged<T>(events: seq<Event<T>>, group: seq<T>, limits: Limits<T>) {
    exists pieces :: ReachHalf(events, pieces, limits) && group == Laid(events, pieces)
  }

  ghost predicate HasOrigin<T>(events: seq<Event<T>>, group: seq<T>, limits: Limits<T>) {
    group != [] && (IsFilled(events, group, limits) || IsRest(events, group, limits) || IsMerged(events, group, limits))
  }

  ghost predicate ThreadTracked<T>(events: seq<Event<T>>, t: nat, thread: Thread<T>, limits: Limits<T>) {
    match thread
    case Sinking(buffer) => IsBuffer(events, t, buffer, limits)
    case Carrying(owned) => IsMerged(events, owned, limits)
    case Done => true
  }

  /** Where everything in the world comes from, in terms of the events that led to it. */
  ghost predicate Tracked<T>(w: World<T>, events: seq<Event<T>>, limits: Limits<T>) {
    && (forall t :: 0 <= t < |w.threads| ==> ThreadTracked(events, t, w.threads[t], limits))
    && (w.shared.combine.Some? ==> IsWaiting(events, w.shared.combine.value, limits))
    && (forall i :: 0 <= i < |w.shared.groups| ==> HasOrigin(events, w.shared.groups[i], limits))
  }

  lemma RowsAppend<T>(events: seq<Event<T>>, e: Event<T>, t: nat)
    ensures Rows(events + [e], t) == Rows(events, t) + if e.Sinks? && e.t == t then e.chunk else []
  {
    assert (events + [e])[..|events|] == events;
  }

  lemma PieceStays<T>(events: seq<Event<T>>, e: Event<T>, p: Piece)
    requires p.from <= p.to <= |events|
    ensures PieceRows(events + [e], p) == PieceRows(events, p)
  {
    assert (events + [e])[p.from..p.to] == events[p.from..p.to];
  }

  lemma PieceGrows<T>(events: seq<Event<T>>, e: Event<T>, t: nat, from: nat)
    requires from <= |events|
    ensures PieceRows(events + [e], Piece(t, from, |events| + 1)) ==
            PieceRows(events, Piece(t, from, |events|)) + if e.Sinks? && e.t == t then e.chunk else []
  {
    assert (events + [e])[from..|events| + 1] == events[from..] + [e];
    assert events[from..|events|] == events[from..];
    RowsAppend(events[from..], e, t);
  }

  lemma {:induction false} LaidStays<T>(events: seq<Event<T>>, e: Event<T>, pieces: seq<Piece>)
    requires forall i :: 0 <= i < |pieces| ==> LeftOver(events, pieces[i])
    ensures forall i :: 0 <= i < |pieces| ==> LeftOver(events + [e], pieces[i])
    ensures Laid(events + [e], pieces) == Laid(events, pieces)
  {
    if pieces != [] {
      LaidStays(events, e, pieces[..|pieces| - 1]);
      PieceStays(events, e, pieces[|pieces| - 1]);
    }
  }

  lemma SmallRestsStay<T>(events: seq<Event<T>>, e: Event<T>, pieces: seq<Piece>, limits: Limits<T>)
    requires SmallRests(events, pieces, limits)
    ensures SmallRests(events + [e], pieces, limits) && Laid(events + [e], pieces) == Laid(events, pieces)
  {
    LaidStays(events, e, pieces);
    forall i | 0 <= i < |pieces| ensures !limits.HalfFull(PieceRows(events + [e], pieces[i])) {
      PieceStays(events, e, pieces[i]);
    }
  }

  lemma FilledStays<T>(events: seq<Event<T>>, e: Event<T>, group: seq<T>, limits: Limits<T>)
    requires IsFilled(events, group, limits)
    ensures IsFilled(events + [e], group, limits)
  {
    var p :| FilledBy(events, p, limits) && group == PieceRows(events, p);
    PieceStays(events, e, p);
    PieceStays(events, e, p.(to := p.to - 1));
    assert FilledBy(events + [e], p, limits);
  }

  lemma RestStays<T>(events: seq<Event<T>>, e: Event<T>, group: seq<T>, limits: Limits<T>)
    requires IsRest(events, group, limits)
    ensures IsRest(events + [e], group, limits)
  {
    var p :| LeftOver(events, p) && group == PieceRows(events, p);
    PieceStays(events, e, p);
    assert LeftOver(events + [e], p);
  }

  lemma WaitingStays<T>(events: seq<Event<T>>, e: Event<T>, rows: seq<T>, limits: Limits<T>)
    requires IsWaiting(events, rows, limits)
    ensures IsWaiting(events + [e], rows, limits)
  {
    var pieces :| SmallRests(events, pieces, limits) && rows == Laid(events, pieces);
    SmallRestsStay(events, e, pieces, limits);
  }

  lemma MergedStays<T>(events: seq<Event<T>>, e: Event<T>, group: seq<T>, limits: Limits<T>)
    requires IsMerged(events, group, limits)
    ensures IsMerged(events + [e], group, limits)
  {
    var pieces :| ReachHalf(events, pieces, limits) && group == Laid(events, pieces);
    SmallRestsStay(events, e, pieces, limits);
    LaidStays(events, e, pieces[..|pieces| - 1]);
    assert ReachHalf(events + [e], pieces, limits);
  }

  lemma OriginStays<T>(events: seq<Event<T>>, e: Event<T>, group: seq<T>, limits: Limits<T>)
    requires HasOrigin(events, group, limits)
    ensures HasOrigin(events + [e], group, limits)
  {
    if IsFilled(events, group, limits) {
      FilledStays(events, e, group, limits);
    } else if IsRest(events, group, limits) {
      RestStays(events, e, group, limits);
    } else {
      MergedStays(events, e, group, limits);
    }
  }

  lemma BufferStays<T>(events: seq<Event<T>>, e: Event<T>, t: nat, buffer: seq<T>, limits: Limits<T>)
    requires IsBuffer(events, t, buffer, limits) && e.t != t
    ensures IsBuffer(events + [e], t, buffer, limits)
  {
    var from :| 0 <= from <= |events| && buffer == PieceRows(events, Piece(t, from, |events|));
    PieceGrows(events, e, t, from);
    assert buffer == PieceRows(events + [e], Piece(t, from, |events + [e]|));
  }

  /** A thread that takes no part in the event. */
  lemma ThreadStays<T>(events: seq<Event<T>>, e: Event<T>, t: nat, thread: Thread<T>, limits: Limits<T>)
    requires ThreadTracked(events, t, thread, limits) && e.t != t
    ensures ThreadTracked(events + [e], t, thread, limits)
  {
    match thread
    case Sinking(buffer) =>
      BufferStays(events, e, t, buffer, limits);
    case Carrying(owned) =>
      MergedStays(events, e, owned, limits);
    case Done =>
  }

  /** Chunk by chunk a buffer grows until it is full, and then becomes a row group as it is. */
  lemma SinkTracked<T>(events: seq<Event<T>>, t: nat, buffer: seq<T>, s: Shared<T>, chunk: seq<T>, limits: Limits<T>)
    requires IsBuffer(events, t, buffer, limits)
    ensures var events' := events + [Sinks(t, chunk)];
            var (thread, after) := SinkStep(buffer, s, chunk, limits);
            && ThreadTracked(events', t, thread, limits)
            && after.combine == s.combine
            && (after.groups == s.groups
                || (after.groups == s.groups + [buffer + chunk] && HasOrigin(events', buffer + chunk, limits)))
  {
    var e := Sinks(t, chunk);
    var events' := events + [e];
    var from :| 0 <= from <= |events| && buffer == PieceRows(events, Piece(t, from, |events|));
    PieceGrows(events, e, t, from);
    var p := Piece(t, from, |events| + 1);
    assert buffer + chunk == PieceRows(events', p);
    if limits.Full(buffer + chunk) {
      PieceStays(events, e, p.(to := |events|));
      assert FilledBy(events', p, limits);
      assert [] == PieceRows(events', Piece(t, |events'|, |events'|));
      assert IsBuffer(events', t, [], limits);
    } else {
      assert IsBuffer(events', t, buffer + chunk, limits);
    }
  }

  lemma LaidAppend<T>(events: seq<Event<T>>, pieces: seq<Piece>, p: Piece)
    requires LeftOver(events, p) && forall i :: 0 <= i < |pieces| ==> LeftOver(events, pieces[i])
    ensures forall i :: 0 <= i < |pieces + [p]| ==> LeftOver(events, (pieces + [p])[i])
    ensures Laid(events, pieces + [p]) == Laid(events, pieces) + PieceRows(events, p)
  {
    assert (pieces + [p])[..|pieces|] == pieces;
  }

  lemma SmallRestsAppend<T>(events: seq<Event<T>>, pieces: seq<Piece>, p: Piece, limits: Limits<T>)
    requires SmallRests(events, pieces, limits)
    requires LeftOver(events, p) && !limits.HalfFull(PieceRows(events, p))
    requires forall i :: 0 <= i < |pieces| ==> pieces[i].to < p.to
    ensures SmallRests(events, pieces + [p], limits)
  {
    var joined := pieces + [p];
    assert forall i :: 0 <= i < |joined| ==> joined[i] == if i < |pieces| then pieces[i] else p;
  }

  lemma JoinRests<T>(events: seq<Event<T>>, pieces: seq<Piece>, p: Piece, limits: Limits<T>)
    requires SmallRests(events, pieces, limits)
    requires p.from <= p.to == |events| && !limits.HalfFull(PieceRows(events, p))
    ensures var events' := events + [Combines(p.t)];
            && SmallRests(events', pieces + [p], limits)
            && Laid(events', pieces + [p]) == Laid(events, pieces) + PieceRows(events, p)
            && Laid(events', pieces) == Laid(events, pieces)
  {
    var e := Combines(p.t);
    assert forall i :: 0 <= i < |pieces| ==> LeftOver(events, pieces[i]);
    SmallRestsStay(events, e, pieces, limits);
    PieceStays(events, e, p);
    assert LeftOver(events + [e], p);
    SmallRestsAppend(events + [e], pieces, p, limits);
    LaidAppend(events + [e], pieces, p);
  }

  lemma RestIsWritten<T>(events: seq<Event<T>>, p: Piece, limits: Limits<T>)
    requires p.from <= p.to == |events|
    requires Unfilled(PieceRows(events, p), limits) && limits.HalfFull(PieceRows(events, p))
    ensures IsRest(events + [Combines(p.t)], PieceRows(events, p), limits)
  {
    PieceStays(events, Combines(p.t), p);
    assert LeftOver(events + [Combines(p.t)], p);
  }

  lemma FirstRestWaits<T>(events: seq<Event<T>>, p: Piece, limits: Limits<T>)
    requires p.from <= p.to == |events| && !limits.HalfFull(PieceRows(events, p))
    ensures IsWaiting(events + [Combines(p.t)], PieceRows(events, p), limits)
  {
    assert SmallRests(events, [], limits) && Laid(events, []) == [];
    JoinRests(events, [], p, limits);
    assert [] + PieceRows(events, p) == PieceRows(events, p);
  }

  /** A small rest that joins the combine buffer makes it half full, or leaves it waiting. */
  lemma RestJoins<T>(events: seq<Event<T>>, rows: seq<T>, p: Piece, limits: Limits<T>)
    requires IsWaiting(events, rows, limits)
    requires p.from <= p.to == |events| && !limits.HalfFull(PieceRows(events, p))
    ensures var events' := events + [Combines(p.t)];
            var merged := rows + PieceRows(events, p);
            if limits.HalfFull(merged) then IsMerged(events', merged, limits) else IsWaiting(events', merged, limits)
  {
    var pieces :| SmallRests(events, pieces, limits) && rows == Laid(events, pieces);
    JoinRests(events, pieces, p, limits);
    if limits.HalfFull(rows + PieceRows(events, p)) {
      assert (pieces + [p])[..|pieces|] == pieces;
      assert ReachHalf(events + [Combines(p.t)], pieces + [p], limits);
    }
  }

  /** What is left in a buffer becomes a row group by itself, or joins what other threads had left. */
  lemma CombineTracked<T>(events: seq<Event<T>>, t: nat, buffer: seq<T>, s: Shared<T>, limits: Limits<T>)
    requires IsBuffer(events, t, buffer, limits)
    requires s.combine.Some? ==> IsWaiting(events, s.combine.value, limits)
    ensures var events' := events + [Combines(t)];
            var (thread, after) := CombineStep(buffer, s, limits);
            && ThreadTracked(events', t, thread, limits)
            && (after.combine.Some? ==> IsWaiting(events', after.combine.value, limits))
            && (after.groups == s.groups
                || (after.groups == s.groups + [buffer] && HasOrigin(events', buffer, limits)))
  {
    var from :| 0 <= from <= |events| && buffer == PieceRows(events, Piece(t, from, |events|));
    var p := Piece(t, from, |events|);
    if limits.HalfFull(buffer) {
      RestIsWritten(events, p, limits);
      if s.combine.Some? {
        WaitingStays(events, Combines(t), s.combine.value, limits);
      }
    } else if s.combine.Some? {
      RestJoins(events, s.combine.value, p, limits);
    } else {
      FirstRestWaits(events, p, limits);
    }
  }

  lemma StepTracked<T>(w: World<T>, e: Event<T>, events: seq<Event<T>>, limits: Limits<T>)
    requires Enabled(w, e) && Tracked(w, events, limits)
    ensures Tracked(Apply(w, e, limits), events + [e], limits)
    ensures w.shared.groups <= Apply(w, e, limits).shared.groups
  {
    var w' := Apply(w, e, limits);
    var events' := events + [e];
    forall i | 0 <= i < |w.shared.groups| ensures HasOrigin(events', w.shared.groups[i], limits) {
      OriginStays(events, e, w.shared.groups[i], limits);
    }
    assert ThreadTracked(events, e.t, w.threads[e.t], limits);
    match e {
      case Sinks(t, chunk) =>
        SinkTracked(events, t, w.threads[t].buffer, w.shared, chunk, limits);
      case Combines(t) =>
        CombineTracked(events, t, w.threads[t].buffer, w.shared, limits);
      case FlushesOwned(t) =>
        MergedStays(events, e, w.threads[t].owned, limits);
    }
    if w.shared.combine.Some? && !e.Combines? {
      WaitingStays(events, e, w.shared.combine.value, limits);
    }
    forall t | 0 <= t < |w.threads| && t != e.t ensures ThreadTracked(events', t, w'.threads[t], limits) {
      ThreadStays(events, e, t, w.threads[t], limits);
    }
  }

  lemma {:induction false} RunTracked<T>(w: World<T>, past: seq<Event<T>>, events: seq<Event<T>>, limits: Limits<T>)
    requires IsRun(w, events, limits) && Tracked(w, past, limits)
    ensures Tracked(After(w, events, limits), past + events, limits)
    decreases |events|
  {
    if events == [] {
      assert past + events == past;
    } else {
      StepTracked(w, events[0], past, limits);
      RunTracked(Apply(w, events[0], limits), past + [events[0]], events[1..], limits);
      assert past + [events[0]] + events[1..] == past + events;
    }
  }

  /**
   At any point of any run, a thread that sinks holds what it sank since some event, and never a full buffer;
   every row group is a buffer and the chunk that filled it, or what a thread had left, or several such rests
   that reached half of a limit together; and what waits in the combine buffer are rests in order.
  */
  lemma RowGroupsHaveOrigins<T>(n: nat, events: seq<Event<T>>, limits: Limits<T>)
    requires IsRun(Start<T>(n), events, limits)
    ensures Tracked(After(Start<T>(n), events, limits), events, limits)
  {
    forall t | 0 <= t < n ensures IsBuffer<T>([], t, [], limits) {
      assert [] == PieceRows<T>([], Piece(t, 0, 0));
    }
    RunTracked(Start<T>(n), [], events, limits);
    assert [] + events == events;
  }

  /** The most rows a buffer holds without being full. */
  function MostUnfilled<T>(limits: Limits<T>): nat {
    if limits.rows > 0 then limits.rows - 1 else 0
  }

  ghost predicate ChunksUpTo<T>(events: seq<Event<T>>, v: nat) {
    forall i :: 0 <= i < |events| && events[i].Sinks? ==> |events[i].chunk| <= v
  }

  lemma FilledIsBounded<T>(events: seq<Event<T>>, p: Piece, limits: Limits<T>, v: nat)
    requires FilledBy(events, p, limits) && ChunksUpTo(events, v)
    ensures |PieceRows(events, p)| <= MostUnfilled(limits) + v
  {
    var before := p.(to := p.to - 1);
    assert events[p.from..p.to] == events[p.from..p.to - 1] + [events[p.to - 1]];
    RowsAppend(events[p.from..p.to - 1], events[p.to - 1], p.t);
    assert |PieceRows(events, p)| == |PieceRows(events, before)| + |events[p.to - 1].chunk|;
  }

  lemma OriginIsBounded<T>(events: seq<Event<T>>, group: seq<T>, limits: Limits<T>, v: nat)
    requires HasOrigin(events, group, limits) && ChunksUpTo(events, v)
    ensures |group| <= MostUnfilled(limits) + v
  {
    if IsFilled(events, group, limits) {
      var p :| FilledBy(events, p, limits) && group == PieceRows(events, p);
      FilledIsBounded(events, p, limits, v);
    } else if IsMerged(events, group, limits) {
      var pieces :| ReachHalf(events, pieces, limits) && group == Laid(events, pieces);
      var last := pieces[|pieces| - 1];
      assert !limits.HalfFull(PieceRows(events, last));
    }
  }

  /**
   With chunks of at most v rows, a finished file has no row group of `rows + v` rows or more, and what
   finalizing adds is below both half limits.
  */
  lemma RowGroupsAreBounded<T>(n: nat, events: seq<Event<T>>, limits: Limits<T>, v: nat)
    requires IsRun(Start<T>(n), events, limits) && ChunksUpTo(events, v)
    ensures var w := After(Start<T>(n), events, limits);
            var file := FinalizeStep(w.shared).groups;
            && (forall i :: 0 <= i < |file| ==> 0 < |file[i]| <= MostUnfilled(limits) + v)
            && (forall i :: |w.shared.groups| <= i < |file| ==> IsWaiting(events, file[i], limits))
  {
    RowGroupsHaveOrigins(n, events, limits);
    var w := After(Start<T>(n), events, limits);
    forall i | 0 <= i < |w.shared.groups| ensures 0 < |w.shared.groups[i]| <= MostUnfilled(limits) + v {
      OriginIsBounded(events, w.shared.groups[i], limits, v);
    }
  }

  /** The file only ever grows at its end. */
  lemma {:induction false} FileOnlyGrows<T>(w: World<T>, events: seq<Event<T>>, limits: Limits<T>)
    requires IsRun(w, events, limits)
    ensures w.shared.groups <= After(w, events, limits).shared.groups
    decreases |events|
  {
    if events != [] {
      FileOnlyGrows(Apply(w, events[0], limits), events[1..], limits);
    }
  }
}
