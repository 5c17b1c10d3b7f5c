/**
 Reading a query result as Arrow batches (RArrowChunkSource in src/include/rapi.hpp and
 src/arrow_export.cpp): chunks of any size are re-batched to the size each read asks for, and a read
 that failed fails for ever.

 The engine is known by a contract: it gives non-empty chunks until its end or until it fails, and a
 stream is closed only at its end or by Close().
*/
module ArrowSource {
  import opened Arithmetic
  import opened Sequences
  import opened Wrappers

  // ---------------------------------------------------------------- the engine

  /**
   A result of the engine.  `failsAfter` is the number of chunks after which a reader sees the failure,
   `polled` whether polling shows it, `closesWithLast` whether the stream closes with its last chunk
   rather than with the read behind it.
  */
  datatype Feed<T> = Feed(
    chunks: seq<seq<T>>,
    failsAfter: Option<nat>,
    failure: string,
    polled: bool,
    closesWithLast: bool,
    next: nat,
    open: bool)

  predicate FeedOk<T>(feed: Feed<T>) {
    && (forall i :: 0 <= i < |feed.chunks| ==> |feed.chunks[i]| > 0)
    && feed.next <= (if feed.failsAfter.Some? then feed.failsAfter.value else |feed.chunks|) <= |feed.chunks|
  }

  function AllRows<T>(feed: Feed<T>): seq<T> {
    Concat(feed.chunks)
  }

  predicate HasError<T>(feed: Feed<T>) {
    feed.failsAfter == Some(feed.next)
  }

  /** The next chunk; none at the end, after an error and when closed. */
  function Fetch<T>(feed: Feed<T>): (r: (Feed<T>, Option<seq<T>>))
    requires FeedOk(feed)
    ensures FeedOk(r.0) && r.0.chunks == feed.chunks && r.0.failsAfter == feed.failsAfter
  {
    if !feed.open || HasError(feed) then (feed, None)
    else if feed.next == |feed.chunks| then (feed.(open := false), None)
    else
      var closes := feed.closesWithLast && feed.failsAfter.None? && feed.next + 1 == |feed.chunks|;
      (feed.(next := feed.next + 1, open := !closes), Some(feed.chunks[feed.next]))
  }

  // ---------------------------------------------------------------- the source

  datatype Source<T> = Source(
    feed: Feed<T>,
    streaming: bool,
    current: Option<seq<T>>,
    offset: nat,
    finished: bool,
    error: Option<string>,
    invalidated: bool)

  datatype Loaded = Chunk | AtEnd | Thrown(message: string)

  datatype Fetched<T> = Rows(rows: seq<T>) | Failed(message: string)

  function Fail<T>(s: Source<T>, message: string): (Source<T>, Loaded) {
    (s.(error := Some(message), finished := true), Thrown(message))
  }

  function LoadNextChunk<T>(source: Source<T>): (Source<T>, Loaded)
    requires FeedOk(source.feed)
  {
    var s := source.(offset := 0, current := None);
    if s.error.Some? then (s, Thrown(s.error.value))
    else if s.finished then (s, AtEnd)
    else if s.streaming && s.feed.polled && HasError(s.feed) then Fail(s, s.feed.failure)
    else if s.streaming && !s.feed.open then (s.(finished := true), AtEnd)
    else
      var (feed, chunk) := Fetch(s.feed);
      var fetched := s.(feed := feed);
      if HasError(s.feed) then Fail(fetched, feed.failure)
      else if chunk.None? || chunk.value == [] then (fetched.(finished := true), AtEnd)
      else (fetched.(current := chunk), Chunk)
  }

  function Left<T>(s: Source<T>): nat {
    if s.current.Some? && s.offset <= |s.current.value| then |s.current.value| - s.offset else 0
  }

  /** Goes on to the next chunk when the current one is used up. */
  function NeedRows<T>(s: Source<T>): (r: (Source<T>, Loaded))
    requires FeedOk(s.feed)
    ensures FeedOk(r.0.feed) && (r.1.Chunk? ==> r.0.current.Some? && Left(r.0) > 0)
  {
    if Left(s) == 0 then LoadNextChunk(s) else (s, Chunk)
  }

  /** The source once up to `want` rows of its chunk are taken. */
  function Taken<T>(s: Source<T>, want: nat): (after: Source<T>)
    requires FeedOk(s.feed)
    ensures FeedOk(after.feed)
  {
    s.(offset := s.offset + Min(want, Left(s)))
  }

  /** Takes rows until there are n, the end is reached, or a read fails. */
  function FetchArray<T>(s: Source<T>, n: nat, got: seq<T>): (r: (Source<T>, Fetched<T>))
    requires FeedOk(s.feed)
    ensures FeedOk(r.0.feed)
    decreases n - |got|
  {
    if |got| >= n then (s, Rows(got))
    else
      var (loaded, outcome) := NeedRows(s);
      match outcome
      case Thrown(message) => (loaded, Failed(message))
      case AtEnd => (loaded, Rows(got))
      case Chunk =>
        var next := Taken(loaded, n - |got|);
        FetchArray(next, n, got + loaded.current.value[loaded.offset..next.offset])
  }

  /** One round of the loop. */
  lemma FetchUnfolds<T>(s: Source<T>, n: nat, got: seq<T>)
    requires FeedOk(s.feed) && |got| < n
    ensures var (loaded, outcome) := NeedRows(s);
            && (outcome.Thrown? ==> FetchArray(s, n, got) == (loaded, Failed(outcome.message)))
            && (outcome.AtEnd? ==> FetchArray(s, n, got) == (loaded, Rows(got)))
            && (outcome.Chunk? ==>
                  var next := Taken(loaded, n - |got|);
                  && loaded.offset <= next.offset <= |loaded.current.value|
                  && FetchArray(s, n, got) ==
                      FetchArray(next, n, got + loaded.current.value[loaded.offset..next.offset]))
  {
  }

  /** Ends the query for another statement; a stream already at its end keeps reading as ended. */
  function EndForAnotherStatement<T>(s: Source<T>): Source<T> {
    if s.streaming && s.feed.open then s.(invalidated := true, feed := s.feed.(open := false)) else s
  }

  const INVALIDATED_MESSAGE := "The query result was invalidated by another statement on its connection"

  /** A read through the stream handed to a consumer: one that was ended reports so. */
  function GetNext<T>(s: Source<T>, batchSize: nat): (r: (Source<T>, Fetched<T>))
    requires FeedOk(s.feed)
    ensures FeedOk(r.0.feed)
  {
    if s.invalidated then (s, Failed(INVALIDATED_MESSAGE)) else FetchArray(s, batchSize, [])
  }

  // ---------------------------------------------------------------- what every read keeps

  /** How many rows have been taken. */
  function Pos<T>(s: Source<T>): int
    requires FeedOk(s.feed)
  {
    |Concat(s.feed.chunks[..s.feed.next])| - Left(s)
  }

  /** Every chunk has been fetched, and no failure is behind them. */
  predicate AtItsEnd<T>(feed: Feed<T>) {
    feed.next == |feed.chunks| && feed.failsAfter.None?
  }

  /** The stream was closed before its end. */
  predicate CutShort<T>(feed: Feed<T>) {
    !feed.open && !AtItsEnd(feed)
  }

  ghost predicate SourceOk<T>(s: Source<T>) {
    && FeedOk(s.feed)
    && (s.current.Some? ==>
          0 < s.feed.next && s.current.value == s.feed.chunks[s.feed.next - 1] && s.offset <= |s.current.value|)
    && (s.finished ==> s.current.None?)
    && (s.error.Some? ==> s.finished)
    && (s.finished && s.error.None? ==> !s.feed.open)
  }

  /** The same result, read further. */
  ghost predicate ReadsOn<T>(s: Source<T>, after: Source<T>) {
    && after.feed.chunks == s.feed.chunks && after.feed.failsAfter == s.feed.failsAfter
    && after.feed.failure == s.feed.failure
    && after.streaming == s.streaming && after.invalidated == s.invalidated
    && (CutShort(after.feed) <==> CutShort(s.feed))
    && (s.finished ==> after.finished && after.error == s.error)
  }

  lemma FetchKeeps<T>(feed: Feed<T>)
    requires FeedOk(feed)
    ensures var (after, chunk) := Fetch(feed);
            && (chunk.Some? ==>
                after.next == feed.next + 1 && chunk.value == feed.chunks[feed.next] && chunk.value != [])
            && (chunk.None? ==> after.next == feed.next && after.open == (feed.open && HasError(feed)))
            && (CutShort(after) <==> CutShort(feed))
  {
  }

  /** Loading a chunk takes no rows. */
  lemma LoadedPos<T>(s: Source<T>)
    requires SourceOk(s) && Left(s) == 0
    ensures Pos(LoadNextChunk(s).0) == Pos(s)
  {
    FetchKeeps(s.feed);
    if s.feed.next < |s.feed.chunks| {
      ConcatNext(s.feed.chunks, s.feed.next);
    }
  }

  lemma LoadedOk<T>(s: Source<T>)
    requires SourceOk(s) && Left(s) == 0
    ensures var (after, outcome) := LoadNextChunk(s);
            && SourceOk(after) && ReadsOn(s, after) && Pos(after) == Pos(s)
            && (outcome.Chunk? <==> !after.finished)
            && (outcome.AtEnd? <==> after.finished && after.error.None?)
            && (outcome.Thrown? ==> after.error == Some(outcome.message))
  {
    LoadedPos(s);
    FetchKeeps(s.feed);
  }

  /** The unread rows of the current chunk are the ones behind those taken. */
  lemma CurrentRows<T>(s: Source<T>, count: nat)
    requires SourceOk(s) && s.current.Some? && count <= Left(s)
    ensures 0 <= Pos(s) && Pos(s) + count <= |AllRows(s.feed)|
    ensures s.current.value[s.offset..s.offset + count] == AllRows(s.feed)[Pos(s)..Pos(s) + count]
  {
    var chunks, i := s.feed.chunks, s.feed.next - 1;
    PartInConcat(chunks, i);
    var all, from := AllRows(s.feed), |Concat(chunks[..i])|;
    SliceOfSlice(all, from, from + |chunks[i]|, from + s.offset, from + s.offset + count);
  }

  lemma PosInRange<T>(s: Source<T>)
    requires SourceOk(s)
    ensures 0 <= Pos(s) <= |AllRows(s.feed)|
  {
    ConcatPrefix(s.feed.chunks, s.feed.next);
    if s.current.Some? {
      CurrentRows(s, 0);
    }
  }

  /** What a read gives: the next rows, all it asked for unless the end is reached; or a failure. */
  ghost predicate ReadWell<T>(s: Source<T>, n: nat, got: seq<T>, after: Source<T>, fetched: Fetched<T>) {
    && SourceOk(s) && SourceOk(after) && ReadsOn(s, after)
    && match fetched
       case Failed(message) => after.error == Some(message)
       case Rows(rows) =>
         && 0 <= Pos(s) <= Pos(after) <= |AllRows(s.feed)|
         && rows == got + AllRows(s.feed)[Pos(s)..Pos(after)]
         && after.error == s.error
         && (|rows| < n ==> after.finished)
         && (|got| <= n ==> |rows| <= n)
  }

  lemma NeedRowsOk<T>(s: Source<T>)
    requires SourceOk(s)
    ensures var (after, outcome) := NeedRows(s);
            && SourceOk(after) && ReadsOn(s, after) && Pos(after) == Pos(s)
            && (outcome.AtEnd? ==> after.finished && after.error == s.error)
            && (outcome.Thrown? ==> after.error == Some(outcome.message))
            && (outcome.Chunk? ==> after.error == s.error)
  {
    if Left(s) == 0 {
      LoadedOk(s);
    }
  }

  /** Taking rows from the current chunk. */
  lemma TakeOk<T>(s: Source<T>, count: nat)
    requires SourceOk(s) && s.current.Some? && count <= Left(s)
    ensures var after := s.(offset := s.offset + count);
            SourceOk(after) && ReadsOn(s, after) && Pos(after) == Pos(s) + count && after.error == s.error
  {
  }

  /** A read that goes on from where rows were taken reads well from the start. */
  lemma ReadOn<T>(s: Source<T>, n: nat, got: seq<T>, next: Source<T>, after: Source<T>, fetched: Fetched<T>)
    requires SourceOk(s) && SourceOk(next) && ReadsOn(s, next) && next.error == s.error && |got| < n
    requires 0 <= Pos(s) <= Pos(next) <= |AllRows(s.feed)| && |got| + (Pos(next) - Pos(s)) <= n
    requires ReadWell(next, n, got + AllRows(s.feed)[Pos(s)..Pos(next)], after, fetched)
    ensures ReadWell(s, n, got, after, fetched)
  {
    if fetched.Rows? {
      RowsJoin(AllRows(s.feed), got, Pos(s), Pos(next), Pos(after));
    }
  }

  /** One round of the loop takes the next rows. */
  lemma NextRows<T>(s: Source<T>, loaded: Source<T>, next: Source<T>, n: nat, got: seq<T>)
    requires SourceOk(s) && |got| < n && NeedRows(s) == (loaded, Chunk) && next == Taken(loaded, n - |got|)
    ensures SourceOk(next) && ReadsOn(s, next) && next.error == s.error
    ensures 0 <= Pos(s) < Pos(next) <= |AllRows(s.feed)| && |got| + (Pos(next) - Pos(s)) <= n
    ensures loaded.current.value[loaded.offset..next.offset] == AllRows(s.feed)[Pos(s)..Pos(next)]
  {
    NeedRowsOk(s);
    var count := Min(n - |got|, Left(loaded));
    CurrentRows(loaded, count);
    TakeOk(loaded, count);
  }

  /** The loop is left without taking more rows. */
  lemma NoMoreRows<T>(s: Source<T>, n: nat, got: seq<T>)
    requires SourceOk(s) && (|got| >= n || !NeedRows(s).1.Chunk?)
    ensures ReadWell(s, n, got, FetchArray(s, n, got).0, FetchArray(s, n, got).1)
  {
    PosInRange(s);
    NeedRowsOk(s);
    assert got + AllRows(s.feed)[Pos(s)..Pos(s)] == got;
  }

  lemma {:induction false} FetchArrayReads<T>(s: Source<T>, n: nat, got: seq<T>)
    requires SourceOk(s)
    ensures ReadWell(s, n, got, FetchArray(s, n, got).0, FetchArray(s, n, got).1)
    decreases n - |got|
  {
    if |got| >= n || !NeedRows(s).1.Chunk? {
      NoMoreRows(s, n, got);
    } else {
      var loaded := NeedRows(s).0;
      var next := Taken(loaded, n - |got|);
      NextRows(s, loaded, next, n, got);
      var more := got + AllRows(s.feed)[Pos(s)..Pos(next)];
      FetchArrayReads(next, n, more);
      var (after, fetched) := FetchArray(next, n, more);
      ReadOn(s, n, got, next, after, fetched);
    }
  }

  lemma RowsJoin<T>(all: seq<T>, got: seq<T>, a: nat, b: nat, c: nat)
    requires a <= b <= c <= |all|
    ensures got + all[a..b] + all[b..c] == got + all[a..c]
  {
    assert all[a..b] + all[b..c] == all[a..c];
  }

  // ---------------------------------------------------------------- what every read gives

  /** The rows in front of the engine's failure, if it fails. */
  function Sound<T>(feed: Feed<T>): seq<T>
    requires FeedOk(feed)
  {
    if feed.failsAfter.Some? then Concat(feed.chunks[..feed.failsAfter.value]) else Concat(feed.chunks)
  }

  /** What a read for n rows behind the first `pos` gives: it fails if it needs rows from behind a failure. */
  function ReadAt<T>(feed: Feed<T>, pos: nat, n: nat): Fetched<T>
    requires FeedOk(feed)
  {
    var rows := Sound(feed);
    if pos + n <= |rows| then Rows(rows[pos..pos + n])
    else if feed.failsAfter.Some? then Failed(feed.failure)
    else Rows(if pos <= |rows| then rows[pos..] else [])
  }

  lemma SoundIsPrefix<T>(feed: Feed<T>)
    requires FeedOk(feed)
    ensures Sound(feed) <= AllRows(feed)
    ensures |Concat(feed.chunks[..feed.next])| <= |Sound(feed)|
    ensures HasError(feed) || AtItsEnd(feed) ==> |Concat(feed.chunks[..feed.next])| == |Sound(feed)|
  {
    var bound := if feed.failsAfter.Some? then feed.failsAfter.value else |feed.chunks|;
    assert feed.chunks[..|feed.chunks|] == feed.chunks;
    ConcatPrefix(feed.chunks, bound);
    ConcatPrefix(feed.chunks[..bound], feed.next);
    assert feed.chunks[..bound][..feed.next] == feed.chunks[..feed.next];
  }

  /** Loading ends or fails exactly when no sound rows are left. */
  lemma LoadedExactly<T>(s: Source<T>)
    requires SourceOk(s) && s.error.None? && !CutShort(s.feed) && Left(s) == 0
    ensures var outcome := LoadNextChunk(s).1;
            && (outcome.Chunk? <==> Pos(s) < |Sound(s.feed)|)
            && (outcome.Thrown? ==> outcome.message == s.feed.failure)
            && (outcome.Thrown? <==> Pos(s) == |Sound(s.feed)| && s.feed.failsAfter.Some?)
            && (outcome.AtEnd? <==> Pos(s) == |Sound(s.feed)| && s.feed.failsAfter.None?)
  {
    SoundIsPrefix(s.feed);
    if !HasError(s.feed) && !AtItsEnd(s.feed) {
      var next := s.feed.(next := s.feed.next + 1);
      SoundIsPrefix(next);
      ConcatNext(s.feed.chunks, s.feed.next);
    }
  }

  /** What a loop that has `got` some rows gives, when it asks for more up to n. */
  function ReadOnAt<T>(feed: Feed<T>, pos: nat, n: nat, got: seq<T>): Fetched<T>
    requires FeedOk(feed) && |got| <= n
  {
    match ReadAt(feed, pos, n - |got|)
    case Rows(rows) => Rows(got + rows)
    case Failed(message) => Failed(message)
  }

  lemma StopsExactly<T>(s: Source<T>, n: nat, got: seq<T>)
    requires SourceOk(s) && s.error.None? && !CutShort(s.feed) && |got| <= n && 0 <= Pos(s) <= |Sound(s.feed)|
    requires |got| == n || !NeedRows(s).1.Chunk?
    ensures FetchArray(s, n, got).1 == ReadOnAt(s.feed, Pos(s), n, got)
  {
    var rows, pos := Sound(s.feed), Pos(s);
    if |got| == n {
      assert got + rows[pos..pos] == got;
    } else {
      FetchUnfolds(s, n, got);
      LoadedExactly(s);
      assert rows[pos..] == [] && got + [] == got;
    }
  }

  /** One round of the loop takes sound rows. */
  lemma RoundIsSound<T>(s: Source<T>, n: nat, got: seq<T>, loaded: Source<T>, next: Source<T>, more: seq<T>)
    requires SourceOk(s) && s.error.None? && !CutShort(s.feed) && |got| < n
    requires NeedRows(s) == (loaded, Chunk) && next == Taken(loaded, n - |got|)
    requires loaded.offset <= next.offset <= |loaded.current.value|
    requires more == got + loaded.current.value[loaded.offset..next.offset]
    ensures SourceOk(next) && next.error.None? && !CutShort(next.feed) && |got| < |more| <= n
    ensures next.feed.chunks == s.feed.chunks && next.feed.failsAfter == s.feed.failsAfter
    ensures next.feed.failure == s.feed.failure
    ensures 0 <= Pos(s) <= Pos(next) <= |Sound(s.feed)| && |more| - |got| == Pos(next) - Pos(s)
    ensures more == got + Sound(s.feed)[Pos(s)..Pos(next)]
  {
    NextRows(s, loaded, next, n, got);
    NeedRowsOk(s);
    SoundIsPrefix(s.feed);
    PosIsSound(next);
    assert Sound(s.feed)[Pos(s)..Pos(next)] == AllRows(s.feed)[Pos(s)..Pos(next)];
  }

  /** What remains to be read after a round is what remained before, less the round. */
  lemma ReadOnJoins<T>(feed: Feed<T>, after: Feed<T>, pos: nat, mid: nat, n: nat, got: seq<T>, more: seq<T>)
    requires FeedOk(feed) && FeedOk(after) && pos <= mid <= |Sound(feed)| && |got| <= |more| <= n
    requires after.chunks == feed.chunks && after.failsAfter == feed.failsAfter && after.failure == feed.failure
    requires |more| - |got| == mid - pos && more == got + Sound(feed)[pos..mid]
    ensures ReadOnAt(after, mid, n, more) == ReadOnAt(feed, pos, n, got)
  {
    ReadAtJoins(feed, pos, mid, n - |got|, got, more);
    assert Sound(after) == Sound(feed);
  }

  /**
   A read gives exactly the next rows it asks for, fewer only at the end, and fails exactly if it runs into a
   failure.
  */
  lemma {:induction false} FetchArrayExactly<T>(s: Source<T>, n: nat, got: seq<T>)
    requires SourceOk(s) && s.error.None? && !CutShort(s.feed) && |got| <= n
    ensures 0 <= Pos(s) <= |Sound(s.feed)|
    ensures FetchArray(s, n, got).1 == ReadOnAt(s.feed, Pos(s), n, got)
    decreases n - |got|
  {
    PosInRange(s);
    PosIsSound(s);
    if |got| == n || !NeedRows(s).1.Chunk? {
      StopsExactly(s, n, got);
    } else {
      FetchUnfolds(s, n, got);
      var loaded := NeedRows(s).0;
      var next := Taken(loaded, n - |got|);
      var more := got + loaded.current.value[loaded.offset..next.offset];
      RoundIsSound(s, n, got, loaded, next, more);
      FetchArrayExactly(next, n, more);
      ReadOnJoins(s.feed, next.feed, Pos(s), Pos(next), n, got, more);
    }
  }

  lemma PosIsSound<T>(s: Source<T>)
    requires SourceOk(s)
    ensures Pos(s) <= |Sound(s.feed)|
  {
    SoundIsPrefix(s.feed);
  }

  lemma ReadAtJoins<T>(feed: Feed<T>, pos: nat, mid: nat, n: nat, got: seq<T>, more: seq<T>)
    requires FeedOk(feed) && pos <= mid <= |Sound(feed)| && mid - pos <= n
    requires more == got + Sound(feed)[pos..mid]
    ensures ReadAt(feed, pos, n).Failed? <==> ReadAt(feed, mid, n - (mid - pos)).Failed?
    ensures ReadAt(feed, pos, n).Rows? ==>
              got + ReadAt(feed, pos, n).rows == more + ReadAt(feed, mid, n - (mid - pos)).rows
  {
    var rows := Sound(feed);
    if pos + n <= |rows| {
      RowsJoin(rows, got, pos, mid, pos + n);
    } else {
      RowsJoin(rows, got, pos, mid, |rows|);
      assert rows[pos..|rows|] == rows[pos..] && rows[mid..|rows|] == rows[mid..];
    }
  }

  // ---------------------------------------------------------------- whole runs of reads

  /** Reads of the given sizes, what they gave, and the source before, between and after them. */
  datatype Run<T> = Run(states: seq<Source<T>>, sizes: seq<nat>, answers: seq<Fetched<T>>)

  predicate Shaped<T>(run: Run<T>) {
    |run.sizes| == |run.answers| && |run.states| == |run.sizes| + 1
  }

  ghost predicate IsRun<T>(run: Run<T>) {
    && Shaped(run)
    && SourceOk(run.states[0])
    && (forall k :: 0 <= k < |run.sizes| ==> run.sizes[k] > 0)
    && (forall k :: 0 <= k < |run.sizes| ==> IsRead(run.states[k], run.sizes[k], run.states[k + 1], run.answers[k]))
  }

  ghost predicate IsRead<T>(s: Source<T>, n: nat, after: Source<T>, fetched: Fetched<T>) {
    FeedOk(s.feed) && FetchArray(s, n, []) == (after, fetched)
  }

  /** What a read keeps and gives; a source at its end gives nothing, one that failed fails again. */
  ghost predicate Step<T>(s: Source<T>, n: nat, after: Source<T>, fetched: Fetched<T>) {
    && ReadWell(s, n, [], after, fetched)
    && (s.finished && s.error.None? ==> fetched == Rows([]))
    && (s.error.Some? ==> fetched == Failed(s.error.value))
  }

  lemma ReadIsStep<T>(s: Source<T>, n: nat, after: Source<T>, fetched: Fetched<T>)
    requires SourceOk(s) && n > 0 && IsRead(s, n, after, fetched)
    ensures Step(s, n, after, fetched)
  {
    FetchArrayReads(s, n, []);
  }

  lemma {:induction false} StatesOk<T>(run: Run<T>, k: nat)
    requires IsRun(run) && k <= |run.sizes|
    ensures SourceOk(run.states[k]) && ReadsOn(run.states[0], run.states[k])
  {
    if k > 0 {
      StatesOk(run, k - 1);
      assert IsRead(run.states[k - 1], run.sizes[k - 1], run.states[k - 1 + 1], run.answers[k - 1]);
      ReadIsStep(run.states[k - 1], run.sizes[k - 1], run.states[k], run.answers[k - 1]);
    }
  }

  lemma StepAt<T>(run: Run<T>, k: nat)
    requires IsRun(run) && k < |run.sizes|
    ensures Step(run.states[k], run.sizes[k], run.states[k + 1], run.answers[k])
    ensures ReadsOn(run.states[0], run.states[k])
  {
    StatesOk(run, k);
    ReadIsStep(run.states[k], run.sizes[k], run.states[k + 1], run.answers[k]);
  }

  lemma StepRows<T>(s: Source<T>, n: nat, after: Source<T>, fetched: Fetched<T>)
    requires Step(s, n, after, fetched) && fetched.Rows?
    ensures 0 <= Pos(s) <= Pos(after) <= |AllRows(s.feed)|
    ensures fetched.rows == AllRows(s.feed)[Pos(s)..Pos(after)]
    ensures after.error == s.error && after.feed.chunks == s.feed.chunks
  {
  }

  predicate NoneFailed<T>(answers: seq<Fetched<T>>, k: nat)
    requires k <= |answers|
  {
    forall i :: 0 <= i < k ==> answers[i].Rows?
  }

  /** The batches of the first k reads, one after the other. */
  function Batches<T>(answers: seq<Fetched<T>>, k: nat): seq<T>
    requires k <= |answers| && NoneFailed(answers, k)
  {
    if k == 0 then [] else Batches(answers, k - 1) + answers[k - 1].rows
  }

  lemma {:induction false} NoErrors<T>(run: Run<T>, k: nat)
    requires IsRun(run) && k <= |run.sizes| && NoneFailed(run.answers, k)
    ensures run.states[k].error == run.states[0].error
  {
    if k > 0 {
      NoErrors(run, k - 1);
      StepAt(run, k - 1);
      StepRows(run.states[k - 1], run.sizes[k - 1], run.states[k], run.answers[k - 1]);
    }
  }

  /** What each read gives, as the rows between two positions. */
  lemma StepSlice<T>(run: Run<T>, k: nat, all: seq<T>)
    requires IsRun(run) && k < |run.sizes| && run.answers[k].Rows? && all == AllRows(run.states[0].feed)
    ensures SourceOk(run.states[k]) && SourceOk(run.states[k + 1])
    ensures 0 <= Pos(run.states[k]) <= Pos(run.states[k + 1]) <= |all|
    ensures run.answers[k].rows == all[Pos(run.states[k])..Pos(run.states[k + 1])]
  {
    StepAt(run, k);
    StepRows(run.states[k], run.sizes[k], run.states[k + 1], run.answers[k]);
  }

  /** Answer i gives the rows between two positions. */
  ghost predicate IsSlice<T>(answers: seq<Fetched<T>>, at: seq<nat>, i: nat, all: seq<T>)
    requires i < |answers| && i + 1 < |at|
  {
    at[i] <= at[i + 1] <= |all| && answers[i] == Rows(all[at[i]..at[i + 1]])
  }

  /** Slices that follow on each other are one slice. */
  lemma {:induction false} SlicesJoin<T>(answers: seq<Fetched<T>>, at: seq<nat>, k: nat, all: seq<T>)
    requires k <= |answers| && k < |at| && NoneFailed(answers, k) && at[0] <= |all|
    requires forall i :: 0 <= i < k ==> IsSlice(answers, at, i, all)
    ensures at[0] <= at[k] <= |all| && Batches(answers, k) == all[at[0]..at[k]]
  {
    if k > 0 {
      SlicesJoin(answers, at, k - 1, all);
      assert IsSlice(answers, at, k - 1, all);
      assert all[at[0]..at[k - 1]] + all[at[k - 1]..at[k]] == all[at[0]..at[k]];
    }
  }

  /** As long as no read fails, the batches are the next rows, without gap or repetition. */
  lemma BatchesAreTheRows<T>(run: Run<T>, k: nat, all: seq<T>)
    requires IsRun(run) && k <= |run.sizes| && NoneFailed(run.answers, k) && all == AllRows(run.states[0].feed)
    ensures SourceOk(run.states[k]) && run.states[k].error == run.states[0].error
    ensures run.states[k].feed.chunks == run.states[0].feed.chunks
    ensures 0 <= Pos(run.states[0]) <= Pos(run.states[k]) <= |all|
    ensures Batches(run.answers, k) == all[Pos(run.states[0])..Pos(run.states[k])]
  {
    StatesOk(run, k);
    NoErrors(run, k);
    PosInRange(run.states[0]);
    forall i | 0 <= i <= k
      ensures SourceOk(run.states[i]) && 0 <= Pos(run.states[i])
    {
      StatesOk(run, i);
      PosInRange(run.states[i]);
    }
    var at: seq<nat> := seq(k + 1, i requires 0 <= i <= k => Pos(run.states[i]));
    forall i | 0 <= i < k
      ensures IsSlice(run.answers, at, i, all)
    {
      StepSlice(run, i, all);
    }
    SlicesJoin(run.answers, at, k, all);
  }

  lemma ShortStepEnds<T>(s: Source<T>, n: nat, after: Source<T>, fetched: Fetched<T>)
    requires Step(s, n, after, fetched) && fetched.Rows? && |fetched.rows| < n
    ensures after.finished && after.error.None?
  {
  }

  lemma EndedStepEnds<T>(s: Source<T>, n: nat, after: Source<T>, fetched: Fetched<T>)
    requires Step(s, n, after, fetched) && s.finished && s.error.None?
    ensures fetched == Rows([]) && after.finished && after.error.None?
  {
  }

  lemma FailedStepFails<T>(s: Source<T>, n: nat, after: Source<T>, fetched: Fetched<T>)
    requires Step(s, n, after, fetched) && (s.error.Some? || fetched.Failed?)
    ensures fetched.Failed? && after.error == Some(fetched.message)
    ensures s.error.Some? ==> fetched == Failed(s.error.value)
  {
  }

  /** Every read of the run keeps and gives what a read should. */
  ghost predicate AllSteps<T>(run: Run<T>) {
    && Shaped(run)
    && forall k :: 0 <= k < |run.sizes| ==> Step(run.states[k], run.sizes[k], run.states[k + 1], run.answers[k])
  }

  lemma RunsStep<T>(run: Run<T>)
    requires IsRun(run)
    ensures AllSteps(run)
  {
    forall k | 0 <= k < |run.sizes|
      ensures Step(run.states[k], run.sizes[k], run.states[k + 1], run.answers[k])
    {
      StepAt(run, k);
    }
  }

  lemma {:induction false} ShortThenEmpty<T>(run: Run<T>, i: nat, j: nat)
    requires AllSteps(run) && i < j <= |run.sizes|
    requires run.answers[i].Rows? && |run.answers[i].rows| < run.sizes[i]
    ensures run.states[j].finished && run.states[j].error.None?
    ensures j < |run.sizes| ==> run.answers[j] == Rows([])
  {
    if i + 1 == j {
      ShortStepEnds(run.states[i], run.sizes[i], run.states[i + 1], run.answers[i]);
    } else {
      ShortThenEmpty(run, i, j - 1);
      EndedStepEnds(run.states[j - 1], run.sizes[j - 1], run.states[j - 1 + 1], run.answers[j - 1]);
    }
    if j < |run.sizes| {
      EndedStepEnds(run.states[j], run.sizes[j], run.states[j + 1], run.answers[j]);
    }
  }

  /** A batch is full or the last: behind a short batch there are only empty ones. */
  lemma ShortIsLast<T>(run: Run<T>, i: nat, j: nat)
    requires IsRun(run) && i < j < |run.sizes|
    requires run.answers[i].Rows? && |run.answers[i].rows| < run.sizes[i]
    ensures run.answers[j] == Rows([])
  {
    RunsStep(run);
    ShortThenEmpty(run, i, j);
  }

  lemma {:induction false} FailedThenFails<T>(run: Run<T>, i: nat, j: nat)
    requires AllSteps(run) && i <= j < |run.sizes| && run.answers[i].Failed?
    ensures run.answers[j] == run.answers[i] && run.states[j + 1].error == Some(run.answers[i].message)
  {
    if i < j {
      FailedThenFails(run, i, j - 1);
    }
    FailedStepFails(run.states[j], run.sizes[j], run.states[j + 1], run.answers[j]);
  }

  /** Behind a read that failed, every read fails with the same error. */
  lemma FailsForEver<T>(run: Run<T>, i: nat, j: nat)
    requires IsRun(run) && i < j < |run.sizes| && run.answers[i].Failed?
    ensures run.answers[j] == run.answers[i]
  {
    RunsStep(run);
    FailedThenFails(run, i, j);
  }

  /** No batch is larger than asked for, and a short one completes the rows of a stream not cut short. */
  lemma ShortCompletes<T>(run: Run<T>, k: nat, all: seq<T>)
    requires IsRun(run) && k < |run.sizes| && NoneFailed(run.answers, k + 1) && all == AllRows(run.states[0].feed)
    ensures |run.answers[k].rows| <= run.sizes[k]
    ensures 0 <= Pos(run.states[0]) <= |all|
    ensures |run.answers[k].rows| < run.sizes[k] && !CutShort(run.states[0].feed) && run.states[0].error.None? ==>
              run.states[0].feed.failsAfter.None? && Batches(run.answers, k + 1) == all[Pos(run.states[0])..]
  {
    StepAt(run, k);
    StepIsSmall(run.states[k], run.sizes[k], run.states[k + 1], run.answers[k]);
    BatchesAreTheRows(run, k + 1, all);
    if |run.answers[k].rows| < run.sizes[k] && !CutShort(run.states[0].feed) {
      ShortHasAll(run, k);
      assert all[Pos(run.states[0])..|all|] == all[Pos(run.states[0])..];
    }
  }

  lemma ShortHasAll<T>(run: Run<T>, k: nat)
    requires IsRun(run) && k < |run.sizes| && !CutShort(run.states[0].feed)
    requires run.answers[k].Rows? && |run.answers[k].rows| < run.sizes[k]
    ensures SourceOk(run.states[k + 1]) && Pos(run.states[k + 1]) == |AllRows(run.states[0].feed)|
    ensures run.states[0].feed.failsAfter.None?
  {
    StepAt(run, k);
    StatesOk(run, k + 1);
    ShortStepEnds(run.states[k], run.sizes[k], run.states[k + 1], run.answers[k]);
    EndedHasAll(run.states[k + 1]);
  }

  lemma StepIsSmall<T>(s: Source<T>, n: nat, after: Source<T>, fetched: Fetched<T>)
    requires Step(s, n, after, fetched) && fetched.Rows?
    ensures |fetched.rows| <= n
  {
  }

  lemma EndedHasAll<T>(s: Source<T>)
    requires SourceOk(s) && s.finished && s.error.None? && !CutShort(s.feed)
    ensures s.feed.failsAfter.None? && Pos(s) == |AllRows(s.feed)|
  {
    assert s.feed.chunks[..|s.feed.chunks|] == s.feed.chunks;
  }
}
