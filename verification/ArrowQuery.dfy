/**
 The life of one query result of the Arrow route (RQueryResult, RArrowArrayStreamWrapper and the entry
 points of src/arrow_export.cpp; src/statement.cpp): it is executed, read batch by batch, handed over to a
 consumer, ended by another statement on its connection, and released.

 No run of these steps truncates a result silently.
*/
module ArrowQuery {
  import opened ArrowSource
  import opened Wrappers

  // ---------------------------------------------------------------- the query result

  /** Who holds the result: the query result itself, a stream it keeps, a stream a consumer owns, or nobody. */
  datatype Place<T> =
    | Held(feed: Feed<T>, streamed: bool)
    | Wrapped(source: Source<T>)
    | HandedOver(source: Source<T>)
    | Gone

  /** `tracked`: whoever holds the open result is registered for its connection. */
  datatype Query<T> = Query(place: Place<T>, tracked: bool, invalidated: bool)

  predicate QueryOk<T>(q: Query<T>) {
    match q.place
    case Held(feed, _) => FeedOk(feed)
    case Wrapped(source) => FeedOk(source.feed)
    case HandedOver(source) => FeedOk(source.feed)
    case Gone => true
  }

  datatype Answer<T> = Batch(rows: seq<T>) | End | Error(message: string) | Nothing

  const CONSUMED := "Result has already been consumed"
  const NO_SIZE := "Chunk Size must be higher than 0"

  /** A registered result is ended before another statement starts. */
  function EndOpenResult<T>(q: Query<T>): Query<T> {
    if !q.tracked then q
    else
      match q.place
      case Held(feed, streamed) => Query(Held(feed.(open := false), streamed), false, true)
      case Wrapped(source) => q.(place := Wrapped(EndForAnotherStatement(source)), tracked := false)
      case HandedOver(source) => q.(place := HandedOver(EndForAnotherStatement(source)), tracked := false)
      case Gone => q.(tracked := false)
  }

  /** Whether the result still holds its connection's query open. */
  predicate HoldsQueryOpen<T>(q: Query<T>) {
    match q.place
    case Held(feed, streamed) => streamed && feed.open
    case Wrapped(source) => source.streaming && source.feed.open
    case HandedOver(source) => source.streaming && source.feed.open
    case Gone => false
  }

  /** The engine closes a query that its connection still holds open when it starts another; a reader sees an end. */
  function EngineCloses<T>(q: Query<T>): Query<T> {
    if !HoldsQueryOpen(q) then q
    else
      match q.place
      case Held(feed, streamed) => q.(place := Held(feed.(open := false), streamed))
      case Wrapped(source) => q.(place := Wrapped(source.(feed := source.feed.(open := false))))
      case HandedOver(source) => q.(place := HandedOver(source.(feed := source.feed.(open := false))))
  }

  function OtherStatement<T>(q: Query<T>): Query<T> {
    EngineCloses(EndOpenResult(q))
  }

  /** The result as a stream: drained as it runs if it can be, read from its collection otherwise. */
  function NewSource<T>(feed: Feed<T>, streamed: bool, invalidated: bool, errorSeen: bool): Source<T> {
    var canDrain := streamed && !(errorSeen && HasError(feed));
    Source(feed, !invalidated && canDrain, None, 0, false, None, invalidated)
  }

  /** What is not known beforehand of building a stream: whether the result's error shows, and whether it throws. */
  datatype Luck = Luck(errorSeen: bool, throws: bool)

  /** Hands the result on to a stream, which is registered in its stead; none if building it throws. */
  function Wrap<T>(q: Query<T>, luck: Luck): (w: Option<Source<T>>)
    requires q.place.Held?
  {
    if luck.throws then None else Some(NewSource(q.place.feed, q.place.streamed, q.invalidated, luck.errorSeen))
  }

  /** One batch for the caller of dbFetchArrowChunk(); at the end the stream is let go. */
  function FetchFrom<T>(source: Source<T>, q: Query<T>, n: nat): (r: (Query<T>, Answer<T>))
    requires FeedOk(source.feed)
    ensures QueryOk(r.0)
  {
    var (after, fetched) := GetNext(source, n);
    match fetched
    case Failed(message) => (q.(place := Wrapped(after)), Error(message))
    case Rows(rows) =>
      if rows == [] then (q.(place := Gone, tracked := false), End)
      else (q.(place := Wrapped(after)), Batch(rows))
  }

  function FetchArrowArray<T>(q: Query<T>, n: nat, luck: Luck): (r: (Query<T>, Answer<T>))
    requires QueryOk(q)
    ensures QueryOk(r.0)
  {
    if n == 0 then (q, Error(NO_SIZE))
    else
      match q.place
      case Wrapped(source) => FetchFrom(source, q, n)
      case Held(_, _) =>
        var w := Wrap(q, luck);
        if w.None? then (q.(place := Gone, tracked := false), Error(CONSUMED))
        else FetchFrom(w.value, q.(place := Wrapped(w.value), tracked := w.value.streaming), n)
      case _ => (q, Error(CONSUMED))
  }

  function FetchArrowStreamInto<T>(q: Query<T>, n: nat, luck: Luck): (r: (Query<T>, Answer<T>))
    requires QueryOk(q)
    ensures QueryOk(r.0)
  {
    if n == 0 then (q, Error(NO_SIZE))
    else
      match q.place
      case Wrapped(source) => (q.(place := HandedOver(source)), Nothing)
      case Held(_, _) =>
        var w := Wrap(q, luck);
        if w.None? then (q.(place := Gone, tracked := false), Error(CONSUMED))
        else (q.(place := HandedOver(w.value), tracked := w.value.streaming), Nothing)
      case _ => (q, Error(CONSUMED))
  }

  function RecordBatch<T>(q: Query<T>, n: nat, luck: Luck): (r: (Query<T>, Answer<T>))
    requires QueryOk(q)
    ensures QueryOk(r.0)
  {
    if !q.place.Held? then (q, Error(CONSUMED))
    else
      var w := Wrap(q, luck);
      if w.None? || n == 0 then (q.(place := Gone, tracked := false), Error(NO_SIZE))
      else (q.(place := HandedOver(w.value), tracked := w.value.streaming), Nothing)
  }

  /** A read by the consumer that owns the stream. */
  function ConsumerNext<T>(q: Query<T>, n: nat): (r: (Query<T>, Answer<T>))
    requires QueryOk(q)
    ensures QueryOk(r.0)
  {
    if !q.place.HandedOver? then (q, Nothing)
    else
      var (after, fetched) := GetNext(q.place.source, n);
      (q.(place := HandedOver(after)),
       match fetched
       case Failed(message) => Error(message)
       case Rows(rows) => if rows == [] then End else Batch(rows))
  }

  /** Destroyed or parked: nobody can read it any more. */
  function ConsumerRelease<T>(q: Query<T>): Query<T> {
    if q.place.HandedOver? then q.(place := Gone, tracked := false) else q
  }

  function DropResult<T>(q: Query<T>): Query<T> {
    if q.place.HandedOver? then q else q.(place := Gone, tracked := false)
  }

  datatype Event =
    | AnotherStatement
    | FetchBatch(n: nat, luck: Luck)
    | StreamInto(n: nat, luck: Luck)
    | ToRecordBatch(n: nat, luck: Luck)
    | Next(n: nat)
    | Release
    | Drop

  function Step<T>(q: Query<T>, e: Event): (r: (Query<T>, Answer<T>))
    requires QueryOk(q) && (e.Next? ==> e.n > 0)
    ensures QueryOk(r.0)
  {
    match e
    case AnotherStatement => (OtherStatement(q), Nothing)
    case FetchBatch(n, luck) => FetchArrowArray(q, n, luck)
    case StreamInto(n, luck) => FetchArrowStreamInto(q, n, luck)
    case ToRecordBatch(n, luck) => RecordBatch(q, n, luck)
    case Next(n) => ConsumerNext(q, n)
    case Release => (ConsumerRelease(q), Nothing)
    case Drop => (DropResult(q), Nothing)
  }

  // ---------------------------------------------------------------- what readers have seen

  /** The rows delivered, whether a clean end was reported, and whether another statement ended it before its end. */
  datatype History<T> = History(query: Query<T>, delivered: seq<T>, ended: bool, cut: bool)

  function Answered<T>(h: History<T>, after: Query<T>, answer: Answer<T>): History<T> {
    History(after, if answer.Batch? then h.delivered + answer.rows else h.delivered, h.ended || answer.End?, h.cut)
  }

  function Observe<T>(h: History<T>, e: Event): History<T>
    requires QueryOk(h.query) && (e.Next? ==> e.n > 0)
  {
    var (after, answer) := Step(h.query, e);
    var answered := Answered(h, after, answer);
    if e.AnotherStatement? && HoldsQueryOpen(h.query) then answered.(cut := true) else answered
  }

  /**
   A readable stream: marked exactly when it was cut, registered while it is open, at the row behind those
   delivered.
  */
  ghost predicate StreamFaithful<T>(source: Source<T>, tracked: bool, delivered: seq<T>, cut: bool, origin: Feed<T>) {
    && SourceOk(source)
    && source.feed.chunks == origin.chunks && source.feed.failsAfter == origin.failsAfter
    && source.feed.failure == origin.failure && source.invalidated == cut
    && (source.streaming && source.feed.open ==> tracked)
    && (!cut ==>
          && !CutShort(source.feed)
          && (source.error.Some? ==> origin.failsAfter.Some? && source.error == Some(origin.failure))
          && (source.error.None? ==>
                0 <= Pos(source) <= |AllRows(origin)| && delivered == AllRows(origin)[..Pos(source)]))
  }

  ghost predicate HeldFaithful<T>(feed: Feed<T>, streamed: bool, h: History<T>, origin: Feed<T>) {
    && FeedOk(feed) && feed.chunks == origin.chunks && feed.failsAfter == origin.failsAfter
    && feed.failure == origin.failure && feed.next == 0 && h.delivered == [] && !h.ended
    && h.query.invalidated == h.cut && feed.open == !h.cut
    && h.query.tracked == (streamed && !h.cut)
    && (!streamed ==> !h.cut)
  }

  /** What every run keeps. */
  ghost predicate Faithful<T>(h: History<T>, origin: Feed<T>) {
    && QueryOk(h.query) && FeedOk(origin)
    && h.delivered <= AllRows(origin)
    && (h.ended ==> h.delivered == AllRows(origin) && origin.failsAfter.None?)
    && match h.query.place
       case Held(feed, streamed) => HeldFaithful(feed, streamed, h, origin)
       case Wrapped(source) => StreamFaithful(source, h.query.tracked, h.delivered, h.cut, origin)
       case HandedOver(source) => StreamFaithful(source, h.query.tracked, h.delivered, h.cut, origin)
       case Gone => true
  }

  /** What a stream that was not cut answers: the rows behind those delivered, or the failure it runs into. */
  lemma GetNextExactly<T>(source: Source<T>, n: nat, tracked: bool, delivered: seq<T>, origin: Feed<T>)
    requires StreamFaithful(source, tracked, delivered, false, origin) && FeedOk(origin)
    ensures source.error.None? ==> GetNext(source, n).1 == ReadAt(origin, |delivered|, n)
    ensures source.error.Some? && n > 0 ==> GetNext(source, n).1 == Failed(origin.failure)
  {
    if source.error.None? {
      FetchArrayExactly(source, n, []);
      assert forall rows: seq<T> :: [] + rows == rows;
    } else if n > 0 {
      FetchUnfolds(source, n, []);
    }
  }

  /** A read goes on with the row behind those delivered, fails, or has nothing left to deliver. */
  lemma GetNextFaithful<T>(source: Source<T>, n: nat, tracked: bool, delivered: seq<T>, cut: bool, origin: Feed<T>)
    requires StreamFaithful(source, tracked, delivered, cut, origin) && n > 0 && FeedOk(origin)
    ensures var (after, fetched) := GetNext(source, n);
            && (fetched.Failed? ==> StreamFaithful(after, tracked, delivered, cut, origin))
            && (fetched.Rows? ==>
                  && !cut && delivered + fetched.rows <= AllRows(origin)
                  && StreamFaithful(after, tracked, delivered + fetched.rows, cut, origin)
                  && (fetched.rows == [] ==> delivered == AllRows(origin) && origin.failsAfter.None?))
    ensures cut ==> GetNext(source, n).1.Failed?
  {
    if !cut {
      var (after, fetched) := FetchArray(source, n, []);
      ReadIsStep(source, n, after, fetched);
      GetNextExactly(source, n, tracked, delivered, origin);
      if fetched.Rows? {
        StepRows(source, n, after, fetched);
        DeliverMore(AllRows(origin), Pos(source), Pos(after));
        if fetched.rows == [] {
          EndedHasAll(after);
        }
      }
    }
  }

  lemma DeliverMore<T>(all: seq<T>, a: nat, b: nat)
    requires a <= b <= |all|
    ensures all[..a] + all[a..b] == all[..b] && all[..b] <= all
  {
  }

  /** Another statement marks and closes an open stream, and leaves one read to its end alone. */
  lemma EndedStreamFaithful<T>(source: Source<T>, tracked: bool, delivered: seq<T>, cut: bool, origin: Feed<T>)
    requires StreamFaithful(source, tracked, delivered, cut, origin)
    ensures var open := source.streaming && source.feed.open;
            var after := if tracked then EndForAnotherStatement(source) else source;
            StreamFaithful(after, false, delivered, cut || open, origin) && !(after.streaming && after.feed.open)
  {
  }

  lemma EndedHeldFaithful<T>(h: History<T>, origin: Feed<T>)
    requires Faithful(h, origin) && h.query.place.Held?
    ensures Faithful(Observe(h, AnotherStatement), origin)
  {
  }

  lemma EndedWrappedFaithful<T>(h: History<T>, source: Source<T>, origin: Feed<T>)
    requires Faithful(h, origin) && h.query.place == Wrapped(source)
    ensures Faithful(Observe(h, AnotherStatement), origin)
  {
    EndedStreamFaithful(source, h.query.tracked, h.delivered, h.cut, origin);
  }

  lemma EndedHandedOverFaithful<T>(h: History<T>, source: Source<T>, origin: Feed<T>)
    requires Faithful(h, origin) && h.query.place == HandedOver(source)
    ensures Faithful(Observe(h, AnotherStatement), origin)
  {
    EndedStreamFaithful(source, h.query.tracked, h.delivered, h.cut, origin);
  }

  lemma OtherStatementFaithful<T>(h: History<T>, origin: Feed<T>)
    requires Faithful(h, origin)
    ensures Faithful(Observe(h, AnotherStatement), origin)
  {
    match h.query.place
    case Held(_, _) => EndedHeldFaithful(h, origin);
    case Wrapped(source) => EndedWrappedFaithful(h, source, origin);
    case HandedOver(source) => EndedHandedOverFaithful(h, source, origin);
    case Gone =>
  }

  /** Handing a result on to a stream keeps the mark of one that was ended. */
  lemma WrapFaithful<T>(h: History<T>, luck: Luck, origin: Feed<T>)
    requires Faithful(h, origin) && h.query.place.Held? && !luck.throws
    ensures var w := Wrap(h.query, luck).value;
            && w.invalidated == h.query.invalidated == h.cut
            && StreamFaithful(w, w.streaming, h.delivered, h.cut, origin)
  {
    assert AllRows(origin)[..0] == [];
  }

  lemma FetchFromFaithful<T>(h: History<T>, source: Source<T>, n: nat, origin: Feed<T>)
    requires Faithful(h, origin) && h.query.place == Wrapped(source) && n > 0
    ensures var (after, answer) := FetchFrom(source, h.query, n);
            && Faithful(Answered(h, after, answer), origin)
            && (h.cut ==> answer.Error?)
  {
    GetNextFaithful(source, n, h.query.tracked, h.delivered, h.cut, origin);
    assert h.delivered + [] == h.delivered;
  }

  lemma FetchFaithful<T>(h: History<T>, n: nat, luck: Luck, origin: Feed<T>)
    requires Faithful(h, origin)
    ensures var (after, answer) := FetchArrowArray(h.query, n, luck);
            && Faithful(Answered(h, after, answer), origin)
            && (h.cut ==> answer.Error?)
  {
    if n > 0 && h.query.place.Wrapped? {
      FetchFromFaithful(h, h.query.place.source, n, origin);
    } else if n > 0 && h.query.place.Held? && !luck.throws {
      WrapFaithful(h, luck, origin);
      var w := Wrap(h.query, luck).value;
      var q := h.query.(place := Wrapped(w), tracked := w.streaming);
      FetchFromFaithful(h.(query := q), w, n, origin);
    }
  }

  lemma HandOverFaithful<T>(h: History<T>, n: nat, luck: Luck, origin: Feed<T>)
    requires Faithful(h, origin)
    ensures Faithful(h.(query := FetchArrowStreamInto(h.query, n, luck).0), origin)
    ensures Faithful(h.(query := RecordBatch(h.query, n, luck).0), origin)
  {
    if h.query.place.Held? && !luck.throws {
      WrapFaithful(h, luck, origin);
    }
  }

  lemma ConsumerNextFaithful<T>(h: History<T>, n: nat, origin: Feed<T>)
    requires Faithful(h, origin) && n > 0
    ensures var (after, answer) := ConsumerNext(h.query, n);
            && Faithful(Answered(h, after, answer), origin)
            && (h.cut && h.query.place.HandedOver? ==> answer.Error?)
  {
    if h.query.place.HandedOver? {
      GetNextFaithful(h.query.place.source, n, h.query.tracked, h.delivered, h.cut, origin);
      assert h.delivered + [] == h.delivered;
    }
  }

  /** Every step keeps the history faithful. */
  lemma ObserveFaithful<T>(h: History<T>, e: Event, origin: Feed<T>)
    requires Faithful(h, origin) && (e.Next? ==> e.n > 0)
    ensures Faithful(Observe(h, e), origin)
  {
    match e
    case AnotherStatement => OtherStatementFaithful(h, origin);
    case FetchBatch(n, luck) => FetchFaithful(h, n, luck, origin);
    case StreamInto(n, luck) => HandOverFaithful(h, n, luck, origin);
    case ToRecordBatch(n, luck) => HandOverFaithful(h, n, luck, origin);
    case Next(n) => ConsumerNextFaithful(h, n, origin);
    case Release =>
    case Drop =>
  }

  // ---------------------------------------------------------------- whole runs

  /** A result as it is executed: streamed and registered, or run to completion. */
  function Executed<T>(feed: Feed<T>, streamed: bool): History<T> {
    History(Query(Held(feed, streamed), streamed, false), [], false, false)
  }

  predicate Fresh<T>(feed: Feed<T>, streamed: bool) {
    FeedOk(feed) && feed.next == 0 && feed.open && (!streamed ==> feed.failsAfter.None?)
  }

  /** The steps of a run, what each answered, and the history before, between and after them. */
  datatype Run<T> = Run(histories: seq<History<T>>, events: seq<Event>, answers: seq<Answer<T>>)

  ghost predicate IsStep<T>(h: History<T>, e: Event, answer: Answer<T>, after: History<T>) {
    && QueryOk(h.query) && (e.Next? ==> e.n > 0)
    && after == Observe(h, e) && answer == Step(h.query, e).1
  }

  ghost predicate IsRun<T>(run: Run<T>, feed: Feed<T>, streamed: bool) {
    && |run.answers| == |run.events| && |run.histories| == |run.events| + 1
    && Fresh(feed, streamed) && run.histories[0] == Executed(feed, streamed)
    && forall k :: 0 <= k < |run.events| ==>
         IsStep(run.histories[k], run.events[k], run.answers[k], run.histories[k + 1])
  }

  /** Whether a caller asks for rows: of the query result, or of the stream that was handed over. */
  predicate AsksForRows<T>(q: Query<T>, e: Event) {
    e.FetchBatch? || (e.Next? && q.place.HandedOver?)
  }

  lemma StepFaithful<T>(h: History<T>, e: Event, answer: Answer<T>, after: History<T>, origin: Feed<T>)
    requires Faithful(h, origin) && IsStep(h, e, answer, after)
    ensures Faithful(after, origin)
    ensures h.cut ==> after.cut
    ensures e.AnotherStatement? && HoldsQueryOpen(h.query) ==> after.cut
    ensures h.cut && AsksForRows(h.query, e) ==> answer.Error?
  {
    ObserveFaithful(h, e, origin);
    if h.cut && AsksForRows(h.query, e) {
      if e.FetchBatch? {
        FetchFaithful(h, e.n, e.luck, origin);
      } else {
        ConsumerNextFaithful(h, e.n, origin);
      }
    }
  }

  lemma {:induction false} EveryRunIsFaithful<T>(run: Run<T>, feed: Feed<T>, streamed: bool, k: nat)
    requires IsRun(run, feed, streamed) && k <= |run.events|
    ensures Faithful(run.histories[k], feed)
  {
    if k > 0 {
      EveryRunIsFaithful(run, feed, streamed, k - 1);
      StepFaithful(run.histories[k - 1], run.events[k - 1], run.answers[k - 1], run.histories[k], feed);
    }
  }

  /** No silent truncation: rows arrive in order without gaps, and whoever sees a clean end has received them all. */
  lemma NoSilentTruncation<T>(run: Run<T>, feed: Feed<T>, streamed: bool, k: nat)
    requires IsRun(run, feed, streamed) && k <= |run.events|
    ensures run.histories[k].delivered <= AllRows(feed)
    ensures run.histories[k].ended ==> run.histories[k].delivered == AllRows(feed) && feed.failsAfter.None?
  {
    EveryRunIsFaithful(run, feed, streamed, k);
  }

  /** A read by whoever holds the result; building a stream for it must not throw. */
  predicate Reads<T>(q: Query<T>, e: Event) {
    match e
    case FetchBatch(n, luck) => n > 0 && (q.place.Wrapped? || (q.place.Held? && !luck.throws))
    case Next(n) => n > 0 && q.place.HandedOver?
    case _ => false
  }

  /** An earlier read has failed. */
  predicate HasFailed<T>(q: Query<T>) {
    (q.place.Wrapped? || q.place.HandedOver?) && q.place.source.error.Some?
  }

  /** What a caller is to be answered who asks for n rows behind those delivered. */
  function Expected<T>(feed: Feed<T>, delivered: seq<T>, n: nat): Answer<T>
    requires FeedOk(feed)
  {
    match ReadAt(feed, |delivered|, n)
    case Failed(message) => Error(message)
    case Rows(rows) => if rows == [] then End else Batch(rows)
  }

  lemma ReadAnswered<T>(h: History<T>, e: Event, answer: Answer<T>, after: History<T>, origin: Feed<T>)
    requires Faithful(h, origin) && IsStep(h, e, answer, after) && Reads(h.query, e) && !h.cut
    ensures answer == if HasFailed(h.query) then Error(origin.failure) else Expected(origin, h.delivered, e.n)
  {
    if h.query.place.Held? {
      WrapFaithful(h, e.luck, origin);
      var w := Wrap(h.query, e.luck).value;
      GetNextExactly(w, e.n, w.streaming, h.delivered, origin);
    } else {
      GetNextExactly(h.query.place.source, e.n, h.query.tracked, h.delivered, origin);
    }
  }

  /**
   Every read of a result that was not ended before its end gives exactly the next rows it asks for, fewer only at
   the end; it fails exactly if it needs rows from behind the engine's failure, and then for ever.
  */
  lemma EveryReadIsAnswered<T>(run: Run<T>, feed: Feed<T>, streamed: bool, k: nat)
    requires IsRun(run, feed, streamed) && k < |run.events|
    requires Reads(run.histories[k].query, run.events[k]) && !run.histories[k].cut
    ensures run.answers[k] == if HasFailed(run.histories[k].query) then Error(feed.failure)
                              else Expected(feed, run.histories[k].delivered, run.events[k].n)
    ensures HasFailed(run.histories[k].query) ==> feed.failsAfter.Some?
  {
    EveryRunIsFaithful(run, feed, streamed, k);
    ReadAnswered(run.histories[k], run.events[k], run.answers[k], run.histories[k + 1], feed);
  }

  /** So a result that does not fail gives rows while there are any, and an end after that. */
  lemma HealthyReadsSucceed<T>(run: Run<T>, feed: Feed<T>, streamed: bool, k: nat)
    requires IsRun(run, feed, streamed) && k < |run.events| && feed.failsAfter.None?
    requires Reads(run.histories[k].query, run.events[k]) && !run.histories[k].cut
    ensures var (d, n, all) := (|run.histories[k].delivered|, run.events[k].n, AllRows(feed));
            && d <= |all|
            && run.answers[k] == if d == |all| then End
                                 else if d + n <= |all| then Batch(all[d..d + n]) else Batch(all[d..])
  {
    EveryReadIsAnswered(run, feed, streamed, k);
    EveryRunIsFaithful(run, feed, streamed, k);
  }

  /** A result that can be read can be handed over, and the consumer goes on where the last read stopped. */
  lemma HandedOverToConsumer<T>(h: History<T>, n: nat, luck: Luck, origin: Feed<T>)
    requires Faithful(h, origin) && n > 0 && (h.query.place.Wrapped? || (h.query.place.Held? && !luck.throws))
    ensures FetchArrowStreamInto(h.query, n, luck).0.place.HandedOver?
    ensures h.query.place.Held? ==> RecordBatch(h.query, n, luck).0.place.HandedOver?
    ensures HasFailed(FetchArrowStreamInto(h.query, n, luck).0) == HasFailed(h.query)
  {
  }

  lemma {:induction false} CutStays<T>(run: Run<T>, feed: Feed<T>, streamed: bool, i: nat, k: nat)
    requires IsRun(run, feed, streamed) && i <= k <= |run.events| && run.histories[i].cut
    ensures run.histories[k].cut
  {
    if i < k {
      CutStays(run, feed, streamed, i, k - 1);
      EveryRunIsFaithful(run, feed, streamed, k - 1);
      StepFaithful(run.histories[k - 1], run.events[k - 1], run.answers[k - 1], run.histories[k], feed);
    }
  }

  /** A result ended by another statement before its end answers every later read with an error. */
  lemma EndedForAnotherFails<T>(run: Run<T>, feed: Feed<T>, streamed: bool, i: nat, k: nat)
    requires IsRun(run, feed, streamed) && i < k < |run.events|
    requires run.events[i] == AnotherStatement && HoldsQueryOpen(run.histories[i].query)
    requires AsksForRows(run.histories[k].query, run.events[k])
    ensures run.answers[k].Error?
  {
    EveryRunIsFaithful(run, feed, streamed, i);
    StepFaithful(run.histories[i], run.events[i], run.answers[i], run.histories[i + 1], feed);
    CutStays(run, feed, streamed, i + 1, k);
    EveryRunIsFaithful(run, feed, streamed, k);
    StepFaithful(run.histories[k], run.events[k], run.answers[k], run.histories[k + 1], feed);
  }

  /** Whoever can read an open stream is registered for its connection, so that the next statement there ends it. */
  lemma OpenIsTracked<T>(run: Run<T>, feed: Feed<T>, streamed: bool, k: nat)
    requires IsRun(run, feed, streamed) && k <= |run.events|
    ensures HoldsQueryOpen(run.histories[k].query) ==> run.histories[k].query.tracked
  {
    EveryRunIsFaithful(run, feed, streamed, k);
  }

  /** A result that was ended by another statement tells every reader so, by its own message. */
  lemma EndedTellsSo<T>(run: Run<T>, feed: Feed<T>, streamed: bool, k: nat)
    requires IsRun(run, feed, streamed) && k < |run.events|
    requires Reads(run.histories[k].query, run.events[k]) && run.histories[k].cut
    ensures run.answers[k] == Error(INVALIDATED_MESSAGE)
  {
    EveryRunIsFaithful(run, feed, streamed, k);
    var h := run.histories[k];
    assert IsStep(h, run.events[k], run.answers[k], run.histories[k + 1]);
    if h.query.place.Held? {
      WrapFaithful(h, run.events[k].luck, feed);
    }
  }

  /** Who holds a result changes only when it is read to its end, handed over, released or dropped. */
  lemma HolderStays<T>(h: History<T>, e: Event)
    requires QueryOk(h.query) && (e.Next? ==> e.n > 0)
    ensures var after := Observe(h, e).query.place;
            && (e.AnotherStatement? || e.Next? ==>
                  && (after.Held? <==> h.query.place.Held?) && (after.Wrapped? <==> h.query.place.Wrapped?)
                  && (after.HandedOver? <==> h.query.place.HandedOver?))
            && (h.query.place.HandedOver? && !e.Release? ==> after.HandedOver?)
            && (h.query.place.HandedOver? && e.Release? ==> after.Gone?)
            && (!h.query.place.HandedOver? && e.Drop? ==> after.Gone?)
            && (after.Gone? && !h.query.place.Gone? ==> !Observe(h, e).query.tracked)
            && (e.FetchBatch? && Step(h.query, e).1.Batch? ==> after.Wrapped?)
  {
  }

  /** A stream in a consumer's hands stays readable, whatever becomes of the query result, until it is released. */
  lemma {:induction false} ConsumerKeepsStream<T>(run: Run<T>, feed: Feed<T>, streamed: bool, i: nat, k: nat)
    requires IsRun(run, feed, streamed) && i <= k <= |run.events| && run.histories[i].query.place.HandedOver?
    requires forall j :: i <= j < k ==> !run.events[j].Release?
    ensures run.histories[k].query.place.HandedOver?
  {
    if i < k {
      ConsumerKeepsStream(run, feed, streamed, i, k - 1);
      assert IsStep(run.histories[k - 1], run.events[k - 1], run.answers[k - 1], run.histories[k - 1 + 1]);
      HolderStays(run.histories[k - 1], run.events[k - 1]);
    }
  }

  /** What nobody holds any more is registered nowhere, and stays so. */
  lemma {:induction false} GoneStays<T>(run: Run<T>, feed: Feed<T>, streamed: bool, i: nat, k: nat)
    requires IsRun(run, feed, streamed) && i <= k <= |run.events|
    requires run.histories[i].query.place.Gone? && !run.histories[i].query.tracked
    ensures run.histories[k].query.place.Gone? && !run.histories[k].query.tracked
  {
    if i < k {
      GoneStays(run, feed, streamed, i, k - 1);
      assert IsStep(run.histories[k - 1], run.events[k - 1], run.answers[k - 1], run.histories[k - 1 + 1]);
    }
  }
}
