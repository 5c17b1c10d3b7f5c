/**
 The source of Arrow batches as the object it is (RArrowChunkSource in src/include/rapi.hpp,
 src/arrow_export.cpp), tied method by method to the functions of ArrowSource.
*/
module ArrowChunkSource {
  import Spec = ArrowSource
  import opened Arithmetic
  import opened ArrowSource
  import opened Wrappers

  class ArrowChunkSource<T> {
    const streaming: bool
    var feed: Feed<T>
    var currentChunk: Option<seq<T>>
    var offset: nat
    var finished: bool
    var error: Option<string>
    var invalidated: bool
    /** Registered for its connection, to be ended before another statement there. */
    var tracked: bool

    function View(): Source<T>
      reads this
    {
      Source(feed, streaming, currentChunk, offset, finished, error, invalidated)
    }

    constructor (feed: Feed<T>, streaming: bool, invalidated: bool)
      ensures View() == Source(feed, streaming, None, 0, false, None, invalidated)
      ensures tracked == streaming
    {
      tracked := streaming;
      this.feed, this.streaming, this.invalidated := feed, streaming, invalidated;
      currentChunk, offset, finished, error := None, 0, false, None;
    }

    method Fail(message: string) returns (outcome: Loaded)
      modifies `error, `finished
      ensures outcome == Thrown(message) && error == Some(message) && finished
    {
      error := Some(message);
      finished := true;
      return Thrown(message);
    }

    method LoadNextChunk() returns (outcome: Loaded)
      requires FeedOk(feed)
      modifies `feed, `currentChunk, `offset, `finished, `error, `invalidated
      ensures (View(), outcome) == Spec.LoadNextChunk(old(View()))
    {
      offset := 0;
      currentChunk := None;
      if error.Some? {
        return Thrown(error.value);
      }
      if finished {
        return AtEnd;
      }
      if streaming {
        if feed.polled && HasError(feed) {
          outcome := Fail(feed.failure);
          return;
        }
        if !feed.open {
          finished := true;
          return AtEnd;
        }
      }
      var failing := HasError(feed);
      var fetched := Fetch(feed);
      feed := fetched.0;
      if failing {
        outcome := Fail(feed.failure);
        return;
      }
      if fetched.1.None? || |fetched.1.value| == 0 {
        finished := true;
        return AtEnd;
      }
      currentChunk := fetched.1;
      return Chunk;
    }

    /** Goes on to the next chunk when the current one is used up. */
    method NeedRows() returns (outcome: Loaded)
      requires FeedOk(feed)
      modifies `feed, `currentChunk, `offset, `finished, `error, `invalidated
      ensures (View(), outcome) == Spec.NeedRows(old(View()))
    {
      if currentChunk.None? || offset >= |currentChunk.value| {
        outcome := LoadNextChunk();
      } else {
        outcome := Chunk;
      }
    }

    /** Appends rows of one chunk to a batch, unless the reading stops here. */
    method AppendFromChunk(batchSize: nat, rows: seq<T>) returns (stopped: Option<Fetched<T>>, more: seq<T>)
      requires FeedOk(feed) && |rows| < batchSize
      modifies `feed, `currentChunk, `offset, `finished, `error, `invalidated
      ensures FeedOk(feed)
      ensures stopped.Some? ==> (View(), stopped.value) == Spec.FetchArray(old(View()), batchSize, rows)
      ensures stopped.None? ==>
                && |rows| < |more|
                && Spec.FetchArray(View(), batchSize, more) == Spec.FetchArray(old(View()), batchSize, rows)
    {
      more := rows;
      FetchUnfolds(View(), batchSize, rows);
      var outcome := NeedRows();
      ghost var loaded := View();
      match outcome {
        case Thrown(message) => return Some(Failed(message)), rows;
        case AtEnd => return Some(Rows(rows)), rows;
        case Chunk =>
      }
      var taken := TakeFromChunk(batchSize - |rows|);
      assert View() == Taken(loaded, batchSize - |rows|) && taken == loaded.current.value[loaded.offset..View().offset];
      more := rows + taken;
      stopped := None;
    }

    /** Takes rows of the current chunk, as many as are wanted and left. */
    method TakeFromChunk(want: nat) returns (rows: seq<T>)
      requires FeedOk(feed) && currentChunk.Some? && Left(View()) > 0
      modifies `offset
      ensures View() == Taken(old(View()), want) && offset <= |currentChunk.value|
      ensures rows == currentChunk.value[old(offset)..offset]
    {
      var toAppend := Min(want, |currentChunk.value| - offset);
      rows := currentChunk.value[offset..offset + toAppend];
      offset := offset + toAppend;
    }

    /** Fills a batch from as many chunks as it takes. */
    method FetchArray(batchSize: nat) returns (fetched: Fetched<T>)
      requires FeedOk(feed)
      modifies `feed, `currentChunk, `offset, `finished, `error, `invalidated
      ensures (View(), fetched) == Spec.FetchArray(old(View()), batchSize, [])
    {
      var rows: seq<T> := [];
      while |rows| < batchSize
        invariant FeedOk(feed)
        invariant Spec.FetchArray(View(), batchSize, rows) == Spec.FetchArray(old(View()), batchSize, [])
        decreases batchSize - |rows|
      {
        var stopped, more := AppendFromChunk(batchSize, rows);
        if stopped.Some? {
          return stopped.value;
        }
        rows := more;
      }
      return Rows(rows);
    }

    method EndForAnotherStatement()
      modifies `feed, `currentChunk, `offset, `finished, `error, `invalidated
      ensures View() == Spec.EndForAnotherStatement(old(View()))
    {
      if streaming && feed.open {
        invalidated := true;
        feed := feed.(open := false);
      }
    }

    method GetNext(batchSize: nat) returns (fetched: Fetched<T>)
      requires FeedOk(feed)
      modifies `feed, `currentChunk, `offset, `finished, `error, `invalidated
      ensures (View(), fetched) == Spec.GetNext(old(View()), batchSize)
    {
      if invalidated {
        return Failed(INVALIDATED_MESSAGE);
      }
      fetched := FetchArray(batchSize);
    }
  }
}
