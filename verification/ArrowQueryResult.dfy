/**
 The query result as the object it is (RQueryResult in src/include/rapi.hpp, with the entry points of
 src/arrow_export.cpp that take it), tied method by method to the steps of ArrowQuery.
*/
module ArrowQueryResult {
  import Spec = ArrowQuery
  import opened ArrowChunkSource
  import opened ArrowQuery
  import opened ArrowSource
  import opened Wrappers

  class QueryResult<T> {
    const streamed: bool
    var result: Option<Feed<T>>
    var streamWrapper: ArrowChunkSource?<T>
    var tracked: bool
    var invalidated: bool

    function View(): Query<T>
      reads this, streamWrapper
    {
      if streamWrapper != null then Query(Wrapped(streamWrapper.View()), streamWrapper.tracked, invalidated)
      else if result.Some? then Query(Held(result.value, streamed), tracked, invalidated)
      else Query(Gone, tracked, invalidated)
    }

    /** It holds the result or a stream over it, and is registered only while it holds an open result. */
    ghost predicate Valid()
      reads this, streamWrapper
    {
      (streamWrapper != null ==> result.None?) && (result.None? ==> !tracked) && QueryOk(View())
    }

    constructor (feed: Feed<T>, streamed: bool)
      requires Fresh(feed, streamed)
      ensures Valid() && View() == Executed(feed, streamed).query
    {
      this.streamed := streamed;
      result, streamWrapper, tracked, invalidated := Some(feed), null, streamed, false;
    }

    /** A registered result, or the stream it keeps, is ended before another statement starts. */
    method EndOpenResult()
      requires Valid()
      modifies this, streamWrapper
      ensures Valid() && View() == Spec.EndOpenResult(old(View()))
    {
      if streamWrapper != null {
        if streamWrapper.tracked {
          streamWrapper.EndForAnotherStatement();
          streamWrapper.tracked := false;
        }
      } else if tracked {
        EndForAnotherStatement();
        tracked := false;
      }
    }

    method EndForAnotherStatement()
      modifies `invalidated, `result
      ensures result == if old(result).Some? then Some(old(result).value.(open := false)) else None
      ensures invalidated == (old(invalidated) || old(result).Some?)
    {
      if result.Some? {
        invalidated := true;
        result := Some(result.value.(open := false));
      }
    }

    /** Hands the result on, to a stream that is registered from then on. */
    method TakeResult() returns (feed: Option<Feed<T>>)
      modifies `tracked, `result
      ensures feed == old(result) && result.None? && !tracked
    {
      tracked := false;
      feed := result;
      result := None;
    }

    /** Builds the stream over the result, which is gone if that throws. */
    method Wrap(luck: Luck) returns (wrapper: ArrowChunkSource?<T>)
      requires Valid() && result.Some?
      modifies `tracked, `result
      ensures result.None? && !tracked
      ensures wrapper == null <==> Spec.Wrap(old(View()), luck).None?
      ensures wrapper != null ==>
                && fresh(wrapper) && wrapper.tracked == wrapper.View().streaming
                && Spec.Wrap(old(View()), luck) == Some(wrapper.View())
    {
      var feed := TakeResult();
      if luck.throws {
        return null;
      }
      var canDrain := streamed && !(luck.errorSeen && HasError(feed.value));
      wrapper := new ArrowChunkSource(feed.value, !invalidated && canDrain, invalidated);
    }

    method FetchArrowArray(n: nat, luck: Luck) returns (answer: Answer<T>)
      requires Valid()
      modifies this, streamWrapper
      ensures Valid() && (View(), answer) == Spec.FetchArrowArray(old(View()), n, luck)
    {
      if n == 0 {
        return Error(NO_SIZE);
      }
      if streamWrapper == null {
        if result.None? {
          return Error(CONSUMED);
        }
        streamWrapper := Wrap(luck);
        if streamWrapper == null {
          return Error(CONSUMED);
        }
      }
      var fetched := streamWrapper.GetNext(n);
      match fetched
      case Failed(message) => return Error(message);
      case Rows(rows) =>
        if |rows| == 0 {
          streamWrapper := null;
          return End;
        }
        return Batch(rows);
    }

    /** Gives the stream to the caller, who owns it from then on. */
    method FetchArrowStreamInto(n: nat, luck: Luck) returns (stream: ArrowChunkSource?<T>, answer: Answer<T>)
      requires Valid()
      modifies this
      ensures Valid()
      ensures stream == null ==> (View(), answer) == Spec.FetchArrowStreamInto(old(View()), n, luck)
      ensures stream != null ==>
                && View().place == Gone
                && (Query(HandedOver(stream.View()), stream.tracked, invalidated), answer) ==
                   Spec.FetchArrowStreamInto(old(View()), n, luck)
    {
      stream := null;
      if n == 0 {
        return null, Error(NO_SIZE);
      }
      if streamWrapper != null {
        stream, streamWrapper := streamWrapper, null;
      } else if result.Some? {
        stream := Wrap(luck);
      }
      answer := if stream != null then Nothing else Error(CONSUMED);
    }

    method RecordBatch(n: nat, luck: Luck) returns (stream: ArrowChunkSource?<T>, answer: Answer<T>)
      requires Valid()
      modifies this
      ensures Valid()
      ensures stream == null ==> (View(), answer) == Spec.RecordBatch(old(View()), n, luck)
      ensures stream != null ==>
                && View().place == Gone
                && (Query(HandedOver(stream.View()), stream.tracked, invalidated), answer) ==
                   Spec.RecordBatch(old(View()), n, luck)
    {
      if result.None? {
        return null, Error(CONSUMED);
      }
      stream := Wrap(luck);
      if stream == null || n == 0 {
        return null, Error(NO_SIZE);
      }
      answer := Nothing;
    }

    /** Lets go of the result or of the stream it keeps; a stream handed over is no longer here. */
    method ReleaseArrowResult()
      requires Valid()
      modifies this
      ensures Valid() && View() == Spec.DropResult(old(View()))
    {
      streamWrapper := null;
      var dropped := TakeResult();
    }
  }
}
