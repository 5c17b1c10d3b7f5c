/**
 The registry of open results as the objects it is made of (ROpenResult::Track, ROpenResult::Untrack and
 EndOpenResults in src/arrow_export.cpp), each method run under the lock and tied to ArrowRegistry.
*/
module ArrowOpenResults {
  import Spec = ArrowRegistry
  import opened CallbackScope
  import opened Sequences
  import opened ArrowRegistry
  import opened Wrappers

  /** What ending does to a result is up to its class; here it is marked. */
  class OpenResult<C> {
    var trackedContext: Option<C>
    var ended: bool

    constructor ()
      ensures trackedContext == None && !ended
    {
      trackedContext, ended := None, false;
    }

    method EndForAnotherStatement()
      modifies `ended
      ensures ended
    {
      ended := true;
    }
  }

  class OpenResults<C(==)> {
    var open: map<C, seq<OpenResult<C>>>
    /** Where released results are parked while a callback runs. */
    const callbacks: Callbacks<OpenResult<C>>
    /** Every result there is. */
    ghost var results: set<OpenResult<C>>

    constructor ()
      ensures open == map[] && results == {} && Consistent(View())
      ensures fresh(callbacks) && Accounted(callbacks.View(), [])
    {
      open, results := map[], {};
      callbacks := new Callbacks();
    }

    ghost function View(): Registry<OpenResult<C>, C>
      reads this, results
    {
      Registry(map r | r in results && r.trackedContext.Some? :: r.trackedContext.value, open)
    }

    method Create() returns (r: OpenResult<C>)
      modifies `results
      ensures fresh(r) && results == old(results) + {r} && !r.ended && r.trackedContext == None
      ensures View() == old(View())
    {
      r := new OpenResult();
      results := results + {r};
      assert View().tracked == old(View()).tracked;
    }

    method Erase(s: seq<OpenResult<C>>, r: OpenResult<C>) returns (rest: seq<OpenResult<C>>)
      ensures rest == Without(s, r)
    {
      rest := [];
      for i := 0 to |s|
        invariant rest == Without(s[..i], r)
      {
        assert s[..i + 1][..i] == s[..i];
        if s[i] != r {
          rest := rest + [s[i]];
        }
      }
      assert s[..|s|] == s;
    }

    method Untrack(r: OpenResult<C>)
      requires r in results && Consistent(View())
      modifies this`open, r`trackedContext
      ensures View() == Spec.Untrack(old(View()), r)
      ensures Consistent(View()) && r.trackedContext == None
    {
      UntrackKeeps(View(), r);
      if r.trackedContext.None? {
        return;
      }
      var c := r.trackedContext.value;
      var rest := Erase(if c in open then open[c] else [], r);
      open := if |rest| == 0 then open - {c} else open[c := rest];
      r.trackedContext := None;
      assert View().tracked == old(View()).tracked - {r};
    }

    method Track(r: OpenResult<C>, c: C)
      requires r in results && Consistent(View())
      modifies this`open, r`trackedContext
      ensures View() == Spec.Track(old(View()), r, c)
      ensures Consistent(View()) && r.trackedContext == Some(c)
    {
      TrackKeeps(View(), r, c);
      Untrack(r);
      PushBack(r, c);
    }

    method PushBack(r: OpenResult<C>, c: C)
      requires r in results
      modifies this`open, r`trackedContext
      ensures View() == Push(old(View()), r, c) && r.trackedContext == Some(c)
    {
      open := open[c := (if c in open then open[c] else []) + [r]];
      r.trackedContext := Some(c);
      assert View().tracked == old(View()).tracked[r := c];
    }

    /** What is destroyed before results are ended: nothing while a callback runs. */
    function ToDrain(): seq<OpenResult<C>>
      reads callbacks
    {
      if callbacks.depth > 0 then [] else callbacks.deferred
    }

    /** Destroys what was parked, which unregisters exactly that; these destructors park nothing in turn. */
    method Drain()
      requires Accounted(callbacks.View(), []) && forall r :: r in ToDrain() ==> r in results
      requires Consistent(View())
      modifies this`open, results`trackedContext, callbacks
      ensures Accounted(callbacks.View(), []) && ToDrain() == []
      ensures callbacks.destroyed == old(callbacks.destroyed + ToDrain())
      ensures Consistent(View()) && View() == UntrackAll(old(View()), old(ToDrain()))
      ensures forall r :: r in results ==>
                r.trackedContext == if r in old(ToDrain()) then None else old(r.trackedContext)
    {
      var toDrain := ToDrain();
      var nothing := seq(|callbacks.deferred|, _ => []);
      ConcatOfEmpty<OpenResult<C>>(nothing);
      callbacks.Drain(nothing);
      ghost var drained := callbacks.View();
      for i := 0 to |toDrain|
        invariant View() == UntrackAll(old(View()), toDrain[..i])
        invariant results == old(results) && callbacks.View() == drained
      {
        assert toDrain[..i + 1][..i] == toDrain[..i];
        assert toDrain[i] in toDrain;
        UntrackAllKeeps(old(View()), toDrain[..i]);
        Untrack(toDrain[i]);
      }
      assert toDrain[..|toDrain|] == toDrain;
      UntrackAllKeeps(old(View()), toDrain);
      forall r | r in results
        ensures r.trackedContext == if r in toDrain then None else old(r.trackedContext)
      {
        assert r in View().tracked <==> r in old(View()).tracked && r !in toDrain;
      }
    }

    /**
     Once what was parked is gone, ends exactly the results that are still registered for the context: none is
     registered for it then, and all others stay as they were.
    */
    method EndOpenResults(c: C)
      requires Accounted(callbacks.View(), []) && forall r :: r in ToDrain() ==> r in results
      requires Consistent(View())
      modifies this`open, results`trackedContext, results`ended, callbacks
      ensures results == old(results) && Accounted(callbacks.View(), []) && ToDrain() == []
      ensures callbacks.destroyed == old(callbacks.destroyed + ToDrain())
      ensures Consistent(View()) && View() == EndAll(UntrackAll(old(View()), old(ToDrain())), c)
      ensures c !in open && forall r :: r in results ==> r.trackedContext != Some(c)
      ensures forall r :: r in results ==>
                r.trackedContext == if r in old(ToDrain()) || old(r.trackedContext) == Some(c) then None
                                    else old(r.trackedContext)
      ensures forall r :: r in results ==>
                r.ended == (old(r.ended) || (old(r.trackedContext) == Some(c) && r !in old(ToDrain())))
    {
      Drain();
      EndRegistered(c);
    }

    /** The locked section. */
    method EndRegistered(c: C)
      requires Consistent(View())
      modifies this`open, results`trackedContext, results`ended
      ensures results == old(results)
      ensures Consistent(View()) && View() == EndAll(old(View()), c)
      ensures forall r :: r in results ==>
                r.trackedContext == if old(r.trackedContext) == Some(c) then None else old(r.trackedContext)
      ensures forall r :: r in results ==> r.ended == (old(r.ended) || old(r.trackedContext) == Some(c))
    {
      var toEnd := if c in open then open[c] else [];
      ListedAreTracked(c);
      open := open - {c};
      EndEach(toEnd);
      assert View().tracked == EndAll(old(View()), c).tracked;
      EndAllKeeps(old(View()), c);
    }

    lemma ListedAreTracked(c: C)
      requires Consistent(View())
      ensures forall r :: r in List(View(), c) ==> r in results
      ensures forall r :: r in results ==> (r in List(View(), c) <==> r.trackedContext == Some(c))
    {
      assert forall r :: r in List(View(), c) ==> r in View().tracked;
      forall r | r in results
        ensures r in List(View(), c) <==> r.trackedContext == Some(c)
      {
        TrackedIsListed(View(), r, c);
        CountIn(List(View(), c), r);
      }
    }

    method EndEach(toEnd: seq<OpenResult<C>>)
      requires forall r :: r in toEnd ==> r in results
      modifies results`trackedContext, results`ended
      ensures forall r :: r in results ==> r.trackedContext == if r in toEnd then None else old(r.trackedContext)
      ensures forall r :: r in results ==> r.ended == (r in toEnd || old(r.ended))
    {
      for i := 0 to |toEnd|
        invariant forall r :: r in results ==>
                    r.trackedContext == if r in toEnd[..i] then None else old(r.trackedContext)
        invariant forall r :: r in results ==> r.ended == (r in toEnd[..i] || old(r.ended))
      {
        assert toEnd[i] in toEnd;
        assert toEnd[..i + 1] == toEnd[..i] + [toEnd[i]];
        toEnd[i].EndForAnotherStatement();
        toEnd[i].trackedContext := None;
      }
      assert toEnd[..|toEnd|] == toEnd;
    }
  }
}
