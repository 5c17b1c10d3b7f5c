/**
 Deferred destruction (RCallbackScope in src/statement.cpp): what a finalizer releases while R code runs
 inside a callback of the engine is parked, and destroyed once no callback runs.
*/
module CallbackScope {
  import opened Sequences

  /** `parked` is everything ever parked and `destroyed` everything destroyed, each in its order. */
  datatype Scope<O> = Scope(depth: nat, deferred: seq<O>, parked: seq<O>, destroyed: seq<O>)

  /** Every parked object waits or has been destroyed, exactly once and in the order of parking. */
  ghost predicate Accounted<O>(s: Scope<O>, beingDestroyed: seq<O>) {
    s.parked == s.destroyed + beingDestroyed + s.deferred
  }

  /** What destroying an object may do: enter and leave callbacks, and park further objects. */
  function ParkAll<O>(s: Scope<O>, objects: seq<O>): Scope<O> {
    s.(deferred := s.deferred + objects, parked := s.parked + objects)
  }

  lemma ParkKeeps<O>(s: Scope<O>, objects: seq<O>, beingDestroyed: seq<O>)
    requires Accounted(s, beingDestroyed)
    ensures Accounted(ParkAll(s, objects), beingDestroyed)
  {
    assert s.destroyed + beingDestroyed + s.deferred + objects ==
           s.destroyed + beingDestroyed + (s.deferred + objects);
  }

  datatype Op<O> = EnterCallback | LeaveCallback | ParkObject(item: O) | DrainParked

  /** How many callbacks run after n operations. */
  function DepthAfter<O>(ops: seq<Op<O>>, depth: int, n: nat): int
    requires n <= |ops|
  {
    if n == 0 then depth
    else
      DepthAfter(ops, depth, n - 1)
      + (match ops[n - 1] case EnterCallback => 1 case LeaveCallback => -1 case _ => 0)
  }

  /** No callback is left that was not entered. */
  predicate Nested<O>(ops: seq<Op<O>>, depth: nat) {
    forall i :: 0 <= i <= |ops| ==> DepthAfter(ops, depth, i) >= 0
  }

  /** Objects are only ever drained inside a callback. */
  predicate DrainsInside<O>(ops: seq<Op<O>>, depth: nat, n: nat)
    requires n <= |ops|
  {
    forall i :: 0 <= i < n && ops[i].DrainParked? ==> DepthAfter(ops, depth, i) > 0
  }

  class Callbacks<O> {
    var depth: nat
    var deferred: seq<O>
    ghost var parked: seq<O>
    ghost var destroyed: seq<O>

    ghost function View(): Scope<O>
      reads this
    {
      Scope(depth, deferred, parked, destroyed)
    }

    constructor ()
      ensures View() == Scope(0, [], [], []) && Accounted(View(), [])
    {
      depth, deferred, parked, destroyed := 0, [], [], [];
    }

    method Enter()
      modifies `depth
      ensures depth == old(depth) + 1
    {
      depth := depth + 1;
    }

    method Leave()
      requires depth > 0
      modifies `depth
      ensures depth == old(depth) - 1
    {
      depth := depth - 1;
    }

    method Park(item: O)
      modifies `deferred, `parked
      ensures View() == ParkAll(old(View()), [item])
    {
      deferred := deferred + [item];
      parked := parked + [item];
    }

    /**
     Destroys what was parked before, and nothing inside a callback.  `meanwhile[i]` is what destroying
     object i parks in turn; it waits for the next call.
    */
    method Drain(meanwhile: seq<seq<O>>)
      requires Accounted(View(), []) && |meanwhile| == |deferred|
      modifies `deferred, `parked, `destroyed
      ensures Accounted(View(), []) && old(parked) <= parked
      ensures depth > 0 ==> View() == old(View())
      ensures depth == 0 ==> destroyed == old(destroyed + deferred) && deferred == Concat(meanwhile)
    {
      if depth > 0 {
        return;
      }
      var toDestroy := deferred;
      deferred := [];
      assert toDestroy[0..] == toDestroy;
      for i := 0 to |toDestroy|
        invariant destroyed == old(destroyed) + toDestroy[..i] && old(parked) <= parked
        invariant Accounted(View(), toDestroy[i..]) && deferred == Concat(meanwhile[..i])
      {
        assert toDestroy[i..] == [toDestroy[i]] + toDestroy[i + 1..];
        assert destroyed + ([toDestroy[i]] + toDestroy[i + 1..]) + deferred ==
               destroyed + [toDestroy[i]] + toDestroy[i + 1..] + deferred;
        destroyed := destroyed + [toDestroy[i]];
        assert Accounted(View(), toDestroy[i + 1..]);
        ParkKeeps(View(), meanwhile[i], toDestroy[i + 1..]);
        ConcatNext(meanwhile, i);
        deferred := deferred + meanwhile[i];
        parked := parked + meanwhile[i];
      }
      assert toDestroy[..|toDestroy|] == toDestroy && toDestroy[|toDestroy|..] == [];
      assert meanwhile[..|toDestroy|] == meanwhile;
    }

    /**
     Over any sequence of operations, what was parked is destroyed in its order, each object once; and nothing is
     as long as a callback runs whenever objects are drained.  `parks` is what destroying an object parks in turn.
    */
    method Run(ops: seq<Op<O>>, parks: O -> seq<O>)
      requires Accounted(View(), []) && Nested(ops, depth)
      modifies this
      ensures Accounted(View(), []) && depth == DepthAfter(ops, old(depth), |ops|)
      ensures old(destroyed) <= destroyed <= parked && old(parked) <= parked
      ensures DrainsInside(ops, old(depth), |ops|) ==> destroyed == old(destroyed)
    {
      for i := 0 to |ops|
        invariant Accounted(View(), []) && depth == DepthAfter(ops, old(depth), i)
        invariant old(destroyed) <= destroyed && old(parked) <= parked
        invariant DrainsInside(ops, old(depth), i) ==> destroyed == old(destroyed)
      {
        assert DepthAfter(ops, old(depth), i + 1) >= 0;
        match ops[i]
        case EnterCallback => Enter();
        case LeaveCallback => Leave();
        case ParkObject(item) =>
          ParkKeeps(View(), [item], []);
          Park(item);
        case DrainParked => Drain(seq(|deferred|, k requires 0 <= k < |deferred| reads this => parks(deferred[k])));
      }
    }
  }
}
