/**
 The open results of the Arrow route (ROpenResult in src/include/rapi.hpp and src/arrow_export.cpp): which
 results hold a query open, by connection, under a lock, while other threads release results.
*/
module ArrowRegistry {
  import opened Sequences

  // ---------------------------------------------------------------- lists of results

  /** Erases every occurrence. */
  function Without<R(==)>(s: seq<R>, r: R): seq<R> {
    if s == [] then []
    else if s[|s| - 1] == r then Without(s[..|s| - 1], r)
    else Without(s[..|s| - 1], r) + [s[|s| - 1]]
  }

  lemma {:induction false} CountIn<R>(s: seq<R>, r: R)
    ensures Count(s, r) > 0 <==> r in s
  {
    if s != [] {
      CountIn(s[..|s| - 1], r);
    }
  }

  lemma CountAppend<R>(s: seq<R>, x: R, r: R)
    ensures Count(s + [x], r) == Count(s, r) + if x == r then 1 else 0
  {
    assert (s + [x])[..|s + [x]| - 1] == s;
  }

  lemma {:induction false} CountWithout<R>(s: seq<R>, x: R, r: R)
    ensures Count(Without(s, x), r) == if x == r then 0 else Count(s, r)
  {
    if s != [] {
      var front, last := s[..|s| - 1], s[|s| - 1];
      CountWithout(front, x, r);
      if last != x {
        CountAppend(Without(front, x), last, r);
      }
    }
  }

  /** What occurs once does not occur at two places. */
  lemma {:induction false} OnceIsDistinct<R>(s: seq<R>, i: nat, j: nat)
    requires i < j < |s| && s[i] == s[j]
    ensures Count(s, s[i]) >= 2
  {
    var front := s[..|s| - 1];
    if j == |s| - 1 {
      CountIn(front, s[i]);
      assert front[i] == s[i];
    } else {
      OnceIsDistinct(front, i, j);
    }
  }

  // ---------------------------------------------------------------- the registry

  /** The context each result is registered for, and the results of each context. */
  datatype Registry<R, C> = Registry(tracked: map<R, C>, open: map<C, seq<R>>)

  function List<R, C>(reg: Registry<R, C>, c: C): seq<R> {
    if c in reg.open then reg.open[c] else []
  }

  /** A result is registered for a context exactly when it occurs, once, in the list of that context. */
  ghost predicate Consistent<R, C>(reg: Registry<R, C>) {
    && (forall c :: c in reg.open ==> reg.open[c] != [])
    && (forall c, r :: c in reg.open && r in reg.open[c] ==> r in reg.tracked && reg.tracked[r] == c)
    && (forall r :: r in reg.tracked ==> Count(List(reg, reg.tracked[r]), r) == 1)
  }

  function Untrack<R, C>(reg: Registry<R, C>, r: R): Registry<R, C> {
    if r !in reg.tracked then reg
    else
      var c := reg.tracked[r];
      var rest := Without(List(reg, c), r);
      Registry(reg.tracked - {r}, if rest == [] then reg.open - {c} else reg.open[c := rest])
  }

  function Push<R, C>(reg: Registry<R, C>, r: R, c: C): Registry<R, C> {
    Registry(reg.tracked[r := c], reg.open[c := List(reg, c) + [r]])
  }

  function Track<R, C>(reg: Registry<R, C>, r: R, c: C): Registry<R, C> {
    Push(Untrack(reg, r), r, c)
  }

  /** No result is registered for the context any more. */
  function EndAll<R, C>(reg: Registry<R, C>, c: C): Registry<R, C> {
    Registry(map r | r in reg.tracked && r !in List(reg, c) :: reg.tracked[r], reg.open - {c})
  }

  /** The results as their destructors unregister them, one after the other. */
  function UntrackAll<R, C>(reg: Registry<R, C>, results: seq<R>): Registry<R, C> {
    if results == [] then reg else Untrack(UntrackAll(reg, results[..|results| - 1]), results[|results| - 1])
  }

  /** Both directions: registered for c is occurring once in the list of c, otherwise it does not occur there. */
  lemma TrackedIsListed<R, C>(reg: Registry<R, C>, r: R, c: C)
    requires Consistent(reg)
    ensures r in reg.tracked && reg.tracked[r] == c <==> Count(List(reg, c), r) == 1
    ensures !(r in reg.tracked && reg.tracked[r] == c) <==> Count(List(reg, c), r) == 0
  {
    CountIn(List(reg, c), r);
  }

  lemma UntrackKeeps<R, C>(reg: Registry<R, C>, r: R)
    requires Consistent(reg)
    ensures var after := Untrack(reg, r);
            && Consistent(after)
            && after.tracked == reg.tracked - {r}
            && forall c :: c in reg.open && !(r in reg.tracked && reg.tracked[r] == c) ==>
                 c in after.open && after.open[c] == reg.open[c]
  {
    if r in reg.tracked {
      var c := reg.tracked[r];
      var list := List(reg, c);
      CountIn(list, r);
      var rest := Without(list, r);
      var after := Untrack(reg, r);
      forall x | x in rest
        ensures x in list && x != r
      {
        CountIn(rest, x);
        CountWithout(list, r, x);
        CountIn(list, x);
      }
      forall x | x in after.tracked
        ensures Count(List(after, after.tracked[x]), x) == 1
      {
        CountWithout(list, r, x);
      }
    }
  }

  /** Destroying what was parked unregisters exactly that. */
  lemma {:induction false} UntrackAllKeeps<R, C>(reg: Registry<R, C>, results: seq<R>)
    requires Consistent(reg)
    ensures Consistent(UntrackAll(reg, results))
    ensures UntrackAll(reg, results).tracked == reg.tracked - set r | r in results
  {
    if results != [] {
      var front, last := results[..|results| - 1], results[|results| - 1];
      UntrackAllKeeps(reg, front);
      UntrackKeeps(UntrackAll(reg, front), last);
      assert (set r | r in results) == (set r | r in front) + {last};
    }
  }

  lemma PushedIsListed<R, C>(reg: Registry<R, C>, r: R, c: C, x: R)
    requires Consistent(reg) && r !in reg.tracked && x in Push(reg, r, c).tracked
    ensures var after := Push(reg, r, c); Count(List(after, after.tracked[x]), x) == 1
  {
    var list := List(reg, c);
    CountAppend(list, r, x);
    if x == r {
      CountIn(list, r);
    }
  }

  lemma PushKeeps<R, C>(reg: Registry<R, C>, r: R, c: C)
    requires Consistent(reg) && r !in reg.tracked
    ensures Consistent(Push(reg, r, c))
  {
    var after := Push(reg, r, c);
    forall x | x in after.tracked
      ensures Count(List(after, after.tracked[x]), x) == 1
    {
      PushedIsListed(reg, r, c, x);
    }
  }

  lemma TrackKeeps<R, C>(reg: Registry<R, C>, r: R, c: C)
    requires Consistent(reg)
    ensures var after := Track(reg, r, c);
            Consistent(after) && after.tracked == reg.tracked[r := c]
  {
    UntrackKeeps(reg, r);
    PushKeeps(Untrack(reg, r), r, c);
  }

  /** Ending a context's results leaves none registered for it, and all others as they were. */
  lemma EndAllKeeps<R, C>(reg: Registry<R, C>, c: C)
    requires Consistent(reg)
    ensures var after := EndAll(reg, c);
            && Consistent(after) && c !in after.open
            && (forall r :: r in reg.tracked ==> (r in after.tracked <==> reg.tracked[r] != c))
            && (forall r :: r in after.tracked ==> r in reg.tracked && after.tracked[r] == reg.tracked[r])
            && (forall d :: d in reg.open && d != c ==> d in after.open && after.open[d] == reg.open[d])
  {
    forall r | r in reg.tracked
      ensures r in List(reg, c) <==> reg.tracked[r] == c
    {
      TrackedIsListed(reg, r, c);
      CountIn(List(reg, c), r);
    }
  }

  // ---------------------------------------------------------------- threads

  /** A result is parked by a release inside a callback; a destructor unregisters it before it is freed. */
  datatype Phase = Live | Parked | Releasing | Unregistered | Freed

  /**
   R's thread ends the results of a context: it first destroys what was parked, without the lock, which it then
   holds while it ends results; `before` is the registry it found.
  */
  datatype Ending<R, C> =
    | Idle
    | Draining(context: C, parked: set<R>)
    | Ending(context: C, toEnd: seq<R>, done: nat, before: Registry<R, C>)

  /** `depth` is how many callbacks of the engine are running. */
  datatype Machine<R, C> = Machine(reg: Registry<R, C>, phase: map<R, Phase>, depth: nat, ending: Ending<R, C>)

  datatype Action<R, C> =
    | Create(r: R)
    | Register(r: R, c: C)
    | HandOn(r: R)
    | Park(r: R)
    | StartRelease(r: R)
    | Unregister(r: R)
    | Free(r: R)
    | EnterCallback
    | LeaveCallback
    | StartDrain(c: C)
    | BeginEnding
    | EndOne
    | FinishEnding

  predicate In<R, C>(m: Machine<R, C>, r: R, phases: set<Phase>) {
    r in m.phase && m.phase[r] in phases
  }

  predicate LockIsFree<R, C>(m: Machine<R, C>) {
    !m.ending.Ending?
  }

  /** Releasing and freeing may happen at any time; whatever touches the registry waits for the lock. */
  predicate Enabled<R, C>(m: Machine<R, C>, a: Action<R, C>) {
    match a
    case Create(r) => r !in m.phase
    case Register(r, _) => In(m, r, {Live}) && LockIsFree(m)
    case HandOn(r) => In(m, r, {Live}) && LockIsFree(m)
    case Park(r) => In(m, r, {Live})
    case StartRelease(r) => In(m, r, {Live, Parked})
    case Unregister(r) => In(m, r, {Releasing}) && LockIsFree(m)
    case Free(r) => In(m, r, {Unregistered})
    case EnterCallback => true
    case LeaveCallback => m.depth > 0
    case StartDrain(_) => m.ending.Idle?
    case BeginEnding => m.ending.Draining? && forall r :: r in m.ending.parked ==> In(m, r, {Freed})
    case EndOne => m.ending.Ending? && m.ending.done < |m.ending.toEnd|
    case FinishEnding => m.ending.Ending? && m.ending.done == |m.ending.toEnd|
  }

  function Act<R, C>(m: Machine<R, C>, a: Action<R, C>): Machine<R, C>
    requires Enabled(m, a)
  {
    match a
    case Create(r) => m.(phase := m.phase[r := Live])
    case Register(r, c) => m.(reg := Track(m.reg, r, c))
    case HandOn(r) => m.(reg := Untrack(m.reg, r))
    case Park(r) => m.(phase := m.phase[r := Parked])
    case StartRelease(r) => m.(phase := m.phase[r := Releasing])
    case Unregister(r) => m.(reg := Untrack(m.reg, r), phase := m.phase[r := Unregistered])
    case Free(r) => m.(phase := m.phase[r := Freed])
    case EnterCallback => m.(depth := m.depth + 1)
    case LeaveCallback => m.(depth := m.depth - 1)
    case StartDrain(c) =>
      m.(ending := Draining(c, if m.depth > 0 then {} else set r | r in m.phase && m.phase[r].Parked?))
    case BeginEnding =>
      var c := m.ending.context;
      if c !in m.reg.open then m.(ending := Idle)
      else m.(reg := m.reg.(open := m.reg.open - {c}), ending := Ending(c, m.reg.open[c], 0, m.reg))
    case EndOne =>
      var r := m.ending.toEnd[m.ending.done];
      m.(reg := m.reg.(tracked := m.reg.tracked - {r}), ending := m.ending.(done := m.ending.done + 1))
    case FinishEnding => m.(ending := Idle)
  }

  /** Whoever is registered has not unregistered itself for its destruction. */
  ghost predicate RegisteredAreAlive<R, C>(m: Machine<R, C>) {
    forall r :: r in m.reg.tracked ==> In(m, r, {Live, Parked, Releasing})
  }

  function FirstOf<R>(s: seq<R>, n: nat): set<R>
    requires n <= |s|
  {
    set r | r in s[..n]
  }

  /** Half-way through: the list is gone, and the results ended so far are no longer registered. */
  ghost predicate EndingOk<R, C>(m: Machine<R, C>)
    requires m.ending.Ending?
  {
    var e := m.ending;
    && Consistent(e.before) && e.context in e.before.open && e.toEnd == e.before.open[e.context]
    && e.done <= |e.toEnd|
    && m.reg.open == e.before.open - {e.context}
    && m.reg.tracked == e.before.tracked - FirstOf(e.toEnd, e.done)
  }

  ghost predicate MachineOk<R, C>(m: Machine<R, C>) {
    && RegisteredAreAlive(m)
    && (if LockIsFree(m) then Consistent(m.reg) else EndingOk(m))
  }

  /** The results still to be ended are registered. */
  lemma ToEndIsRegistered<R, C>(m: Machine<R, C>, i: nat)
    requires m.ending.Ending? && EndingOk(m) && m.ending.done <= i < |m.ending.toEnd|
    ensures m.ending.toEnd[i] in m.reg.tracked
  {
    var e := m.ending;
    var r := e.toEnd[i];
    TrackedIsListed(e.before, r, e.context);
    CountIn(e.toEnd, r);
    if r in e.toEnd[..e.done] {
      var j: nat :| j < e.done && e.toEnd[j] == r;
      OnceIsDistinct(e.toEnd, j, i);
    }
  }

  /** No result is unregistered for its destruction, let alone freed, before it has been ended. */
  lemma EndedAreAlive<R, C>(m: Machine<R, C>, i: nat)
    requires MachineOk(m) && m.ending.Ending? && m.ending.done <= i < |m.ending.toEnd|
    ensures In(m, m.ending.toEnd[i], {Live, Parked, Releasing})
  {
    ToEndIsRegistered(m, i);
  }

  /** When the lock is given up, the registry is the one found, without the results of that context. */
  lemma FinishedEnding<R, C>(m: Machine<R, C>)
    requires MachineOk(m) && Enabled(m, FinishEnding)
    ensures m.reg == EndAll(m.ending.before, m.ending.context)
    ensures forall r :: r in m.reg.tracked ==> m.reg.tracked[r] != m.ending.context
    ensures Consistent(m.reg)
  {
    var e := m.ending;
    EndAllKeeps(e.before, e.context);
    assert e.toEnd[..e.done] == e.toEnd;
    assert m.reg.tracked == EndAll(e.before, e.context).tracked;
  }

  lemma EndOneOk<R, C>(m: Machine<R, C>)
    requires MachineOk(m) && Enabled(m, EndOne)
    ensures MachineOk(Act(m, EndOne))
  {
    var e, after := m.ending, Act(m, EndOne);
    assert e.toEnd[..e.done + 1] == e.toEnd[..e.done] + [e.toEnd[e.done]];
    assert after.reg.tracked == e.before.tracked - FirstOf(e.toEnd, e.done + 1);
  }

  lemma BeginEndingOk<R, C>(m: Machine<R, C>)
    requires MachineOk(m) && Enabled(m, BeginEnding)
    ensures MachineOk(Act(m, BeginEnding))
  {
    if m.ending.context in m.reg.open {
      var e := Act(m, BeginEnding).ending;
      assert m.reg.tracked == m.reg.tracked - FirstOf(e.toEnd, 0);
    }
  }

  lemma ActOk<R, C>(m: Machine<R, C>, a: Action<R, C>)
    requires MachineOk(m) && Enabled(m, a)
    ensures MachineOk(Act(m, a))
  {
    match a
    case Register(r, c) => TrackKeeps(m.reg, r, c);
    case HandOn(r) => UntrackKeeps(m.reg, r);
    case Unregister(r) => UntrackKeeps(m.reg, r);
    case BeginEnding => BeginEndingOk(m);
    case EndOne => EndOneOk(m);
    case FinishEnding => FinishedEnding(m);
    case _ =>
  }

  // ---------------------------------------------------------------- whole runs

  ghost predicate IsRun<R, C>(machines: seq<Machine<R, C>>, actions: seq<Action<R, C>>) {
    && |machines| == |actions| + 1
    && machines[0] == Machine(Registry(map[], map[]), map[], 0, Idle)
    && forall k :: 0 <= k < |actions| ==>
         Enabled(machines[k], actions[k]) && machines[k + 1] == Act(machines[k], actions[k])
  }

  /** Under every interleaving the registry is consistent whenever the lock is free, and half-way ended otherwise. */
  lemma {:induction false} EveryInterleavingIsOk<R, C>(machines: seq<Machine<R, C>>, actions: seq<Action<R, C>>, k: nat)
    requires IsRun(machines, actions) && k <= |actions|
    ensures MachineOk(machines[k])
  {
    if k > 0 {
      EveryInterleavingIsOk(machines, actions, k - 1);
      ActOk(machines[k - 1], actions[k - 1]);
    }
  }

  /** No result is freed, or about to be, while it waits to be ended or is being ended. */
  lemma NeverFreedWhileEnded<R, C>(machines: seq<Machine<R, C>>, actions: seq<Action<R, C>>, k: nat, i: nat)
    requires IsRun(machines, actions) && k <= |actions|
    requires machines[k].ending.Ending? && machines[k].ending.done <= i < |machines[k].ending.toEnd|
    ensures In(machines[k], machines[k].ending.toEnd[i], {Live, Parked, Releasing})
  {
    EveryInterleavingIsOk(machines, actions, k);
    EndedAreAlive(machines[k], i);
  }

  /** A freed result is in no list, so no context's ending can reach it. */
  lemma FreedAreUnlisted<R, C>(machines: seq<Machine<R, C>>, actions: seq<Action<R, C>>, k: nat, r: R, c: C)
    requires IsRun(machines, actions) && k <= |actions| && LockIsFree(machines[k])
    requires In(machines[k], r, {Unregistered, Freed})
    ensures r !in List(machines[k].reg, c)
  {
    EveryInterleavingIsOk(machines, actions, k);
    TrackedIsListed(machines[k].reg, r, c);
    CountIn(List(machines[k].reg, c), r);
  }

  lemma {:induction false} StaysDraining<R, C>(machines: seq<Machine<R, C>>, actions: seq<Action<R, C>>, j: nat, k: nat)
    requires IsRun(machines, actions) && j <= k <= |actions| && machines[j].ending.Draining?
    requires forall i :: j <= i < k ==> actions[i] != BeginEnding
    ensures machines[k].ending == machines[j].ending
  {
    if j < k {
      StaysDraining(machines, actions, j, k - 1);
    }
  }

  /**
   Outside of callbacks, whatever was parked when R's thread set out to end the results of a context is freed,
   and in no list, before any result is ended: nothing parked holds its query open.
  */
  lemma ParkedAreFreedFirst<R, C>(machines: seq<Machine<R, C>>, actions: seq<Action<R, C>>, j: nat, k: nat, c: C,
                                  r: R, d: C)
    requires IsRun(machines, actions) && j < k < |actions|
    requires actions[j] == StartDrain(c) && machines[j].depth == 0 && In(machines[j], r, {Parked})
    requires actions[k] == BeginEnding && forall i :: j < i < k ==> actions[i] != BeginEnding
    ensures In(machines[k + 1], r, {Freed}) && r !in List(machines[k + 1].reg, d)
    ensures machines[k + 1].ending.Ending? ==> machines[k + 1].ending.context == c && r !in machines[k + 1].ending.toEnd
  {
    StaysDraining(machines, actions, j + 1, k);
    assert machines[j + 1] == Act(machines[j], actions[j]);
    assert In(machines[k], r, {Freed});
    assert machines[k + 1] == Act(machines[k], actions[k]);
    FreedAreUnlisted(machines, actions, k, r, d);
    FreedAreUnlisted(machines, actions, k, r, c);
  }
}
