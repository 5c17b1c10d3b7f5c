/**
 The shard planner of scripts/each-partition.py: greedy fill, list scheduling, rebalancing.

 Minutes are real numbers.  A commit carries the number of build objects it invalidates.
*/
module Partitioner {
  import opened Sequences

  datatype Item = Item(sha: string, objects: nat)

  type Shard = seq<Item>
  type Plan = seq<Shard>

  // ---------------------------------------------------------------- the cost model

  datatype Model = Model(setup: real, full: real, floor: real, objectSeconds: real) {
    /** The planner's defaults, and every sensible setting: no time is negative. */
    predicate Valid() {
      0.0 <= setup && 0.0 <= full && 0.0 <= floor && 0.0 <= objectSeconds
    }

    /** A commit built on the cache its predecessor left behind. */
    function Warm(item: Item): (r: real)
      ensures r <= full
      ensures Valid() ==> 0.0 <= r
    {
      var w := floor + item.objects as real * objectSeconds / 60.0;
      if w < full then w else full
    }

    function WarmSum(items: seq<Item>): (r: real)
      ensures Valid() ==> 0.0 <= r
    {
      if items == [] then 0.0 else WarmSum(items[..|items| - 1]) + Warm(items[|items| - 1])
    }

    /** The first commit of a leg pays a build on an empty cache. */
    function BuildMinutes(shard: Shard): real {
      if shard == [] then 0.0 else full + WarmSum(shard[1..])
    }

    function EstimateMinutes(shard: Shard): (r: real)
      ensures Valid() ==> 0.0 <= r
    {
      if shard == [] then 0.0 else setup + BuildMinutes(shard)
    }

    function Costs(plan: Plan): (costs: seq<real>)
      ensures |costs| == |plan|
      ensures Valid() ==> NonNegative(costs)
    {
      seq(|plan|, k requires 0 <= k < |plan| => EstimateMinutes(plan[k]))
    }

    function RunnerMinutes(plan: Plan): real {
      Sum(Costs(plan))
    }

    /** A leg the planner may run: one commit, however heavy, or within the deadline. */
    predicate LegFits(shard: Shard, budget: real) {
      |shard| == 1 || (shard != [] && BuildMinutes(shard) <= budget)
    }

    predicate LegsFit(plan: Plan, budget: real) {
      forall i :: 0 <= i < |plan| ==> LegFits(plan[i], budget)
    }
  }

  predicate NonNegative(xs: seq<real>) {
    forall j :: 0 <= j < |xs| ==> 0.0 <= xs[j]
  }

  function Sum(xs: seq<real>): real {
    if xs == [] then 0.0 else Sum(xs[..|xs| - 1]) + xs[|xs| - 1]
  }

  /** x added up n times: n * x, without the multiplication. */
  function Times(n: nat, x: real): real {
    if n == 0 then 0.0 else x + Times(n - 1, x)
  }

  lemma {:induction false} TimesIsProduct(n: nat, x: real)
    ensures Times(n, x) == n as real * x
  {
    if n > 0 {
      TimesIsProduct(n - 1, x);
    }
  }

  /** A warm build takes the floor and so many seconds for every object, but never longer than a full build. */
  lemma WarmMinutes(model: Model, item: Item)
    ensures var seconds := 60.0 * model.floor + Times(item.objects, model.objectSeconds);
            60.0 * model.Warm(item) == if seconds < 60.0 * model.full then seconds else 60.0 * model.full
  {
    TimesIsProduct(item.objects, model.objectSeconds);
  }

  /** One more object costs its seconds, up to where a warm build is as long as a full one, and there it stays. */
  lemma WarmGrows(model: Model, sha: string, n: nat)
    requires model.Valid()
    ensures var fewer, more := model.Warm(Item(sha, n)), model.Warm(Item(sha, n + 1));
            && fewer <= more
            && (more < model.full ==> 60.0 * (more - fewer) == model.objectSeconds)
            && (fewer == model.full ==> more == model.full)
  {
    WarmMinutes(model, Item(sha, n));
    WarmMinutes(model, Item(sha, n + 1));
  }

  /** A contiguous partition of the commits into legs that fit. */
  predicate IsPlan(plan: Plan, items: seq<Item>, model: Model, budget: real) {
    Concat(plan) == items && model.LegsFit(plan, budget)
  }

  // ---------------------------------------------------------------- pass 1: greedy fill

  /** How many commits the first k legs of a plan cover. */
  function Cut(plan: Plan, k: nat): nat
    requires k <= |plan|
  {
    |Concat(plan[..k])|
  }

  /** Leg k ends where it must: with the commit that follows, if any, it would be over the deadline. */
  predicate LegIsFull(plan: Plan, k: nat, items: seq<Item>, model: Model, budget: real)
    requires k < |plan|
  {
    && plan[k] != []
    && (Cut(plan, k + 1) < |items| ==>
        model.BuildMinutes(plan[k]) + model.Warm(items[Cut(plan, k + 1)]) > budget)
  }

  predicate AllFull(plan: Plan, items: seq<Item>, model: Model, budget: real) {
    forall k :: 0 <= k < |plan| ==> LegIsFull(plan, k, items, model, budget)
  }

  /** The plan greedy makes, from the legs it has closed, the open leg, and the commits to come. */
  function GreedyRun(closed: Plan, current: Shard, rest: seq<Item>, model: Model, budget: real): Plan
    decreases |rest|
  {
    if rest == [] then (if current == [] then closed else closed + [current])
    else if current != [] && model.BuildMinutes(current) + model.Warm(rest[0]) > budget then
      GreedyRun(closed + [current], [rest[0]], rest[1..], model, budget)
    else GreedyRun(closed, current + [rest[0]], rest[1..], model, budget)
  }

  function GreedyPlan(items: seq<Item>, model: Model, budget: real): Plan {
    GreedyRun([], [], items, model, budget)
  }

  method Greedy(items: seq<Item>, model: Model, budget: real) returns (shards: Plan)
    requires model.Valid()
    ensures shards == GreedyPlan(items, model, budget)
    ensures IsPlan(shards, items, model, budget)
    ensures forall plan :: IsPlan(plan, items, model, budget) ==> |shards| <= |plan|
  {
    shards := [];
    var current: Shard := [];
    var used := 0.0;
    for i := 0 to |items|
      invariant used == model.BuildMinutes(current)
      invariant GreedyRun(shards, current, items[i..], model, budget) == GreedyPlan(items, model, budget)
    {
      var item := items[i];
      var weight := if current != [] then model.Warm(item) else model.full;
      assert items[i..][0] == item && items[i..][1..] == items[i + 1..];
      if current != [] && used + weight > budget {
        shards := shards + [current];
        current, used, weight := [], 0.0, model.full;
      }
      AppendCost(model, current, item);
      assert current == [] ==> current + [item] == [item];
      current := current + [item];
      used := used + weight;
    }
    if current != [] {
      shards := shards + [current];
    }
    GreedyIsPlan(items, model, budget);
    forall plan | IsPlan(plan, items, model, budget)
      ensures |shards| <= |plan|
    {
      FewestLegs(plan, items, model, budget);
    }
  }

  /** What the closed legs and the open one satisfy all along the pass. */
  predicate GreedyState(closed: Plan, current: Shard, rest: seq<Item>, items: seq<Item>, model: Model, budget: real) {
    && Concat(closed) + current + rest == items
    && model.LegsFit(closed, budget)
    && AllFull(closed, items, model, budget)
    && (current != [] ==> model.LegFits(current, budget))
    && (current == [] ==> closed == [])
  }

  lemma {:induction false} GreedyRunIsPlan(closed: Plan, current: Shard, rest: seq<Item>, items: seq<Item>,
                                           model: Model, budget: real)
    requires model.Valid() && GreedyState(closed, current, rest, items, model, budget)
    ensures var plan := GreedyRun(closed, current, rest, model, budget);
            IsPlan(plan, items, model, budget) && AllFull(plan, items, model, budget)
    decreases |rest|
  {
    if rest == [] {
      if current != [] {
        CloseLeg(closed, current, items, model, budget);
      }
    } else if current != [] && model.BuildMinutes(current) + model.Warm(rest[0]) > budget {
      CloseLeg(closed, current, items, model, budget);
      GreedyRunIsPlan(closed + [current], [rest[0]], rest[1..], items, model, budget);
    } else {
      AppendCost(model, current, rest[0]);
      assert Concat(closed) + (current + [rest[0]]) + rest[1..] == Concat(closed) + current + rest;
      GreedyRunIsPlan(closed, current + [rest[0]], rest[1..], items, model, budget);
    }
  }

  /** The greedy plan is contiguous, its legs fit, and each of them is full. */
  lemma GreedyIsPlan(items: seq<Item>, model: Model, budget: real)
    requires model.Valid()
    ensures IsPlan(GreedyPlan(items, model, budget), items, model, budget)
    ensures AllFull(GreedyPlan(items, model, budget), items, model, budget)
  {
    assert Concat([]) + [] + items == items;
    GreedyRunIsPlan([], [], items, items, model, budget);
  }

  lemma CloseLeg(plan: Plan, leg: Shard, items: seq<Item>, model: Model, budget: real)
    requires AllFull(plan, items, model, budget)
    requires leg != [] && Concat(plan) + leg <= items
    requires var cut := |Concat(plan) + leg|;
             cut < |items| ==> model.BuildMinutes(leg) + model.Warm(items[cut]) > budget
    ensures AllFull(plan + [leg], items, model, budget)
    ensures Concat(plan + [leg]) == Concat(plan) + leg
  {
    ConcatAppend(plan, leg);
    var all := plan + [leg];
    forall k | 0 <= k < |all| ensures LegIsFull(all, k, items, model, budget) {
      if k < |plan| {
        assert LegIsFull(plan, k, items, model, budget);
        assert all[..k + 1] == plan[..k + 1];
      } else {
        assert all[..k + 1] == all;
      }
    }
  }

  lemma AppendCost(model: Model, shard: Shard, item: Item)
    ensures model.BuildMinutes(shard + [item]) ==
            model.BuildMinutes(shard) + (if shard == [] then model.full else model.Warm(item))
  {
    if shard != [] {
      var rest := (shard + [item])[1..];
      assert rest[..|rest| - 1] == shard[1..];
    }
  }

  lemma {:induction false} WarmSumConcat(model: Model, a: seq<Item>, b: seq<Item>)
    ensures model.WarmSum(a + b) == model.WarmSum(a) + model.WarmSum(b)
  {
    if b == [] {
      assert a + b == a;
    } else {
      WarmSumConcat(model, a, b[..|b| - 1]);
      assert (a + b)[..|a + b| - 1] == a + b[..|b| - 1];
    }
  }

  /** Cutting a leg in two costs another setup and another build on an empty cache, in place of a warm one. */
  lemma SplitCost(model: Model, a: Shard, b: Shard)
    requires a != [] && b != []
    ensures model.EstimateMinutes(a) + model.EstimateMinutes(b) ==
            model.EstimateMinutes(a + b) + model.setup + model.full - model.Warm(b[0])
  {
    assert (a + b)[1..] == a[1..] + b;
    WarmSumConcat(model, a[1..], b);
    assert b == [b[0]] + b[1..];
    WarmSumConcat(model, [b[0]], b[1..]);
    assert [b[0]][..0] == [];
  }

  /** The first commit of each leg. */
  function Firsts(plan: Plan): seq<Item>
    requires forall k :: 0 <= k < |plan| ==> plan[k] != []
  {
    if plan == [] then [] else Firsts(plan[..|plan| - 1]) + [plan[|plan| - 1][0]]
  }

  /** Every leg pays one setup and one full build; every other commit builds warm. */
  lemma {:induction false} RunnerMinutesOfPlan(model: Model, plan: Plan)
    requires forall k :: 0 <= k < |plan| ==> plan[k] != []
    ensures model.RunnerMinutes(plan) + model.WarmSum(Firsts(plan)) ==
            Times(|plan|, model.setup + model.full) + model.WarmSum(Concat(plan))
  {
    if plan != [] {
      var front, leg := plan[..|plan| - 1], plan[|plan| - 1];
      RunnerMinutesOfPlan(model, front);
      assert model.Costs(plan)[..|front|] == model.Costs(front);
      WarmSumConcat(model, Concat(front), leg);
      WarmSumConcat(model, Firsts(front), [leg[0]]);
      assert leg == [leg[0]] + leg[1..] && [leg[0]][..0] == [];
      WarmSumConcat(model, [leg[0]], leg[1..]);
    }
  }

  /** A stretch of a leg costs no more than the leg: it starts cold too, and builds less. */
  lemma StretchCost(model: Model, shard: Shard, lo: nat, hi: nat)
    requires model.Valid()
    requires lo < hi <= |shard|
    ensures model.BuildMinutes(shard[lo..hi]) <= model.BuildMinutes(shard)
  {
    var inner := shard[lo + 1..hi];
    assert shard[lo..hi][1..] == inner;
    assert shard[1..] == shard[1..lo + 1] + inner + shard[hi..];
    WarmSumConcat(model, shard[1..lo + 1] + inner, shard[hi..]);
    WarmSumConcat(model, shard[1..lo + 1], inner);
  }

  /** Leg k of a plan is the stretch of commits between two cuts. */
  lemma CutOfLeg(plan: Plan, items: seq<Item>, k: nat)
    requires Concat(plan) == items && k < |plan|
    ensures Cut(plan, k) + |plan[k]| == Cut(plan, k + 1) <= |items|
    ensures plan[k] == items[Cut(plan, k)..Cut(plan, k + 1)]
  {
    PartInConcat(plan, k);
  }

  /** A leg that starts no later than a full one cannot end after it. */
  lemma CannotPass(items: seq<Item>, model: Model, budget: real, start: nat, end: nat, from: nat, cut: nat)
    requires model.Valid()
    requires start <= from < cut <= |items| && start < end <= |items|
    requires cut < |items| ==> model.BuildMinutes(items[from..cut]) + model.Warm(items[cut]) > budget
    requires model.LegFits(items[start..end], budget)
    ensures end <= cut
  {
    if cut < end {
      var leg := items[start..end];
      assert items[from..cut + 1] == items[from..cut] + [items[cut]];
      SliceOfSlice(items, start, end, from, cut + 1);
      AppendCost(model, items[from..cut], items[cut]);
      StretchCost(model, leg, from - start, cut + 1 - start);
    }
  }

  /** Greedy stays ahead: after every leg it has covered at least as many commits as any plan. */
  lemma {:induction false} StaysAhead(greedy: Plan, plan: Plan, items: seq<Item>, model: Model, budget: real, k: nat)
    requires model.Valid()
    requires Concat(greedy) == items && AllFull(greedy, items, model, budget)
    requires IsPlan(plan, items, model, budget)
    requires k <= |greedy| && k <= |plan|
    ensures Cut(plan, k) <= Cut(greedy, k)
  {
    if k > 0 {
      StaysAhead(greedy, plan, items, model, budget, k - 1);
      assert LegIsFull(greedy, k - 1, items, model, budget);
      assert model.LegFits(plan[k - 1], budget);
      CutOfLeg(greedy, items, k - 1);
      CutOfLeg(plan, items, k - 1);
      CannotPass(items, model, budget, Cut(plan, k - 1), Cut(plan, k), Cut(greedy, k - 1), Cut(greedy, k));
    }
  }

  lemma FewestLegs(plan: Plan, items: seq<Item>, model: Model, budget: real)
    requires model.Valid()
    requires IsPlan(plan, items, model, budget)
    ensures |GreedyPlan(items, model, budget)| <= |plan|
  {
    var greedy := GreedyPlan(items, model, budget);
    GreedyIsPlan(items, model, budget);
    if |plan| < |greedy| {
      var k := |plan|;
      StaysAhead(greedy, plan, items, model, budget, k);
      assert plan[..k] == plan;
      assert LegIsFull(greedy, k, items, model, budget);
      CutOfLeg(greedy, items, k);
    }
  }

  /** Shorter deadlines never need fewer legs. */
  lemma ShorterDeadlineMoreLegs(items: seq<Item>, model: Model, shorter: real, longer: real)
    requires model.Valid() && shorter <= longer
    ensures |GreedyPlan(items, model, longer)| <= |GreedyPlan(items, model, shorter)|
  {
    var plan := GreedyPlan(items, model, shorter);
    GreedyIsPlan(items, model, shorter);
    forall i | 0 <= i < |plan| ensures model.LegFits(plan[i], longer) {
      assert model.LegFits(plan[i], shorter);
    }
    FewestLegs(plan, items, model, longer);
  }

  // ---------------------------------------------------------------- wall clock of a plan

  /** The position of the least loaded slot, the first of them on a tie. */
  predicate IsFirstMin(slots: seq<real>, i: nat) {
    && i < |slots|
    && (forall j :: 0 <= j < |slots| ==> slots[i] <= slots[j])
    && (forall j :: 0 <= j < i ==> slots[i] < slots[j])
  }

  function FirstMin(slots: seq<real>): (i: nat)
    requires slots != []
    ensures IsFirstMin(slots, i)
  {
    if |slots| == 1 then 0
    else
      var i := FirstMin(slots[..|slots| - 1]);
      if slots[|slots| - 1] < slots[i] then |slots| - 1 else i
  }

  function MaxOf(slots: seq<real>): (r: real)
    requires slots != []
    ensures r in slots
    ensures forall j :: 0 <= j < |slots| ==> slots[j] <= r
  {
    if |slots| == 1 then slots[0]
    else
      var m := MaxOf(slots[..|slots| - 1]);
      if m < slots[|slots| - 1] then slots[|slots| - 1] else m
  }

  /** Legs are placed oldest first, each on the slot that frees up first: the load of every slot. */
  function Schedule(costs: seq<real>, slotCount: nat): (slots: seq<real>)
    requires slotCount > 0
    ensures |slots| == slotCount
  {
    if costs == [] then seq(slotCount, _ => 0.0)
    else
      var before := Schedule(costs[..|costs| - 1], slotCount);
      var i := FirstMin(before);
      before[i := before[i] + costs[|costs| - 1]]
  }

  function SlotCount(parallel: int, legs: nat): (p: nat)
    ensures parallel >= 1 && legs >= 1 ==> (p == parallel || p == legs) && p <= parallel && p <= legs
    ensures parallel < 1 || legs < 1 ==> p == 1
  {
    var least := if parallel < legs then parallel else legs;
    if least < 1 then 1 else least
  }

  function MakespanOf(plan: Plan, model: Model, parallel: int): real {
    if plan == [] then 0.0 else MaxOf(Schedule(model.Costs(plan), SlotCount(parallel, |plan|)))
  }

  method ArgMin(slots: array<real>) returns (i: nat)
    requires slots.Length > 0
    ensures i == FirstMin(slots[..])
  {
    i := 0;
    for j := 1 to slots.Length
      invariant i < slots.Length && IsFirstMin(slots[..j], i)
    {
      if slots[j] < slots[i] {
        i := j;
      }
    }
    assert slots[..slots.Length] == slots[..];
    FirstMinUnique(slots[..], i);
  }

  method ArrayMax(slots: array<real>) returns (r: real)
    requires slots.Length > 0
    ensures r == MaxOf(slots[..])
  {
    r := slots[0];
    for j := 1 to slots.Length
      invariant r == MaxOf(slots[..j])
    {
      assert slots[..j + 1][..j] == slots[..j];
      if r < slots[j] {
        r := slots[j];
      }
    }
    assert slots[..slots.Length] == slots[..];
  }

  lemma ScheduleNext(costs: seq<real>, k: nat, slotCount: nat)
    requires k < |costs| && slotCount > 0
    ensures var before := Schedule(costs[..k], slotCount);
            var i := FirstMin(before);
            Schedule(costs[..k + 1], slotCount) == before[i := before[i] + costs[k]]
  {
    assert costs[..k + 1][..k] == costs[..k];
  }

  /** The next leg goes to the first of the least loaded slots. */
  method Place(slots: array<real>, cost: real)
    requires slots.Length > 0
    modifies slots
    ensures var before := old(slots[..]);
            var i := FirstMin(before);
            slots[..] == before[i := before[i] + cost]
  {
    ghost var before := slots[..];
    var i := ArgMin(slots);
    slots[i] := slots[i] + cost;
    assert slots[..] == before[i := before[i] + cost];
  }

  method PlaceAll(costs: seq<real>, slotCount: nat) returns (slots: array<real>)
    requires slotCount > 0
    ensures slots[..] == Schedule(costs, slotCount)
  {
    slots := new real[slotCount](_ => 0.0);
    assert slots[..] == seq(slotCount, _ => 0.0);
    for k := 0 to |costs|
      invariant slots[..] == Schedule(costs[..k], slotCount)
    {
      ScheduleNext(costs, k, slotCount);
      Place(slots, costs[k]);
    }
    assert costs[..|costs|] == costs;
  }

  method Makespan(shards: Plan, model: Model, parallel: int) returns (r: real)
    ensures r == MakespanOf(shards, model, parallel)
  {
    if shards == [] {
      return 0.0;
    }
    var slots := PlaceAll(model.Costs(shards), SlotCount(parallel, |shards|));
    r := ArrayMax(slots);
  }

  lemma FirstMinUnique(slots: seq<real>, i: nat)
    requires IsFirstMin(slots, i)
    ensures i == FirstMin(slots)
  {
    var f := FirstMin(slots);
    assert slots[f] == slots[i];
  }

  /** What is on slot j when leg i went to slot to[i], for every i. */
  function Load(costs: seq<real>, to: seq<nat>, j: nat): real
    requires |to| == |costs|
  {
    if costs == [] then 0.0
    else
      var last := |costs| - 1;
      Load(costs[..last], to[..last], j) + if to[last] == j then costs[last] else 0.0
  }

  /** Leg k went to the slot that the older legs leave first, the first such slot on a tie. */
  predicate FreesUpFirst(costs: seq<real>, to: seq<nat>, n: nat, k: nat)
    requires |to| == |costs| && k < |costs|
  {
    && to[k] < n
    && forall j: nat :: j < n ==>
         var here, there := Load(costs[..k], to[..k], to[k]), Load(costs[..k], to[..k], j);
         here <= there && (j < to[k] ==> here < there)
  }

  /** The legs were placed oldest first, each where a slot freed up first. */
  predicate IsListSchedule(costs: seq<real>, to: seq<nat>, n: nat) {
    |to| == |costs| && forall k :: 0 <= k < |costs| ==> FreesUpFirst(costs, to, n, k)
  }

  lemma ListScheduleFront(costs: seq<real>, to: seq<nat>, n: nat, m: nat)
    requires IsListSchedule(costs, to, n) && m <= |costs|
    ensures IsListSchedule(costs[..m], to[..m], n)
  {
    forall k | 0 <= k < m ensures FreesUpFirst(costs[..m], to[..m], n, k) {
      assert FreesUpFirst(costs, to, n, k);
      assert costs[..m][..k] == costs[..k] && to[..m][..k] == to[..k];
    }
  }

  /** The loads are those of the legs placed oldest first. */
  lemma {:induction false} ScheduleIsListSchedule(costs: seq<real>, to: seq<nat>, n: nat)
    requires n > 0 && IsListSchedule(costs, to, n)
    ensures forall j :: 0 <= j < n ==> Schedule(costs, n)[j] == Load(costs, to, j)
  {
    if costs != [] {
      var last := |costs| - 1;
      ListScheduleFront(costs, to, n, last);
      ScheduleIsListSchedule(costs[..last], to[..last], n);
      var before := Schedule(costs[..last], n);
      assert FreesUpFirst(costs, to, n, last);
      assert IsFirstMin(before, to[last]);
      FirstMinUnique(before, to[last]);
    }
  }

  /** There is exactly one way to place them so. */
  lemma {:induction false} ListScheduleExists(costs: seq<real>, n: nat) returns (to: seq<nat>)
    requires n > 0
    ensures IsListSchedule(costs, to, n)
  {
    if costs == [] {
      to := [];
    } else {
      var last := |costs| - 1;
      var front := ListScheduleExists(costs[..last], n);
      ScheduleIsListSchedule(costs[..last], front, n);
      to := front + [FirstMin(Schedule(costs[..last], n))];
      ListScheduleNext(costs, front, to, n);
    }
  }

  lemma ListScheduleNext(costs: seq<real>, front: seq<nat>, to: seq<nat>, n: nat)
    requires n > 0 && costs != [] && IsListSchedule(costs[..|costs| - 1], front, n)
    requires to == front + [FirstMin(Schedule(costs[..|costs| - 1], n))]
    ensures IsListSchedule(costs, to, n)
  {
    var last := |costs| - 1;
    ScheduleIsListSchedule(costs[..last], front, n);
    forall k | 0 <= k < |costs| ensures FreesUpFirst(costs, to, n, k) {
      if k < last {
        assert FreesUpFirst(costs[..last], front, n, k);
        assert costs[..last][..k] == costs[..k] && front[..k] == to[..k];
      } else {
        assert to[..last] == front;
      }
    }
  }

  lemma {:induction false} ListScheduleUnique(costs: seq<real>, a: seq<nat>, b: seq<nat>, n: nat)
    requires n > 0 && IsListSchedule(costs, a, n) && IsListSchedule(costs, b, n)
    ensures a == b
  {
    if costs != [] {
      var last := |costs| - 1;
      ListScheduleFront(costs, a, n, last);
      ListScheduleFront(costs, b, n, last);
      ListScheduleUnique(costs[..last], a[..last], b[..last], n);
      assert FreesUpFirst(costs, a, n, last) && FreesUpFirst(costs, b, n, last);
      assert Load(costs[..last], a[..last], a[last]) == Load(costs[..last], a[..last], b[last]);
      assert a == a[..last] + [a[last]] && b == b[..last] + [b[last]];
    }
  }

  /**
   The wall clock of a plan, whose legs take setup and build each and are placed oldest first: the slot that is
   busy longest.
  */
  lemma MakespanOfSchedule(plan: Plan, model: Model, parallel: int, costs: seq<real>, to: seq<nat>)
    requires plan != [] && |costs| == |plan|
    requires forall k :: 0 <= k < |plan| ==> costs[k] == model.EstimateMinutes(plan[k])
    requires IsListSchedule(costs, to, SlotCount(parallel, |plan|))
    ensures var n := SlotCount(parallel, |plan|);
            && (forall j :: 0 <= j < n ==> Load(costs, to, j) <= MakespanOf(plan, model, parallel))
            && (exists j :: 0 <= j < n && Load(costs, to, j) == MakespanOf(plan, model, parallel))
  {
    var n := SlotCount(parallel, |plan|);
    assert costs == model.Costs(plan);
    ScheduleIsListSchedule(costs, to, n);
    var slots := Schedule(costs, n);
    forall j | 0 <= j < n ensures Load(costs, to, j) <= MakespanOf(plan, model, parallel) {
      assert slots[j] == Load(costs, to, j);
    }
    var j :| 0 <= j < n && slots[j] == MaxOf(slots);
    assert Load(costs, to, j) == MakespanOf(plan, model, parallel);
  }

  lemma {:induction false} SumUpdate(slots: seq<real>, i: nat, x: real)
    requires i < |slots|
    ensures Sum(slots[i := x]) == Sum(slots) - slots[i] + x
  {
    var last := |slots| - 1;
    if i == last {
      assert slots[i := x][..last] == slots[..last];
    } else {
      SumUpdate(slots[..last], i, x);
      assert slots[i := x][..last] == slots[..last][i := x];
    }
  }

  lemma {:induction false} SumOfZeros(n: nat)
    ensures Sum(seq(n, _ => 0.0)) == 0.0
  {
    if n > 0 {
      SumOfZeros(n - 1);
      assert seq(n, _ => 0.0)[..n - 1] == seq(n - 1, _ => 0.0);
    }
  }

  predicate Covers(slots: seq<real>, e: real) {
    exists j :: 0 <= j < |slots| && e <= slots[j]
  }

  /** The loads always add up to the runner minutes of the legs placed. */
  lemma {:induction false} LoadsAddUp(costs: seq<real>, n: nat)
    requires n > 0
    ensures Sum(Schedule(costs, n)) == Sum(costs)
  {
    if costs == [] {
      SumOfZeros(n);
    } else {
      var front := costs[..|costs| - 1];
      LoadsAddUp(front, n);
      var before := Schedule(front, n);
      var i := FirstMin(before);
      SumUpdate(before, i, before[i] + costs[|costs| - 1]);
    }
  }

  /** Every leg placed is covered by some slot from then on. */
  lemma {:induction false} LegsCovered(costs: seq<real>, n: nat, k: nat)
    requires NonNegative(costs) && n > 0 && k < |costs|
    ensures NonNegative(Schedule(costs, n))
    ensures Covers(Schedule(costs, n), costs[k])
  {
    var front := costs[..|costs| - 1];
    LoadsNonNegative(front, n);
    var before, slots := Schedule(front, n), Schedule(costs, n);
    if k < |front| {
      LegsCovered(front, n, k);
      var j :| 0 <= j < n && front[k] <= before[j];
      assert before[j] <= slots[j];
    } else {
      assert costs[k] <= slots[FirstMin(before)];
    }
  }

  lemma {:induction false} LoadsNonNegative(costs: seq<real>, n: nat)
    requires NonNegative(costs) && n > 0
    ensures NonNegative(Schedule(costs, n))
  {
    if costs != [] {
      LoadsNonNegative(costs[..|costs| - 1], n);
    }
  }

  predicate AllAtMost(xs: seq<real>, bound: real) {
    forall j :: 0 <= j < |xs| ==> xs[j] <= bound
  }

  lemma {:induction false} TimesAdd(n: nat, x: real, y: real)
    ensures Times(n, x + y) == Times(n, x) + Times(n, y)
  {
    if n > 0 {
      TimesAdd(n - 1, x, y);
    }
  }

  lemma {:induction false} TimesMonotone(n: nat, x: real, y: real)
    requires x <= y
    ensures Times(n, x) <= Times(n, y)
  {
    if n > 0 {
      TimesMonotone(n - 1, x, y);
    }
  }

  lemma {:induction false} SumAtLeast(slots: seq<real>, lo: real)
    requires forall j :: 0 <= j < |slots| ==> lo <= slots[j]
    ensures Times(|slots|, lo) <= Sum(slots)
  {
    if slots != [] {
      SumAtLeast(slots[..|slots| - 1], lo);
    }
  }

  lemma {:induction false} SumAtMost(slots: seq<real>, hi: real)
    requires AllAtMost(slots, hi)
    ensures Sum(slots) <= Times(|slots|, hi)
  {
    if slots != [] {
      SumAtMost(slots[..|slots| - 1], hi);
    }
  }

  /** No load is further above an even share than the slack, all scaled by the number of slots. */
  predicate Balanced(slots: seq<real>, bound: real) {
    forall j :: 0 <= j < |slots| ==> Times(|slots|, slots[j]) <= bound
  }

  /** A leg placed on the least loaded slot keeps every load that close to the new total. */
  lemma PlaceOne(slots: seq<real>, i: nat, e: real, longest: real)
    requires IsFirstMin(slots, i) && 0.0 <= e <= longest
    requires Balanced(slots, Sum(slots) + Times(|slots| - 1, longest))
    ensures Balanced(slots[i := slots[i] + e], Sum(slots) + e + Times(|slots| - 1, longest))
  {
    var n := |slots|;
    SumAtLeast(slots, slots[i]);
    TimesAdd(n, slots[i], e);
    TimesMonotone(n - 1, e, longest);
  }

  lemma {:induction false} SchedulesAreBalanced(costs: seq<real>, n: nat, longest: real)
    requires NonNegative(costs) && n > 0 && 0.0 <= longest && AllAtMost(costs, longest)
    ensures Balanced(Schedule(costs, n), Sum(costs) + Times(n - 1, longest))
  {
    if costs == [] {
      TimesIsProduct(n, 0.0);
      TimesIsProduct(n - 1, 0.0);
      TimesMonotone(n - 1, 0.0, longest);
    } else {
      var front := costs[..|costs| - 1];
      SchedulesAreBalanced(front, n, longest);
      LoadsAddUp(front, n);
      var before := Schedule(front, n);
      PlaceOne(before, FirstMin(before), costs[|costs| - 1], longest);
    }
  }

  predicate IsLongest(costs: seq<real>, longest: real) {
    && longest in costs
    && AllAtMost(costs, longest)
  }

  /** At least an even share of the work, and above it by less than one leg. */
  predicate NearEvenShare(wall: real, total: real, p: real, longest: real)
    requires p != 0.0
  {
    total / p <= wall <= total / p + (1.0 - 1.0 / p) * longest
  }

  /**
   List scheduling, for every plan and every number of slots: the wall clock is at least the longest
   leg and at least an even share of the work, and exceeds that share by less than one leg.
  */
  lemma MakespanBounds(plan: Plan, model: Model, parallel: int, longest: real)
    requires model.Valid() && IsLongest(model.Costs(plan), longest)
    ensures longest <= MakespanOf(plan, model, parallel)
    ensures NearEvenShare(MakespanOf(plan, model, parallel), model.RunnerMinutes(plan),
                          SlotCount(parallel, |plan|) as real, longest)
  {
    var n := SlotCount(parallel, |plan|);
    ScheduleBounds(model.Costs(plan), n, longest);
    DivideBounds(n, MakespanOf(plan, model, parallel), model.RunnerMinutes(plan), longest);
  }

  /** The same, scaled by the number of slots. */
  lemma ScheduleBounds(costs: seq<real>, n: nat, longest: real)
    requires NonNegative(costs) && n > 0 && IsLongest(costs, longest)
    ensures var wall := MaxOf(Schedule(costs, n));
            longest <= wall && Sum(costs) <= Times(n, wall) <= Sum(costs) + Times(n - 1, longest)
  {
    var slots := Schedule(costs, n);
    var k :| 0 <= k < |costs| && costs[k] == longest;
    LegsCovered(costs, n, k);
    LoadsAddUp(costs, n);
    SchedulesAreBalanced(costs, n, longest);
    SumAtMost(slots, MaxOf(slots));
  }

  lemma DivideBounds(n: nat, wall: real, total: real, longest: real)
    requires n > 0
    requires total <= Times(n, wall) <= total + Times(n - 1, longest)
    ensures NearEvenShare(wall, total, n as real, longest)
  {
    TimesIsProduct(n, wall);
    TimesIsProduct(n - 1, longest);
    DivideRealBounds(n as real, wall, total, longest);
  }

  lemma DivideRealBounds(p: real, wall: real, total: real, longest: real)
    requires 1.0 <= p
    requires total <= p * wall <= total + (p - 1.0) * longest
    ensures NearEvenShare(wall, total, p, longest)
  {
    var share, part := total / p, 1.0 / p;
    assert share * p == total && part * p == 1.0;
    CancelFactor(p, share, wall);
    var most := share + (1.0 - part) * longest;
    assert p * ((1.0 - part) * longest) == (p * (1.0 - part)) * longest;
    assert p * (1.0 - part) == p - 1.0;
    assert p * most == total + (p - 1.0) * longest;
    CancelFactor(p, wall, most);
  }

  lemma CancelFactor(p: real, a: real, b: real)
    requires 0.0 < p && p * a <= p * b
    ensures a <= b
  {
  }

  // ---------------------------------------------------------------- pass 2: rebalancing

  const WORTH_IT_MINUTES := 1.0
  const DEADLINE_SAMPLES := 512

  function Deadline(budget: real, i: int): real {
    budget * i as real / DEADLINE_SAMPLES as real
  }

  /** The deadlines are spread evenly from none to the real one. */
  lemma DeadlinesAreEven(budget: real, i: int)
    ensures Deadline(budget, 0) == 0.0 && Deadline(budget, DEADLINE_SAMPLES) == budget
    ensures 512.0 * (Deadline(budget, i + 1) - Deadline(budget, i)) == budget
  {
    assert budget * (i + 1) as real == budget * i as real + budget;
  }

  function Sizes(plan: Plan): (r: seq<nat>)
    ensures |r| == |plan|
  {
    seq(|plan|, k requires 0 <= k < |plan| => |plan[k]|)
  }

  /** The leg sizes pin a contiguous plan, so they can stand for it. */
  lemma {:induction false} SizesPinPlan(a: Plan, b: Plan)
    requires Concat(a) == Concat(b) && Sizes(a) == Sizes(b)
    ensures a == b
  {
    if a != [] {
      var n := |a| - 1;
      assert |a[n]| == Sizes(a)[n] == Sizes(b)[n] == |b[n]|;
      var items, cut := Concat(a), |Concat(a)| - |a[n]|;
      assert a[n] == items[cut..] && b[n] == items[cut..];
      assert Concat(a[..n]) == items[..cut] == Concat(b[..n]);
      assert Sizes(a[..n]) == Sizes(a)[..n] == Sizes(b)[..n] == Sizes(b[..n]);
      SizesPinPlan(a[..n], b[..n]);
    }
  }

  /** Legs within a sampled deadline are within the real one, whatever the sign of the deadline. */
  lemma SampledDeadlineFits(plan: Plan, model: Model, budget: real, i: int)
    requires model.Valid() && 1 <= i < DEADLINE_SAMPLES
    requires model.LegsFit(plan, Deadline(budget, i))
    ensures model.LegsFit(plan, budget)
  {
    forall k | 0 <= k < |plan| ensures model.LegFits(plan[k], budget) {
      assert model.LegFits(plan[k], Deadline(budget, i));
      DeadlineOrder(budget, i);
    }
  }

  lemma DeadlineOrder(budget: real, i: int)
    requires 1 <= i < DEADLINE_SAMPLES
    ensures 0.0 <= Deadline(budget, i) ==> Deadline(budget, i) <= budget
  {
    if 0.0 <= budget {
      assert budget * i as real <= budget * DEADLINE_SAMPLES as real;
    } else {
      assert budget * i as real <= budget;
    }
  }

  /** What pass 2 works with: pass 1's plan and deadline, and the runner minutes and legs it may spend. */
  datatype Search = Search(
    items: seq<Item>,
    shards: Plan,
    model: Model,
    parallel: int,
    affordable: real,
    budget: real,
    maxShards: int)
  {
    /** Candidate 0 is pass 1's own plan; the others are pass 1 again, at shorter deadlines. */
    function PlanAt(i: nat): Plan {
      if i == 0 then shards else GreedyPlan(items, model, Deadline(budget, i))
    }

    function Span(plan: Plan): real {
      MakespanOf(plan, model, parallel)
    }

    function Cost(plan: Plan): real {
      model.RunnerMinutes(plan)
    }

    /** A plan pass 2 may choose. */
    predicate Affordable(plan: Plan) {
      Cost(plan) <= affordable && |plan| <= maxShards
    }

    /** The wall clock of the fastest plan that may be chosen. */
    ghost predicate IsFastest(fastest: real) {
      && (exists i :: 0 <= i < DEADLINE_SAMPLES && Affordable(PlanAt(i)) && Span(PlanAt(i)) == fastest)
      && forall i :: 0 <= i < DEADLINE_SAMPLES && Affordable(PlanAt(i)) ==> fastest <= Span(PlanAt(i))
    }

    /** It may be chosen, and effectively ties with the fastest. */
    predicate Ties(plan: Plan, fastest: real) {
      Affordable(plan) && Span(plan) <= fastest + WORTH_IT_MINUTES
    }

    /** Candidate c is the cheapest of those that tie, and the first of the cheapest. */
    ghost predicate IsChoice(c: nat, fastest: real) {
      && c < DEADLINE_SAMPLES && Ties(PlanAt(c), fastest)
      && forall i :: 0 <= i < DEADLINE_SAMPLES && Ties(PlanAt(i), fastest) ==>
           Cost(PlanAt(c)) <= Cost(PlanAt(i)) && (i < c ==> Cost(PlanAt(c)) < Cost(PlanAt(i)))
    }

    /** What pass 2 gives. */
    ghost predicate Gives(result: Plan) {
      exists c, fastest :: IsFastest(fastest) && IsChoice(c, fastest) && result == PlanAt(c)
    }
  }

  lemma FastestIsUnique(search: Search, a: real, b: real)
    requires search.IsFastest(a) && search.IsFastest(b)
    ensures a == b
  {
    var i :| 0 <= i < DEADLINE_SAMPLES && search.Affordable(search.PlanAt(i)) && search.Span(search.PlanAt(i)) == a;
    var j :| 0 <= j < DEADLINE_SAMPLES && search.Affordable(search.PlanAt(j)) && search.Span(search.PlanAt(j)) == b;
  }

  lemma ChoiceIsFirst(search: Search, c: nat, d: nat, fastest: real)
    requires search.IsChoice(c, fastest) && search.IsChoice(d, fastest)
    ensures c <= d
  {
  }

  /** There is no other answer. */
  lemma ChoiceIsUnique(search: Search, a: Plan, b: Plan)
    requires search.Gives(a) && search.Gives(b)
    ensures a == b
  {
    var c, fast :| search.IsFastest(fast) && search.IsChoice(c, fast) && a == search.PlanAt(c);
    var d, fastest :| search.IsFastest(fastest) && search.IsChoice(d, fastest) && b == search.PlanAt(d);
    FastestIsUnique(search, fast, fastest);
    ChoiceIsFirst(search, c, d, fast);
    ChoiceIsFirst(search, d, c, fast);
  }

  predicate Disabled(items: seq<Item>, shards: Plan, factor: real, maxShards: int) {
    factor <= 1.0 || |shards| >= maxShards || |shards| >= |items|
  }

  method Rebalance(items: seq<Item>, shards: Plan, model: Model, parallel: int, factor: real, budget: real,
                   maxShards: int) returns (result: Plan)
    requires model.Valid()
    requires IsPlan(shards, items, model, budget)
    ensures IsPlan(result, items, model, budget)
    ensures Disabled(items, shards, factor, maxShards) ==> result == shards
    ensures !Disabled(items, shards, factor, maxShards) ==>
              var affordable := factor * model.RunnerMinutes(shards);
              Search(items, shards, model, parallel, affordable, budget, maxShards).Gives(result)
  {
    var affordable := factor * model.RunnerMinutes(shards);
    if factor <= 1.0 || |shards| >= (if maxShards < |items| then maxShards else |items|) {
      return shards;
    }
    SumNonNegative(model.Costs(shards));
    FactorAffords(factor, model.RunnerMinutes(shards));
    result := Pick(Search(items, shards, model, parallel, affordable, budget, maxShards));
  }

  method Pick(search: Search) returns (result: Plan)
    requires search.model.Valid() && IsPlan(search.shards, search.items, search.model, search.budget)
    requires search.Affordable(search.shards)
    ensures IsPlan(result, search.items, search.model, search.budget) && search.Gives(result)
  {
    var family, first := Family(search);
    result := Choose(search, family, first);
  }

  lemma {:induction false} SumNonNegative(xs: seq<real>)
    requires NonNegative(xs)
    ensures 0.0 <= Sum(xs)
  {
    if xs != [] {
      SumNonNegative(xs[..|xs| - 1]);
    }
  }

  lemma FactorAffords(factor: real, cost: real)
    requires 1.0 <= factor && 0.0 <= cost
    ensures cost <= factor * cost
  {
  }

  method Sample(search: Search, i: nat) returns (plan: Plan)
    requires search.model.Valid() && 1 <= i < DEADLINE_SAMPLES
    ensures plan == search.PlanAt(i)
    ensures IsPlan(plan, search.items, search.model, search.budget)
  {
    plan := Greedy(search.items, search.model, Deadline(search.budget, i));
    SampledDeadlineFits(plan, search.model, search.budget, i);
  }

  /** The first n candidates, each plan once, in the order in which they first occur. */
  ghost predicate Lists(search: Search, family: seq<Plan>, first: seq<nat>, n: nat) {
    && |first| == |family| && 0 < |family| && first[0] == 0
    && (forall k :: 0 <= k < |family| ==> first[k] < n && family[k] == search.PlanAt(first[k]))
    && (forall k, l :: 0 <= k < l < |family| ==> first[k] < first[l] && family[k] != family[l])
    && (forall i :: 0 <= i < n ==> Occurs(search, family, first, i))
  }

  /** Candidate i is there, at its first occurrence. */
  ghost predicate Occurs(search: Search, family: seq<Plan>, first: seq<nat>, i: nat)
    requires |first| == |family|
  {
    exists k :: 0 <= k < |family| && first[k] <= i && family[k] == search.PlanAt(i)
  }

  /** All the plans pass 2 may pick, each once. */
  method Family(search: Search) returns (family: seq<Plan>, ghost first: seq<nat>)
    requires search.model.Valid()
    requires IsPlan(search.shards, search.items, search.model, search.budget)
    ensures Lists(search, family, first, DEADLINE_SAMPLES)
    ensures forall plan :: plan in family ==> IsPlan(plan, search.items, search.model, search.budget)
  {
    family, first := [search.shards], [0];
    assert family[0] == search.PlanAt(0);
    assert Occurs(search, family, first, 0);
    for i := 1 to DEADLINE_SAMPLES
      invariant Lists(search, family, first, i)
      invariant forall plan :: plan in family ==> IsPlan(plan, search.items, search.model, search.budget)
    {
      var plan := Sample(search, i);
      var known := IsKnown(family, plan, search.items);
      ListsNext(search, family, first, i);
      if !known {
        family, first := family + [plan], first + [i];
      }
    }
  }

  /** Keyed by leg sizes: a plan that cuts in the same places is already there. */
  method IsKnown(family: seq<Plan>, plan: Plan, ghost items: seq<Item>) returns (known: bool)
    requires Concat(plan) == items
    requires forall p :: p in family ==> Concat(p) == items
    ensures known <==> plan in family
  {
    for k := 0 to |family|
      invariant plan !in family[..k]
    {
      assert family[k] in family;
      if Sizes(family[k]) == Sizes(plan) {
        SizesPinPlan(family[k], plan);
        return true;
      }
    }
    assert family[..|family|] == family;
    return false;
  }

  lemma ListsNext(search: Search, family: seq<Plan>, first: seq<nat>, n: nat)
    requires Lists(search, family, first, n)
    ensures var plan := search.PlanAt(n);
            if plan in family then Lists(search, family, first, n + 1)
            else Lists(search, family + [plan], first + [n], n + 1)
  {
    var plan := search.PlanAt(n);
    if plan in family {
      var k :| 0 <= k < |family| && family[k] == plan;
      assert Occurs(search, family, first, n);
    } else {
      var more, firsts := family + [plan], first + [n];
      assert more[|family|] == plan && firsts[|family|] == n;
      forall i | 0 <= i < n + 1
        ensures Occurs(search, more, firsts, i)
      {
        if i < n {
          assert Occurs(search, family, first, i);
          var k :| 0 <= k < |family| && first[k] <= i && family[k] == search.PlanAt(i);
          assert more[k] == family[k] && firsts[k] == first[k];
        }
      }
    }
  }

  datatype Scored = Scored(span: real, cost: real, plan: Plan)

  /** The plans that may be chosen, in the order of the family: `from[m]` is where the m-th stands in it. */
  ghost predicate Scores(search: Search, family: seq<Plan>, n: nat, scored: seq<Scored>, from: seq<nat>)
    requires n <= |family|
  {
    && |from| == |scored|
    && (forall m :: 0 <= m < |scored| ==>
          && from[m] < n && search.Affordable(family[from[m]])
          && scored[m] == Scored(search.Span(family[from[m]]), search.Cost(family[from[m]]), family[from[m]]))
    && (forall m, l :: 0 <= m < l < |scored| ==> from[m] < from[l])
    && (forall k :: 0 <= k < n && search.Affordable(family[k]) ==> k in from)
  }

  /** The fastest wall clock, and among the plans that effectively tie on it, the cheapest. */
  method Choose(search: Search, family: seq<Plan>, ghost first: seq<nat>) returns (result: Plan)
    requires Lists(search, family, first, DEADLINE_SAMPLES) && search.Affordable(search.shards)
    ensures result in family && search.Gives(result)
  {
    var scored, from := Score(search, family);
    assert 0 in from;
    var chosen, fastest := CheapestOfFastest(scored);
    result := scored[chosen].plan;
    ChoiceInFamily(search, family, first, scored, from, chosen, fastest);
  }

  method Score(search: Search, family: seq<Plan>) returns (scored: seq<Scored>, ghost from: seq<nat>)
    ensures Scores(search, family, |family|, scored, from)
  {
    scored, from := [], [];
    for k := 0 to |family|
      invariant Scores(search, family, k, scored, from)
    {
      var cost := search.model.RunnerMinutes(family[k]);
      if cost <= search.affordable && |family[k]| <= search.maxShards {
        var span := Makespan(family[k], search.model, search.parallel);
        ghost var before := from;
        scored, from := scored + [Scored(span, cost, family[k])], from + [k];
        assert from[|before|] == k;
      }
    }
  }

  /** Some plan is the fastest, and the chosen one is the first of the cheapest within a minute of it. */
  ghost predicate IsFirstCheapest(scored: seq<Scored>, chosen: nat, fastest: real) {
    && (exists m :: 0 <= m < |scored| && scored[m].span == fastest)
    && (forall m :: 0 <= m < |scored| ==> fastest <= scored[m].span)
    && chosen < |scored| && scored[chosen].span <= fastest + WORTH_IT_MINUTES
    && forall m :: 0 <= m < |scored| && scored[m].span <= fastest + WORTH_IT_MINUTES ==>
         scored[chosen].cost <= scored[m].cost && (m < chosen ==> scored[chosen].cost < scored[m].cost)
  }

  /** A candidate that may be chosen was scored, at its first occurrence. */
  lemma WasScored(search: Search, family: seq<Plan>, first: seq<nat>, scored: seq<Scored>, from: seq<nat>, i: nat)
    returns (m: nat)
    requires Lists(search, family, first, DEADLINE_SAMPLES) && Scores(search, family, |family|, scored, from)
    requires i < DEADLINE_SAMPLES && search.Affordable(search.PlanAt(i))
    ensures m < |scored| && first[from[m]] <= i && scored[m].plan == search.PlanAt(i)
  {
    assert Occurs(search, family, first, i);
    var k :| 0 <= k < |family| && first[k] <= i && family[k] == search.PlanAt(i);
    assert k in from;
    m :| 0 <= m < |from| && from[m] == k;
  }

  lemma ScoredAt(search: Search, family: seq<Plan>, first: seq<nat>, scored: seq<Scored>, from: seq<nat>, m: nat)
    requires Lists(search, family, first, DEADLINE_SAMPLES) && Scores(search, family, |family|, scored, from)
    requires m < |scored|
    ensures first[from[m]] < DEADLINE_SAMPLES
    ensures var plan := search.PlanAt(first[from[m]]);
            search.Affordable(plan) && scored[m] == Scored(search.Span(plan), search.Cost(plan), plan)
  {
  }

  lemma FastestInFamily(search: Search, family: seq<Plan>, first: seq<nat>, scored: seq<Scored>, from: seq<nat>,
                        chosen: nat, fastest: real)
    requires Lists(search, family, first, DEADLINE_SAMPLES) && Scores(search, family, |family|, scored, from)
    requires IsFirstCheapest(scored, chosen, fastest)
    ensures search.IsFastest(fastest)
  {
    forall i | 0 <= i < DEADLINE_SAMPLES && search.Affordable(search.PlanAt(i))
      ensures fastest <= search.Span(search.PlanAt(i))
    {
      var l := WasScored(search, family, first, scored, from, i);
      ScoredAt(search, family, first, scored, from, l);
    }
    var m :| 0 <= m < |scored| && scored[m].span == fastest;
    ScoredAt(search, family, first, scored, from, m);
  }

  /** What is cheaper is not scored, or does not tie; what costs the same comes later. */
  lemma CheaperComesLater(search: Search, family: seq<Plan>, first: seq<nat>, scored: seq<Scored>, from: seq<nat>,
                          chosen: nat, fastest: real, i: nat)
    requires Lists(search, family, first, DEADLINE_SAMPLES) && Scores(search, family, |family|, scored, from)
    requires IsFirstCheapest(scored, chosen, fastest)
    requires i < DEADLINE_SAMPLES && search.Ties(search.PlanAt(i), fastest)
    ensures scored[chosen].cost <= search.Cost(search.PlanAt(i))
    ensures i < first[from[chosen]] ==> scored[chosen].cost < search.Cost(search.PlanAt(i))
  {
    var l := WasScored(search, family, first, scored, from, i);
    ScoredAt(search, family, first, scored, from, l);
  }

  /** What is chosen from the plans scored is what pass 2 gives. */
  lemma ChoiceInFamily(search: Search, family: seq<Plan>, first: seq<nat>, scored: seq<Scored>, from: seq<nat>,
                       chosen: nat, fastest: real)
    requires Lists(search, family, first, DEADLINE_SAMPLES) && Scores(search, family, |family|, scored, from)
    requires IsFirstCheapest(scored, chosen, fastest)
    ensures search.Gives(scored[chosen].plan)
  {
    FastestInFamily(search, family, first, scored, from, chosen, fastest);
    ScoredAt(search, family, first, scored, from, chosen);
    var c := first[from[chosen]];
    forall i | 0 <= i < DEADLINE_SAMPLES && search.Ties(search.PlanAt(i), fastest)
      ensures search.Cost(search.PlanAt(c)) <= search.Cost(search.PlanAt(i))
      ensures i < c ==> search.Cost(search.PlanAt(c)) < search.Cost(search.PlanAt(i))
    {
      CheaperComesLater(search, family, first, scored, from, chosen, fastest, i);
    }
    assert search.IsChoice(c, fastest);
  }

  method CheapestOfFastest(scored: seq<Scored>) returns (chosen: nat, fastest: real)
    requires scored != []
    ensures IsFirstCheapest(scored, chosen, fastest)
  {
    var best := 0;
    for k := 1 to |scored|
      invariant best < |scored|
      invariant forall j :: 0 <= j < k ==> scored[best].span <= scored[j].span
    {
      if scored[k].span < scored[best].span {
        best := k;
      }
    }
    fastest := scored[best].span;
    var good := fastest + WORTH_IT_MINUTES;
    chosen := |scored|;
    for k := 0 to |scored|
      invariant chosen == |scored| || (chosen < k && scored[chosen].span <= good)
      invariant forall j :: 0 <= j < k && scored[j].span <= good ==>
        chosen < |scored| && scored[chosen].cost <= scored[j].cost
            && (j < chosen ==> scored[chosen].cost < scored[j].cost)
    {
      if scored[k].span <= good && (chosen == |scored| || scored[k].cost < scored[chosen].cost) {
        chosen := k;
      }
    }
    assert scored[best].span <= good;
  }
}
