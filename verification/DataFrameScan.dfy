/**
 The parallel scan of an R data frame (src/scan.cpp): threads claim ranges of rows under a lock and
 emit them vector by vector.
*/
module DataFrameScan {
  import opened Arithmetic
  import opened Sequences
  import opened Wrappers

  /** The size of the job, of a claim, and of a vector. */
  datatype Job = Job(rowCount: nat, rowsPerTask: nat, vectorSize: nat) {
    predicate Valid() {
      rowsPerTask > 0 && vectorSize > 0
    }

    /** The number of threads the scan asks for: rows by rows per task, rounded up. */
    function MaxThreads(): (r: nat)
      requires Valid()
      ensures r * rowsPerTask >= rowCount
      ensures r > 0 ==> (r - 1) * rowsPerTask < rowCount
    {
      var r := (rowCount + rowsPerTask - 1) / rowsPerTask;
      assert r * rowsPerTask + (rowCount + rowsPerTask - 1) % rowsPerTask == rowCount + rowsPerTask - 1;
      r
    }
  }

  /** A thread's claim: rows [offset, offset + count), of which `position` are emitted. */
  datatype Claim = Claim(position: nat, offset: nat, count: nat) {
    predicate Exhausted() {
      position >= count
    }

    predicate Holds(row: nat) {
      offset + position <= row < offset + count
    }
  }

  const NOTHING := Claim(0, 0, 0)

  function NextClaim(next: nat, job: Job): (Option<Claim>, nat) {
    if next >= job.rowCount then (None, next)
    else
      var count := if job.rowsPerTask < job.rowCount - next then job.rowsPerTask else job.rowCount - next;
      (Some(Claim(0, next, count)), next + job.rowsPerTask)
  }

  /** What one scan call does: the rows it emits, the thread's claim, and the global position. */
  datatype Scanned = Scanned(rows: seq<nat>, claim: Claim, next: nat, claimed: bool)

  function EmitFrom(claim: Claim, next: nat, job: Job, claimed: bool): Scanned {
    var left := if claim.Exhausted() then 0 else claim.count - claim.position;
    var n := if job.vectorSize < left then job.vectorSize else left;
    Scanned(seq(n, i => claim.offset + claim.position + i), claim.(position := claim.position + n), next, claimed)
  }

  function ScanCall(claim: Claim, next: nat, job: Job): Scanned {
    if !claim.Exhausted() then EmitFrom(claim, next, job, false)
    else
      var (claimed, next') := NextClaim(next, job);
      if claimed.None? then Scanned([], NOTHING, next, false)
      else EmitFrom(claimed.value, next', job, true)
  }

  // ---------------------------------------------------------------- the code

  class GlobalState {
    var position: nat
    const job: Job
    const maxThreads: nat

    constructor (job: Job)
      requires job.Valid()
      ensures position == 0 && this.job == job && maxThreads == job.MaxThreads()
    {
      position := 0;
      this.job := job;
      maxThreads := job.MaxThreads();
    }

    /** Claims the next range under the lock; without one left, the thread's claim is empty. */
    method ParallelStateNext(local: LocalState) returns (found: bool)
      modifies this`position, local
      ensures var (claim, next) := NextClaim(old(position), job);
              && found == claim.Some?
              && position == next
              && local.View() == if claim.Some? then claim.value else NOTHING
      ensures found == (old(position) < job.rowCount)
      ensures found ==> position == old(position) + job.rowsPerTask
      ensures found ==> local.position == 0 && local.offset == old(position) && local.count <= job.rowsPerTask
      ensures found && local.count < job.rowsPerTask ==> local.offset + local.count == job.rowCount
      ensures !found ==> local.position >= local.count && position == old(position)
    {
      if position >= job.rowCount {
        local.position, local.offset, local.count := 0, 0, 0;
        return false;
      }
      var offset := position;
      var count := if job.rowsPerTask < job.rowCount - offset then job.rowsPerTask else job.rowCount - offset;
      local.position, local.offset, local.count := 0, offset, count;
      position := position + job.rowsPerTask;
      return true;
    }

    method InitLocal() returns (local: LocalState)
      modifies this`position
      ensures fresh(local)
      ensures var (claim, next) := NextClaim(old(position), job);
              position == next && local.View() == if claim.Some? then claim.value else NOTHING
    {
      local := new LocalState();
      var _ := ParallelStateNext(local);
    }

    /** One vector of consecutive rows, short only at the end of a claim; an empty one ends this thread's scan. */
    method ScanFunc(local: LocalState) returns (rows: seq<nat>)
      requires local.View().offset + local.View().count <= job.rowCount
      modifies this`position, local
      ensures var r := ScanCall(old(local.View()), old(position), job);
              rows == r.rows && local.View() == r.claim && position == r.next
      ensures forall i :: 0 <= i < |rows| ==> rows[i] < job.rowCount
      ensures |rows| <= job.vectorSize && (|rows| < job.vectorSize ==> local.position >= local.count)
      ensures |rows| <= local.position
      ensures forall i :: 0 <= i < |rows| ==> rows[i] == local.offset + local.position - |rows| + i
      ensures !old(local.View().Exhausted()) ==>
                position == old(position) && local.offset == old(local.offset) &&
                local.position == old(local.position) + |rows|
      ensures old(local.View().Exhausted()) && old(position) < job.rowCount ==>
                position == old(position) + job.rowsPerTask && local.offset == old(position) && local.position == |rows|
      ensures job.Valid() ==> (rows == [] <==> old(local.View().Exhausted()) && old(position) >= job.rowCount)
    {
      rows := [];
      if local.position >= local.count {
        var found := ParallelStateNext(local);
        if !found {
          return;
        }
      }
      var left := local.count - local.position;
      var thisCount := if job.vectorSize < left then job.vectorSize else left;
      var sexpOffset := local.offset + local.position;
      assert sexpOffset + thisCount <= job.rowCount;
      rows := seq(thisCount, i => sexpOffset + i);
      local.position := local.position + thisCount;
    }
  }

  class LocalState {
    var position: nat
    var offset: nat
    var count: nat

    constructor ()
    {
      position, offset, count := 0, 0, 0;
    }

    function View(): Claim
      reads this
    {
      Claim(position, offset, count)
    }
  }

  // ---------------------------------------------------------------- any interleaving

  /** Every thread's claim once it has started, the next row to claim, and the rows emitted so far. */
  datatype World = World(threads: seq<Option<Claim>>, next: nat, emitted: seq<nat>, claims: nat)

  datatype Event = Starts(t: nat) | Scans(t: nat)

  predicate Enabled(w: World, e: Event) {
    e.t < |w.threads| && (if e.Starts? then w.threads[e.t].None? else w.threads[e.t].Some?)
  }

  function Apply(w: World, e: Event, job: Job): World
    requires Enabled(w, e)
  {
    match e
    case Starts(t) =>
      var (claim, next) := NextClaim(w.next, job);
      World(w.threads[t := Some(if claim.Some? then claim.value else NOTHING)], next, w.emitted,
            w.claims + if claim.Some? then 1 else 0)
    case Scans(t) =>
      var r := ScanCall(w.threads[t].value, w.next, job);
      World(w.threads[t := Some(r.claim)], r.next, w.emitted + r.rows, w.claims + if r.claimed then 1 else 0)
  }

  ghost predicate IsRun(w: World, events: seq<Event>, job: Job)
    decreases |events|
  {
    events == [] || (Enabled(w, events[0]) && IsRun(Apply(w, events[0], job), events[1..], job))
  }

  ghost function After(w: World, events: seq<Event>, job: Job): World
    requires IsRun(w, events, job)
    decreases |events|
  {
    if events == [] then w else After(Apply(w, events[0], job), events[1..], job)
  }

  function Start(n: nat): World {
    World(seq(n, _ => None), 0, [], 0)
  }

  function HeldBy(thread: Option<Claim>, row: nat): nat {
    if thread.Some? && thread.value.Holds(row) then 1 else 0
  }

  function Holders(threads: seq<Option<Claim>>, row: nat): nat {
    if threads == [] then 0
    else Holders(threads[..|threads| - 1], row) + HeldBy(threads[|threads| - 1], row)
  }

  /** Each row of the frame is in exactly one place: unclaimed, in one claim, or emitted once. */
  ghost predicate Accounted(w: World, job: Job, row: nat) {
    Count(w.emitted, row) + Holders(w.threads, row) + Unclaimed(w.next, job, row) ==
    if row < job.rowCount then 1 else 0
  }

  predicate Bounded(w: World, job: Job) {
    && (forall t :: 0 <= t < |w.threads| && w.threads[t].Some? ==>
          w.threads[t].value.offset + w.threads[t].value.count <= job.rowCount)
    && w.next == w.claims * job.rowsPerTask
    && (w.claims > 0 ==> (w.claims - 1) * job.rowsPerTask < job.rowCount)
  }

  lemma {:induction false} CountRange(rows: seq<nat>, from: nat, row: nat)
    requires forall i :: 0 <= i < |rows| ==> rows[i] == from + i
    ensures Count(rows, row) == if from <= row < from + |rows| then 1 else 0
  {
    if rows != [] {
      CountRange(rows[..|rows| - 1], from, row);
    }
  }

  lemma {:induction false} HoldersUpdate(threads: seq<Option<Claim>>, t: nat, y: Option<Claim>, row: nat)
    requires t < |threads|
    ensures Holders(threads[t := y], row) + HeldBy(threads[t], row) == Holders(threads, row) + HeldBy(y, row)
  {
    var last := |threads| - 1;
    if t == last {
      assert threads[t := y][..last] == threads[..last];
    } else {
      HoldersUpdate(threads[..last], t, y, row);
      assert threads[t := y][..last] == threads[..last][t := y];
    }
  }

  function Unclaimed(next: nat, job: Job, row: nat): nat {
    if next <= row < job.rowCount then 1 else 0
  }

  lemma ClaimMoves(next: nat, job: Job, row: nat)
    requires job.Valid()
    ensures var (claim, next') := NextClaim(next, job);
            HeldBy(claim, row) + Unclaimed(next', job, row) == Unclaimed(next, job, row)
  {
  }

  lemma EmitMoves(claim: Claim, next: nat, job: Job, claimed: bool, row: nat)
    ensures var r := EmitFrom(claim, next, job, claimed);
            Count(r.rows, row) + HeldBy(Some(r.claim), row) == HeldBy(Some(claim), row)
  {
    CountRange(EmitFrom(claim, next, job, claimed).rows, claim.offset + claim.position, row);
  }

  lemma ScanMoves(claim: Claim, next: nat, job: Job, row: nat)
    requires job.Valid()
    ensures var r := ScanCall(claim, next, job);
            Count(r.rows, row) + HeldBy(Some(r.claim), row) + Unclaimed(r.next, job, row) ==
            HeldBy(Some(claim), row) + Unclaimed(next, job, row)
  {
    if !claim.Exhausted() {
      EmitMoves(claim, next, job, false, row);
    } else {
      ClaimMoves(next, job, row);
      var (claimed, next') := NextClaim(next, job);
      if claimed.Some? {
        EmitMoves(claimed.value, next', job, true, row);
      }
    }
  }

  lemma StepAccounts(w: World, e: Event, job: Job, row: nat)
    requires job.Valid() && Enabled(w, e) && Accounted(w, job, row)
    ensures Accounted(Apply(w, e, job), job, row)
  {
    var w' := Apply(w, e, job);
    HoldersUpdate(w.threads, e.t, w'.threads[e.t], row);
    if e.Scans? {
      var claim := w.threads[e.t].value;
      CountConcat(w.emitted, ScanCall(claim, w.next, job).rows, row);
      ScanMoves(claim, w.next, job, row);
    } else {
      ClaimMoves(w.next, job, row);
    }
  }

  lemma StepBounds(w: World, e: Event, job: Job)
    requires job.Valid() && Enabled(w, e) && Bounded(w, job)
    ensures Bounded(Apply(w, e, job), job)
  {
    assert (w.claims + 1) * job.rowsPerTask == w.claims * job.rowsPerTask + job.rowsPerTask;
  }

  lemma {:induction false} RunKeeps(w: World, events: seq<Event>, job: Job)
    requires job.Valid() && IsRun(w, events, job)
    requires Bounded(w, job) && forall row: nat :: Accounted(w, job, row)
    ensures Bounded(After(w, events, job), job) && forall row: nat :: Accounted(After(w, events, job), job, row)
    decreases |events|
  {
    if events != [] {
      StepBounds(w, events[0], job);
      forall row: nat ensures Accounted(Apply(w, events[0], job), job, row) {
        StepAccounts(w, events[0], job, row);
      }
      RunKeeps(Apply(w, events[0], job), events[1..], job);
    }
  }

  lemma {:induction false} NoHolders(threads: seq<Option<Claim>>, row: nat)
    requires forall t :: 0 <= t < |threads| ==> threads[t].None? || threads[t].value.Exhausted()
    ensures Holders(threads, row) == 0
  {
    if threads != [] {
      NoHolders(threads[..|threads| - 1], row);
    }
  }

  /** A thread's scan is over when a scan call emits nothing. */
  predicate Over(w: World, job: Job, t: nat)
    requires t < |w.threads|
  {
    w.threads[t].Some? && ScanCall(w.threads[t].value, w.next, job).rows == []
  }

  lemma EmitsSome(claim: Claim, next: nat, job: Job)
    requires job.Valid()
    requires !claim.Exhausted() || next < job.rowCount
    ensures ScanCall(claim, next, job).rows != []
  {
    if !claim.Exhausted() {
      assert |EmitFrom(claim, next, job, false).rows| > 0;
    } else {
      var (claimed, next') := NextClaim(next, job);
      assert |EmitFrom(claimed.value, next', job, true).rows| > 0;
    }
  }

  lemma OverMeansAllClaimed(w: World, job: Job, t: nat)
    requires job.Valid() && t < |w.threads| && Over(w, job, t)
    ensures w.next >= job.rowCount && w.threads[t].value.Exhausted()
  {
    if !(w.next >= job.rowCount && w.threads[t].value.Exhausted()) {
      EmitsSome(w.threads[t].value, w.next, job);
    }
  }

  /**
   Any number of threads, in any order: when every thread's scan is over, every row of the frame was
   emitted exactly once and nothing else was, in as many claims as the threads asked for.
  */
  lemma EveryRowExactlyOnce(n: nat, events: seq<Event>, job: Job)
    requires job.Valid() && n > 0 && IsRun(Start(n), events, job)
    requires var w := After(Start(n), events, job); forall t :: 0 <= t < |w.threads| ==> Over(w, job, t)
    ensures var w := After(Start(n), events, job);
            && (forall row: nat :: Count(w.emitted, row) == if row < job.rowCount then 1 else 0)
            && w.claims == job.MaxThreads()
  {
    var w := After(Start(n), events, job);
    forall row: nat ensures Accounted(Start(n), job, row) {
      NoHolders(Start(n).threads, row);
    }
    RunKeeps(Start(n), events, job);
    ThreadsStay(Start(n), events, job);
    forall t | 0 <= t < |w.threads| ensures w.threads[t].Some? && w.threads[t].value.Exhausted() {
      assert Over(w, job, t);
      OverMeansAllClaimed(w, job, t);
    }
    assert Over(w, job, 0);
    OverMeansAllClaimed(w, job, 0);
    forall row: nat ensures Count(w.emitted, row) == if row < job.rowCount then 1 else 0 {
      NoHolders(w.threads, row);
      assert Accounted(w, job, row);
    }
    SameQuotient(w.claims, job.MaxThreads(), job.rowsPerTask, job.rowCount);
  }

  lemma {:induction false} ThreadsStay(w: World, events: seq<Event>, job: Job)
    requires IsRun(w, events, job)
    ensures |After(w, events, job).threads| == |w.threads|
    decreases |events|
  {
    if events != [] {
      ThreadsStay(Apply(w, events[0], job), events[1..], job);
    }
  }

  lemma SameQuotient(a: nat, b: nat, d: nat, n: nat)
    requires d > 0
    requires a * d >= n && (a > 0 ==> (a - 1) * d < n)
    requires b * d >= n && (b > 0 ==> (b - 1) * d < n)
    ensures a == b
  {
    if a < b {
      ProductMonotone(a, b - 1, d);
    } else if b < a {
      ProductMonotone(b, a - 1, d);
    }
  }

  /** No row is emitted twice, or past the end, at any point of any run. */
  lemma NeverTwice(n: nat, events: seq<Event>, job: Job, row: nat)
    requires job.Valid() && IsRun(Start(n), events, job)
    ensures Count(After(Start(n), events, job).emitted, row) <= if row < job.rowCount then 1 else 0
  {
    forall r: nat ensures Accounted(Start(n), job, r) {
      NoHolders(Start(n).threads, r);
    }
    RunKeeps(Start(n), events, job);
    assert Accounted(After(Start(n), events, job), job, row);
  }
}
