/**
 Materialisation of a relation behind ALTREP columns (src/reltoaltrep.cpp): the query runs when a column or
 the row count is first needed, each leaf column is converted when it is first read, and the result is let go
 once all are converted.  Converting allocates, and allocating may run R code that reads columns in turn.
*/
module Altrep {
  import opened Arithmetic

  // ---------------------------------------------------------------- the relation

  const MAX_SIZE_T: nat := 0xFFFF_FFFF_FFFF_FFFF

  /** `executions` counts the queries that completed successfully. */
  datatype Relation = Relation(
    nRows: nat,
    nCells: nat,
    width: nat,
    materialized: bool,
    hasResult: bool,
    failed: bool,
    rowCount: nat,
    altrepColumns: nat,
    transformedColumns: nat,
    executions: nat)

  predicate RelationOk(rel: Relation) {
    0 < rel.width && rel.nRows <= MAX_SIZE_T && rel.nCells <= MAX_SIZE_T
  }

  /** What running the query would do: give so many rows, fail, or be refused because its connection is busy. */
  datatype Query = Gives(total: nat) | Fails | Busy

  /** The rows allowed; the largest size stands for no limit. */
  function MaxRows(rel: Relation): nat
    requires RelationOk(rel)
  {
    var byCells := if rel.nCells < MAX_SIZE_T then rel.nCells / rel.width else MAX_SIZE_T;
    if rel.nRows < byCells then rel.nRows else byCells
  }

  /** Runs the query under a limit of one row more than allowed, and keeps the result if it is small enough. */
  function Materialize(rel: Relation, query: Query): Relation
    requires RelationOk(rel)
  {
    var maxRows := MaxRows(rel);
    match query
    case Gives(total) =>
      var count := if maxRows < MAX_SIZE_T then Min(total, maxRows + 1) else total;
      if maxRows < MAX_SIZE_T && count > maxRows then rel.(failed := true)
      else rel.(rowCount := count, materialized := true, hasResult := true, executions := rel.executions + 1)
    case _ => rel.(failed := true)
  }

  /** The result, which is computed if need be; or an error. */
  function GetQueryResult(rel: Relation, query: Query): (r: (Relation, bool))
    requires RelationOk(rel)
    ensures RelationOk(r.0) && (r.1 ==> r.0.hasResult)
  {
    if rel.failed then (rel, false)
    else if rel.hasResult then (rel, true)
    else if rel.materialized || rel.nCells == 0 || query.Busy? then (rel, false)
    else
      var after := Materialize(rel, query);
      (after, !after.failed)
  }

  function MarkColumnAsTransformed(rel: Relation): Relation {
    var count := rel.transformedColumns + 1;
    rel.(transformedColumns := count, hasResult := rel.hasResult && count != rel.altrepColumns)
  }

  /** The limit rejects exactly the relations with more rows than allowed, and never cuts one that it accepts. */
  lemma RowLimit(rel: Relation, total: nat)
    requires RelationOk(rel) && !rel.failed && total <= MAX_SIZE_T
    ensures var after := Materialize(rel, Gives(total));
            && (after.failed <==>
                total > Min(rel.nRows, if rel.nCells == MAX_SIZE_T then MAX_SIZE_T else rel.nCells / rel.width))
            && (!after.failed ==> after.materialized && after.rowCount == total)
  {
    assert rel.nCells / rel.width <= rel.nCells;
  }

  /** So many rows are within the limits on rows and on cells; the largest size is no limit. */
  predicate Within(rel: Relation, total: nat) {
    && (rel.nRows < MAX_SIZE_T ==> total <= rel.nRows)
    && (rel.nCells < MAX_SIZE_T ==> total * rel.width <= rel.nCells)
  }

  /** The query would run now, and its result would be kept. */
  predicate WouldAnswer(rel: Relation, query: Query) {
    !rel.materialized && rel.nCells != 0 && query.Gives? && Within(rel, query.total)
  }

  lemma MaxRowsExactly(rel: Relation, total: nat)
    requires RelationOk(rel)
    ensures Within(rel, total) <==> MaxRows(rel) == MAX_SIZE_T || total <= MaxRows(rel)
  {
    if rel.nCells < MAX_SIZE_T {
      AtMostQuotient(total, rel.nCells, rel.width);
      QuotientIsAtMost(rel.nCells, rel.width);
    }
  }

  lemma MaterializeExactly(rel: Relation, total: nat)
    requires RelationOk(rel)
    ensures var after := Materialize(rel, Gives(total));
            if Within(rel, total)
            then after == rel.(rowCount := total, materialized := true, hasResult := true,
                               executions := rel.executions + 1)
            else after == rel.(failed := true)
  {
    MaxRowsExactly(rel, total);
  }

  /**
   There is a result exactly if no error is kept, and it is there already or the query would give one now; it is
   then the whole result of the query.  Without one nothing changes, but that an error may be kept.
  */
  lemma GetQueryResultExactly(rel: Relation, query: Query)
    requires RelationOk(rel)
    ensures var (after, ok) := GetQueryResult(rel, query);
            && (ok <==> !rel.failed && (rel.hasResult || WouldAnswer(rel, query)))
            && (ok && rel.hasResult ==> after == rel)
            && (ok && !rel.hasResult ==>
                  after == rel.(rowCount := query.total, materialized := true, hasResult := true,
                                executions := rel.executions + 1))
            && (!ok ==> after == rel || after == rel.(failed := true))
            && (after.failed <==>
                  rel.failed || (!ok && !rel.materialized && rel.nCells != 0 && !query.Busy?))
  {
    if query.Gives? {
      MaterializeExactly(rel, query.total);
    }
  }

  // ---------------------------------------------------------------- columns and conversions

  /** `hasVector`: the R vector is set, though perhaps not filled; `converted`: it is filled. */
  datatype Column = Column(hasVector: bool, converted: bool)

  /** A conversion that is allocating its vector, or filling it. */
  datatype Frame = Allocating(column: nat) | Filling(column: nat)

  /** Conversions nest: the last frame is the one that runs. */
  datatype Machine = Machine(rel: Relation, columns: seq<Column>, stack: seq<Frame>)

  datatype Step =
    | RowCount(query: Query)
    | Access(column: nat, query: Query)
    | Allocated(ok: bool)
    | Filled(ok: bool)

  predicate Enabled(m: Machine, step: Step) {
    && RelationOk(m.rel)
    && (forall i :: 0 <= i < |m.stack| ==> m.stack[i].column < |m.columns|)
    && match step
       case RowCount(_) => true
       case Access(c, _) => c < |m.columns|
       case Allocated(_) => m.stack != [] && m.stack[|m.stack| - 1].Allocating?
       case Filled(_) => m.stack != [] && m.stack[|m.stack| - 1].Filling?
  }

  function Top(m: Machine): nat
    requires m.stack != []
  {
    m.stack[|m.stack| - 1].column
  }

  function Pop(m: Machine): seq<Frame>
    requires m.stack != []
  {
    m.stack[..|m.stack| - 1]
  }

  function Take(m: Machine, step: Step): Machine
    requires Enabled(m, step)
  {
    match step
    case RowCount(query) =>
      if m.rel.materialized then m else m.(rel := GetQueryResult(m.rel, query).0)
    case Access(c, query) =>
      if m.columns[c].hasVector then m
      else
        var (rel, ok) := GetQueryResult(m.rel, query);
        if ok then m.(rel := rel, stack := m.stack + [Allocating(c)]) else m.(rel := rel)
    case Allocated(ok) =>
      var c := Top(m);
      if !ok then m.(stack := Pop(m))
      else if !GetQueryResult(m.rel, Busy).1 then
        m.(columns := m.columns[c := m.columns[c].(hasVector := false)], stack := Pop(m))
      else m.(columns := m.columns[c := m.columns[c].(hasVector := true)], stack := Pop(m) + [Filling(c)])
    case Filled(ok) =>
      var c := Top(m);
      if !ok then m.(columns := m.columns[c := m.columns[c].(hasVector := false)], stack := Pop(m))
      else
        Machine(MarkColumnAsTransformed(m.rel), m.columns[c := m.columns[c].(converted := true)], Pop(m))
  }

  // ---------------------------------------------------------------- what every step keeps

  function Converted(columns: seq<Column>, n: nat): (count: nat)
    requires n <= |columns|
    ensures count <= n
  {
    if n == 0 then 0 else Converted(columns, n - 1) + if columns[n - 1].converted then 1 else 0
  }

  lemma {:induction false} AllConverted(columns: seq<Column>, n: nat)
    requires n <= |columns|
    ensures Converted(columns, n) == n <==> forall c :: 0 <= c < n ==> columns[c].converted
  {
    if n > 0 {
      AllConverted(columns, n - 1);
    }
  }

  lemma {:induction false} ConvertOne(columns: seq<Column>, c: nat, column: Column, n: nat)
    requires c < |columns| && n <= |columns|
    ensures Converted(columns[c := column], n) ==
            Converted(columns, n) + if c < n && column.converted && !columns[c].converted then 1
                                    else if c < n && !column.converted && columns[c].converted then -1
                                    else 0
  {
    if n > 0 {
      ConvertOne(columns, c, column, n - 1);
    }
  }

  /** The counters of the relation agree with its columns, and the result is there until all are converted. */
  ghost predicate RelationFits(rel: Relation, columns: seq<Column>) {
    && RelationOk(rel) && 0 < |columns| == rel.altrepColumns
    && rel.transformedColumns == Converted(columns, |columns|)
    && rel.executions == (if rel.materialized then 1 else 0)
    && (rel.hasResult <==> rel.materialized && rel.transformedColumns < |columns|)
    && (rel.failed ==> !rel.materialized)
    && (!rel.materialized ==> rel.transformedColumns == 0)
  }

  /** Every column converts at most once at a time, and has its vector while it fills it and once it is converted. */
  ghost predicate StackFits(columns: seq<Column>, stack: seq<Frame>) {
    && (forall i :: 0 <= i < |stack| ==> stack[i].column < |columns| && !columns[stack[i].column].converted)
    && (forall i, j :: 0 <= i < j < |stack| ==> stack[i].column != stack[j].column)
    && (forall i :: 0 <= i < |stack| ==> columns[stack[i].column].hasVector == stack[i].Filling?)
    && (forall c :: 0 <= c < |columns| && !IsOn(stack, c) ==> columns[c].hasVector == columns[c].converted)
  }

  ghost predicate IsOn(stack: seq<Frame>, c: nat) {
    exists i :: 0 <= i < |stack| && stack[i].column == c
  }

  ghost predicate MachineOk(m: Machine) {
    RelationFits(m.rel, m.columns) && StackFits(m.columns, m.stack) && (m.stack != [] ==> m.rel.materialized)
  }

  /** No column is accessed anew while its own vector is being allocated. */
  ghost predicate Guarded(m: Machine, step: Step) {
    step.Access? ==> Allocating(step.column) !in m.stack
  }

  /** Nothing converts unless the result is there. */
  lemma ConvertingHasResult(m: Machine)
    requires MachineOk(m) && m.stack != []
    ensures m.rel.hasResult
  {
    AllConverted(m.columns, |m.columns|);
    assert !m.columns[m.stack[0].column].converted;
  }

  lemma GetQueryResultFits(rel: Relation, columns: seq<Column>, query: Query)
    requires RelationFits(rel, columns)
    ensures RelationFits(GetQueryResult(rel, query).0, columns)
    ensures rel.materialized ==> GetQueryResult(rel, query).0 == rel
  {
  }

  lemma IsOnPush(below: seq<Frame>, top: Frame, c: nat)
    ensures IsOn(below + [top], c) <==> IsOn(below, c) || top.column == c
  {
    var stack := below + [top];
    if IsOn(stack, c) && top.column != c {
      var i :| 0 <= i < |stack| && stack[i].column == c;
      assert below[i].column == c;
    }
    if IsOn(below, c) {
      var i :| 0 <= i < |below| && below[i].column == c;
      assert stack[i].column == c;
    }
    if top.column == c {
      assert stack[|below|].column == c;
    }
  }

  /** A column without a vector that is not being allocated starts to be converted. */
  lemma PushOk(columns: seq<Column>, stack: seq<Frame>, c: nat)
    requires StackFits(columns, stack) && c < |columns| && !columns[c].hasVector && Allocating(c) !in stack
    ensures StackFits(columns, stack + [Allocating(c)])
  {
    forall i | 0 <= i < |stack|
      ensures stack[i].column != c
    {
      assert stack[i] in stack;
    }
    assert !IsOn(stack, c);
    forall d: nat | d < |columns|
      ensures IsOn(stack + [Allocating(c)], d) <==> IsOn(stack, d) || d == c
    {
      IsOnPush(stack, Allocating(c), d);
    }
  }

  lemma AccessOk(m: Machine, c: nat, query: Query)
    requires MachineOk(m) && c < |m.columns| && Enabled(m, Access(c, query)) && Guarded(m, Access(c, query))
    ensures MachineOk(Take(m, Access(c, query)))
  {
    if !m.columns[c].hasVector {
      GetQueryResultFits(m.rel, m.columns, query);
      AllConverted(m.columns, |m.columns|);
      PushOk(m.columns, m.stack, c);
    }
  }

  /** Leaving the running conversion with the column as it should be then. */
  lemma PopOk(columns: seq<Column>, stack: seq<Frame>, column: Column)
    requires StackFits(columns, stack) && stack != [] && column.hasVector == column.converted
    ensures var c := stack[|stack| - 1].column;
            StackFits(columns[c := column], stack[..|stack| - 1])
  {
    var top, below := stack[|stack| - 1], stack[..|stack| - 1];
    assert stack == below + [top];
    forall d: nat | d < |columns|
      ensures IsOn(stack, d) <==> IsOn(below, d) || d == top.column
    {
      IsOnPush(below, top, d);
    }
  }

  lemma AllocatedOk(m: Machine, ok: bool)
    requires MachineOk(m) && Enabled(m, Allocated(ok))
    ensures MachineOk(Take(m, Allocated(ok)))
  {
    ConvertingHasResult(m);
    var c := Top(m);
    if ok {
      ConvertOne(m.columns, c, m.columns[c].(hasVector := true), |m.columns|);
      FillingOk(m.columns, m.stack);
    } else {
      PopOk(m.columns, m.stack, m.columns[c]);
      assert m.columns[c := m.columns[c]] == m.columns;
    }
  }

  lemma FillingOk(columns: seq<Column>, stack: seq<Frame>)
    requires StackFits(columns, stack) && stack != []
    ensures var c := stack[|stack| - 1].column;
            StackFits(columns[c := columns[c].(hasVector := true)], stack[..|stack| - 1] + [Filling(c)])
  {
    var top, below := stack[|stack| - 1], stack[..|stack| - 1];
    assert stack == below + [top];
    forall d: nat | d < |columns|
      ensures IsOn(below + [Filling(top.column)], d) <==> IsOn(stack, d)
    {
      IsOnPush(below, top, d);
      IsOnPush(below, Filling(top.column), d);
    }
  }

  lemma FilledOk(m: Machine, ok: bool)
    requires MachineOk(m) && Enabled(m, Filled(ok))
    ensures MachineOk(Take(m, Filled(ok)))
  {
    ConvertingHasResult(m);
    var c := Top(m);
    var column := if ok then m.columns[c].(converted := true) else m.columns[c].(hasVector := false);
    ConvertOne(m.columns, c, column, |m.columns|);
    PopOk(m.columns, m.stack, column);
    if ok && Pop(m) != [] {
      AllConverted(m.columns[c := column], |m.columns|);
      assert !m.columns[c := column][m.stack[0].column].converted;
    }
  }

  lemma StepOk(m: Machine, step: Step)
    requires MachineOk(m) && Enabled(m, step) && Guarded(m, step)
    ensures MachineOk(Take(m, step))
  {
    match step
    case RowCount(query) => GetQueryResultFits(m.rel, m.columns, query);
    case Access(c, query) => AccessOk(m, c, query);
    case Allocated(ok) => AllocatedOk(m, ok);
    case Filled(ok) => FilledOk(m, ok);
  }

  // ---------------------------------------------------------------- whole runs

  function NewColumns(n: nat): (columns: seq<Column>)
    ensures |columns| == n
  {
    seq(n, _ => Column(false, false))
  }

  function Registered(nRows: nat, nCells: nat, width: nat, leaves: nat): Machine {
    Machine(Relation(nRows, nCells, width, false, false, false, 0, leaves, 0, 0), NewColumns(leaves), [])
  }

  ghost predicate IsRun(machines: seq<Machine>, steps: seq<Step>) {
    && |machines| == |steps| + 1
    && RelationOk(machines[0].rel) && 0 < |machines[0].columns|
    && machines[0] ==
       Registered(machines[0].rel.nRows, machines[0].rel.nCells, machines[0].rel.width, |machines[0].columns|)
    && forall k :: 0 <= k < |steps| ==>
         Enabled(machines[k], steps[k]) && machines[k + 1] == Take(machines[k], steps[k])
  }

  ghost predicate GuardedUpTo(machines: seq<Machine>, steps: seq<Step>, n: nat)
    requires IsRun(machines, steps) && n <= |steps|
  {
    forall k :: 0 <= k < n ==> Guarded(machines[k], steps[k])
  }

  ghost predicate RunGuarded(machines: seq<Machine>, steps: seq<Step>)
    requires IsRun(machines, steps)
  {
    GuardedUpTo(machines, steps, |steps|)
  }

  lemma {:induction false} NoneConverted(n: nat, k: nat)
    requires k <= n
    ensures Converted(NewColumns(n), k) == 0
  {
    if k > 0 {
      NoneConverted(n, k - 1);
    }
  }

  lemma {:induction false} EveryRunIsOk(machines: seq<Machine>, steps: seq<Step>, k: nat)
    requires IsRun(machines, steps) && k <= |steps| && GuardedUpTo(machines, steps, k)
    ensures MachineOk(machines[k])
  {
    if k == 0 {
      NoneConverted(|machines[0].columns|, |machines[0].columns|);
    } else {
      EveryRunIsOk(machines, steps, k - 1);
      assert Guarded(machines[k - 1], steps[k - 1]);
      StepOk(machines[k - 1], steps[k - 1]);
    }
  }

  /**
   The query completes at most once; each column is counted once, when it is converted; and the result is
   there from then on until all columns are converted, in particular while one is converting.
  */
  lemma Lifecycle(machines: seq<Machine>, steps: seq<Step>, k: nat)
    requires IsRun(machines, steps) && RunGuarded(machines, steps) && k <= |steps|
    ensures machines[k].rel.executions <= 1
    ensures machines[k].rel.transformedColumns == Converted(machines[k].columns, |machines[k].columns|)
    ensures machines[k].rel.materialized ==>
              (!machines[k].rel.hasResult <==>
                 forall c :: 0 <= c < |machines[k].columns| ==> machines[k].columns[c].converted)
    ensures machines[k].stack != [] ==> machines[k].rel.hasResult
  {
    EveryRunIsOk(machines, steps, k);
    AllConverted(machines[k].columns, |machines[k].columns|);
    if machines[k].stack != [] {
      ConvertingHasResult(machines[k]);
    }
  }

  /** A conversion that completes was not completed before. */
  lemma CountedOnce(machines: seq<Machine>, steps: seq<Step>, k: nat)
    requires IsRun(machines, steps) && RunGuarded(machines, steps) && k < |steps| && steps[k] == Filled(true)
    ensures !machines[k].columns[Top(machines[k])].converted
    ensures machines[k + 1].columns[Top(machines[k])].converted
  {
    EveryRunIsOk(machines, steps, k);
  }

  /** The step may run the query, which would give so many rows. */
  predicate Asks(step: Step, total: nat) {
    (step.RowCount? || step.Access?) && step.query == Gives(total)
  }

  /** Only a step that asks for the result materializes the relation, with all the rows of its query. */
  lemma MaterializedByStep(m: Machine, step: Step)
    requires MachineOk(m) && Enabled(m, step) && Guarded(m, step) && Take(m, step).rel.materialized
    ensures if m.rel.materialized then Take(m, step).rel.rowCount == m.rel.rowCount
            else Asks(step, Take(m, step).rel.rowCount) && Within(m.rel, Take(m, step).rel.rowCount)
    ensures Take(m, step).rel.nRows == m.rel.nRows && Take(m, step).rel.nCells == m.rel.nCells
            && Take(m, step).rel.width == m.rel.width
  {
    if step.RowCount? || step.Access? {
      GetQueryResultExactly(m.rel, step.query);
    }
  }

  /** The row count is that of a query a step ran, and within the limits. */
  lemma {:induction false} RowCountIsTheQuerys(machines: seq<Machine>, steps: seq<Step>, k: nat)
    requires IsRun(machines, steps) && RunGuarded(machines, steps) && k <= |steps| && machines[k].rel.materialized
    ensures Within(machines[k].rel, machines[k].rel.rowCount)
    ensures exists j :: 0 <= j < k && Asks(steps[j], machines[k].rel.rowCount)
  {
    assert k > 0;
    EveryRunIsOk(machines, steps, k - 1);
    var m, step := machines[k - 1], steps[k - 1];
    assert machines[k] == Take(m, step);
    MaterializedByStep(m, step);
    if m.rel.materialized {
      RowCountIsTheQuerys(machines, steps, k - 1);
    }
  }

  lemma FailedStep(m: Machine, step: Step)
    requires MachineOk(m) && m.rel.failed && Enabled(m, step)
    ensures Take(m, step) == m
  {
    assert m.stack == [];
  }

  /** Once the query has failed, nothing changes any more. */
  lemma {:induction false} FailureIsFinal(machines: seq<Machine>, steps: seq<Step>, k: nat, n: nat)
    requires IsRun(machines, steps) && RunGuarded(machines, steps) && k <= n <= |steps| && machines[k].rel.failed
    ensures machines[n] == machines[k]
  {
    if k < n {
      FailureIsFinal(machines, steps, k, n - 1);
      EveryRunIsOk(machines, steps, n - 1);
      FailedStep(machines[n - 1], steps[n - 1]);
    }
  }

  // ---------------------------------------------------------------- the guard is exact

  /**
   What is promised of a single state: the result is there while a column converts, and no column is counted
   twice.
  */
  ghost predicate Intact(m: Machine) {
    (m.stack != [] ==> m.rel.hasResult) && m.rel.transformedColumns == Converted(m.columns, |m.columns|)
  }

  /** Guarded steps that lead from one state to another. */
  ghost predicate Leads(m: Machine, steps: seq<Step>, after: Machine)
    decreases |steps|
  {
    if steps == [] then after == m
    else Enabled(m, steps[0]) && Guarded(m, steps[0]) && Leads(Take(m, steps[0]), steps[1..], after)
  }

  /** Nothing goes wrong from here on, unless the guard is broken later. */
  ghost predicate Safe(m: Machine) {
    forall steps, after :: Leads(m, steps, after) ==> Intact(after)
  }

  lemma {:induction false} OkIsSafe(m: Machine, steps: seq<Step>, after: Machine)
    requires MachineOk(m) && Leads(m, steps, after)
    ensures Intact(after)
    decreases |steps|
  {
    if steps != [] {
      StepOk(m, steps[0]);
      OkIsSafe(Take(m, steps[0]), steps[1..], after);
    } else if m.stack != [] {
      ConvertingHasResult(m);
    }
  }

  lemma LeadsOn(m: Machine, step: Step, steps: seq<Step>, after: Machine)
    requires Enabled(m, step) && Guarded(m, step) && Leads(Take(m, step), steps, after)
    ensures Leads(m, [step] + steps, after)
  {
    assert ([step] + steps)[1..] == steps;
  }

  lemma UnsafeBefore(m: Machine, step: Step)
    requires Enabled(m, step) && Guarded(m, step) && !Safe(Take(m, step))
    ensures !Safe(m)
  {
    var steps, after :| Leads(Take(m, step), steps, after) && !Intact(after);
    LeadsOn(m, step, steps, after);
  }

  lemma UnsafeNow(m: Machine)
    requires !Intact(m)
    ensures !Safe(m)
  {
    assert Leads(m, [], m);
  }

  // ---------------------------------------------------------------- a column that is read converts

  /** Column c is converted and counted. */
  function Counted(rel: Relation, columns: seq<Column>, stack: seq<Frame>, c: nat): Machine
    requires c < |columns|
  {
    Machine(MarkColumnAsTransformed(rel), columns[c := Column(true, true)], stack)
  }

  /** The steps of a conversion that succeeds, from its end. */
  function Fill(): seq<Step> {
    [Filled(true)] + []
  }

  function Allocate(): seq<Step> {
    [Allocated(true)] + Fill()
  }

  function Read(c: nat, query: Query): seq<Step> {
    [Access(c, query)] + Allocate()
  }

  lemma FilledConverts(m: Machine, stack: seq<Frame>, c: nat)
    requires MachineOk(m) && m.stack == stack + [Filling(c)]
    ensures c < |m.columns|
    ensures MachineOk(Counted(m.rel, m.columns, stack, c))
    ensures Leads(m, Fill(), Counted(m.rel, m.columns, stack, c))
  {
    assert m.stack[|stack|] == Filling(c);
    StepOk(m, Filled(true));
    assert m.columns[c].hasVector;
    assert Pop(m) == stack;
    assert Take(m, Filled(true)) == Counted(m.rel, m.columns, stack, c);
    LeadsOn(m, Filled(true), [], Counted(m.rel, m.columns, stack, c));
  }

  lemma AllocatedConverts(m: Machine, stack: seq<Frame>, c: nat)
    requires MachineOk(m) && m.stack == stack + [Allocating(c)]
    ensures c < |m.columns|
    ensures MachineOk(Counted(m.rel, m.columns, stack, c))
    ensures Leads(m, Allocate(), Counted(m.rel, m.columns, stack, c))
  {
    assert m.stack[|stack|] == Allocating(c);
    ConvertingHasResult(m);
    StepOk(m, Allocated(true));
    assert Pop(m) == stack;
    var filling := m.columns[c := m.columns[c].(hasVector := true)];
    assert Take(m, Allocated(true)) == Machine(m.rel, filling, stack + [Filling(c)]);
    FilledConverts(Take(m, Allocated(true)), stack, c);
    assert filling[c := Column(true, true)] == m.columns[c := Column(true, true)];
    LeadsOn(m, Allocated(true), Fill(), Counted(m.rel, m.columns, stack, c));
  }

  /**
   A column that is read, and that is not being converted, converts if there is a result and its vector can be
   allocated and filled: it is then converted and counted, and nothing else changes.
  */
  lemma ConvertsOnAccess(m: Machine, c: nat, query: Query)
    requires MachineOk(m) && c < |m.columns| && !m.columns[c].hasVector && Allocating(c) !in m.stack
    requires !m.rel.failed && (m.rel.materialized || WouldAnswer(m.rel, query))
    ensures var rel := GetQueryResult(m.rel, query).0;
            && Leads(m, Read(c, query), Counted(rel, m.columns, m.stack, c))
            && MachineOk(Counted(rel, m.columns, m.stack, c))
  {
    var rel := GetQueryResult(m.rel, query).0;
    AccessStarts(m, c, query);
    AllocatedConverts(Machine(rel, m.columns, m.stack + [Allocating(c)]), m.stack, c);
    LeadsOn(m, Access(c, query), Allocate(), Counted(rel, m.columns, m.stack, c));
  }

  lemma AccessStarts(m: Machine, c: nat, query: Query)
    requires MachineOk(m) && c < |m.columns| && !m.columns[c].hasVector && Allocating(c) !in m.stack
    requires !m.rel.failed && (m.rel.materialized || WouldAnswer(m.rel, query))
    ensures Enabled(m, Access(c, query))
    ensures Take(m, Access(c, query)) ==
            Machine(GetQueryResult(m.rel, query).0, m.columns, m.stack + [Allocating(c)])
    ensures MachineOk(Take(m, Access(c, query)))
  {
    HasResultToConvert(m, c);
    GetQueryResultExactly(m.rel, query);
    StepOk(m, Access(c, query));
  }

  /** The result is there while a column has no vector. */
  lemma HasResultToConvert(m: Machine, c: nat)
    requires MachineOk(m) && c < |m.columns| && !m.columns[c].hasVector && Allocating(c) !in m.stack
    ensures m.rel.materialized ==> m.rel.hasResult
  {
    AllConverted(m.columns, |m.columns|);
    forall i | 0 <= i < |m.stack|
      ensures m.stack[i].column != c
    {
      assert m.stack[i] in m.stack;
    }
  }

  /** Machines that have converted their first n columns, and have run the query for the first of them. */
  ghost predicate HasConverted(m: Machine, n: nat, total: nat) {
    && MachineOk(m) && m.stack == [] && n <= |m.columns| && !m.rel.failed
    && (forall c :: 0 <= c < |m.columns| ==> m.columns[c] == Column(c < n, c < n))
    && (n > 0 ==> m.rel.materialized && m.rel.rowCount == total)
  }

  lemma {:induction false} LeadsThrough(m: Machine, steps: seq<Step>, mid: Machine, more: seq<Step>, after: Machine)
    requires Leads(m, steps, mid) && Leads(mid, more, after)
    ensures Leads(m, steps + more, after)
    decreases |steps|
  {
    if steps == [] {
      assert steps + more == more;
    } else {
      LeadsThrough(Take(m, steps[0]), steps[1..], mid, more, after);
      LeadsOn(m, steps[0], steps[1..] + more, after);
      assert [steps[0]] + (steps[1..] + more) == steps + more;
    }
  }

  /**
   Reading one column after the other converts a data frame as a whole: the query runs once, its row count is
   known, and the result is let go at the end.
  */
  lemma {:induction false} ReadingConvertsAll(m: Machine, n: nat, query: Query)
    returns (steps: seq<Step>, after: Machine)
    requires query.Gives? && HasConverted(m, n, query.total) && (n == 0 ==> WouldAnswer(m.rel, query))
    ensures Leads(m, steps, after) && |after.columns| == |m.columns|
    ensures HasConverted(after, |m.columns|, query.total)
    ensures after.rel.executions == 1 && !after.rel.hasResult
    decreases |m.columns| - n
  {
    if n == |m.columns| {
      steps, after := [], m;
      AllConverted(m.columns, n);
    } else {
      ConvertsOnAccess(m, n, query);
      GetQueryResultExactly(m.rel, query);
      var next := Counted(GetQueryResult(m.rel, query).0, m.columns, m.stack, n);
      var more;
      more, after := ReadingConvertsAll(next, n + 1, query);
      steps := Read(n, query) + more;
      LeadsThrough(m, Read(n, query), next, more, after);
    }
  }

  /** Conversions are on the stack of columns that exist, and the result is there for them. */
  ghost predicate CanConvert(m: Machine) {
    && RelationOk(m.rel) && m.rel.hasResult && !m.rel.failed
    && forall i :: 0 <= i < |m.stack| ==> m.stack[i].column < |m.columns|
  }

  /** The running conversion can complete. */
  lemma Completes(m: Machine)
    requires CanConvert(m) && m.stack != [] && m.stack[|m.stack| - 1].Allocating?
    requires !Safe(Machine(MarkColumnAsTransformed(m.rel), m.columns[Top(m) := Column(true, true)], Pop(m)))
    ensures !Safe(m)
  {
    var filling := Take(m, Allocated(true));
    assert Pop(filling) == Pop(m);
    assert Take(filling, Filled(true)).columns == m.columns[Top(m) := Column(true, true)];
    UnsafeBefore(filling, Filled(true));
    UnsafeBefore(m, Allocated(true));
  }

  /**
   A conversion of a column that is converted already, however far out, can complete and count the column again
   once the conversions nested in it have failed.
  */
  lemma {:induction false} CountsAgain(m: Machine, j: nat)
    requires CanConvert(m) && j < |m.stack| && m.stack[j].Allocating? && m.columns[m.stack[j].column].converted
    requires m.rel.transformedColumns == Converted(m.columns, |m.columns|)
    ensures !Safe(m)
    decreases |m.stack|
  {
    var c := Top(m);
    if j == |m.stack| - 1 {
      var after := Machine(MarkColumnAsTransformed(m.rel), m.columns[c := Column(true, true)], Pop(m));
      ConvertOne(m.columns, c, Column(true, true), |m.columns|);
      UnsafeNow(after);
      Completes(m);
    } else {
      var fails := if m.stack[|m.stack| - 1].Allocating? then Allocated(false) else Filled(false);
      ConvertOne(m.columns, c, m.columns[c].(hasVector := false), |m.columns|);
      CountsAgain(Take(m, fails), j);
      UnsafeBefore(m, fails);
    }
  }

  /**
   Where the guard is broken, at whatever depth, the nested conversion can complete; and then either the result
   is gone while the outer conversion still runs, or the outer one can count the column again.
  */
  lemma GuardIsNeeded(m: Machine, step: Step)
    requires MachineOk(m) && Enabled(m, step) && !Guarded(m, step)
    ensures !Safe(Take(m, step))
  {
    var c := step.column;
    var j :| 0 <= j < |m.stack| && m.stack[j] == Allocating(c);
    ConvertingHasResult(m);
    var nested := Take(m, step);
    assert nested.stack == m.stack + [Allocating(c)] && Pop(nested) == m.stack;
    var outer := Machine(MarkColumnAsTransformed(m.rel), m.columns[c := Column(true, true)], m.stack);
    ConvertOne(m.columns, c, Column(true, true), |m.columns|);
    if outer.rel.hasResult {
      CountsAgain(outer, j);
    } else {
      UnsafeNow(outer);
    }
    Completes(nested);
  }

  /** For every state and every step, the step is harmless exactly when it is guarded. */
  lemma GuardIsExact(m: Machine, step: Step)
    requires MachineOk(m) && Enabled(m, step)
    ensures Guarded(m, step) <==> Safe(Take(m, step))
  {
    if Guarded(m, step) {
      StepOk(m, step);
      forall steps, after | Leads(Take(m, step), steps, after)
        ensures Intact(after)
      {
        OkIsSafe(Take(m, step), steps, after);
      }
    } else {
      GuardIsNeeded(m, step);
    }
  }

  /** A run is harmless up to some point exactly when it is guarded up to there. */
  lemma {:induction false} SafeExactlyWhenGuarded(machines: seq<Machine>, steps: seq<Step>, n: nat)
    requires IsRun(machines, steps) && n <= |steps|
    ensures GuardedUpTo(machines, steps, n) <==> forall k :: 1 <= k <= n ==> Safe(machines[k])
  {
    if n > 0 {
      SafeExactlyWhenGuarded(machines, steps, n - 1);
      if GuardedUpTo(machines, steps, n - 1) {
        EveryRunIsOk(machines, steps, n - 1);
        GuardIsExact(machines[n - 1], steps[n - 1]);
        assert machines[n] == Take(machines[n - 1], steps[n - 1]);
      }
    }
  }

  lemma GivesOneRow(rel: Relation)
    requires RelationOk(rel) && rel.nRows > 0 && rel.nCells > 0 && rel.width == 1 && rel.executions == 0
    requires !rel.failed && !rel.hasResult && !rel.materialized
    ensures GetQueryResult(rel, Gives(1)) ==
            (rel.(rowCount := 1, materialized := true, hasResult := true, executions := 1), true)
  {
    GetQueryResultExactly(rel, Gives(1));
  }

  /** The states of one column that is read again while it is allocated; the inner conversion lets the result go. */
  lemma HarmfulSteps(m0: Machine, query: Query) returns (m1: Machine, m2: Machine, m3: Machine)
    requires m0.rel.nRows > 0 && m0.rel.nCells > 0 && RelationOk(m0.rel)
    requires m0 == Registered(m0.rel.nRows, m0.rel.nCells, 1, 1)
    ensures Enabled(m0, Access(0, Gives(1))) && m1 == Take(m0, Access(0, Gives(1)))
    ensures Enabled(m1, Access(0, query)) && m2 == Take(m1, Access(0, query))
    ensures Enabled(m2, Allocated(true)) && m3 == Take(m2, Allocated(true))
    ensures Enabled(m3, Filled(true)) && |m3.stack| == 2 && m3.rel.transformedColumns + 1 == m3.rel.altrepColumns
  {
    var rel := m0.rel.(rowCount := 1, materialized := true, hasResult := true, executions := 1);
    GivesOneRow(m0.rel);
    m1 := Machine(rel, m0.columns, [Allocating(0)]);
    m2 := Machine(rel, m0.columns, [Allocating(0), Allocating(0)]);
    m3 := Machine(rel, m0.columns[0 := Column(true, false)], [Allocating(0), Filling(0)]);
  }

  /**
   The guard can be broken, and harm be done, from the start: by one column that is read again while it is
   allocated.
  */
  lemma HarmIsReachable(nRows: nat, nCells: nat, query: Query) returns (machines: seq<Machine>, steps: seq<Step>)
    requires 1 <= nRows <= MAX_SIZE_T && 1 <= nCells <= MAX_SIZE_T
    ensures IsRun(machines, steps) && machines[0] == Registered(nRows, nCells, 1, 1)
    ensures machines[|steps|].stack != [] && !machines[|steps|].rel.hasResult
  {
    var m0 := Registered(nRows, nCells, 1, 1);
    var m1, m2, m3 := HarmfulSteps(m0, query);
    steps := [Access(0, Gives(1)), Access(0, query), Allocated(true), Filled(true)];
    machines := [m0, m1, m2, m3, Take(m3, Filled(true))];
  }
}
