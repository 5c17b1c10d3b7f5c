/**
 The wrappers behind ALTREP columns as the objects they are (AltrepRelationWrapper in
 src/include/reltoaltrep.hpp and AltrepVectorWrapper in src/reltoaltrep.cpp), tied to the steps of Altrep.
*/
module AltrepWrappers {
  import Spec = Altrep
  import opened Arithmetic
  import opened Altrep
  import opened Wrappers

  class AltrepRelationWrapper {
    const nRows: nat
    const nCells: nat
    const width: nat
    var materialized: bool
    var matResult: bool
    var matError: bool
    var rowCount: nat
    var altrepColumns: nat
    var transformedColumns: nat
    ghost var executions: nat

    ghost function View(): Relation
      reads this
    {
      Relation(nRows, nCells, width, materialized, matResult, matError, rowCount, altrepColumns, transformedColumns,
               executions)
    }

    constructor (nRows: nat, nCells: nat, width: nat)
      requires 0 < width && nRows <= MAX_SIZE_T && nCells <= MAX_SIZE_T
      ensures View() == Registered(nRows, nCells, width, 0).rel && RelationOk(View())
    {
      this.nRows, this.nCells, this.width := nRows, nCells, width;
      materialized, matResult, matError, rowCount := false, false, false, 0;
      altrepColumns, transformedColumns, executions := 0, 0, 0;
    }

    method RegisterAltrepColumn()
      modifies `altrepColumns
      ensures altrepColumns == old(altrepColumns) + 1
    {
      altrepColumns := altrepColumns + 1;
    }

    method Materialize(query: Query)
      requires RelationOk(View())
      modifies this
      ensures View() == Spec.Materialize(old(View()), query)
    {
      var maxRows := MAX_SIZE_T;
      if nCells < MAX_SIZE_T {
        maxRows := nCells / width;
      }
      if nRows < maxRows {
        maxRows := nRows;
      }
      if !query.Gives? {
        matError := true;
        return;
      }
      var count := if maxRows < MAX_SIZE_T then Min(query.total, maxRows + 1) else query.total;
      if maxRows < MAX_SIZE_T && count > maxRows {
        matError := true;
        return;
      }
      rowCount := count;
      materialized := true;
      matResult := true;
      executions := executions + 1;
    }

    method GetQueryResult(query: Query) returns (ok: bool)
      requires RelationOk(View())
      modifies this
      ensures (View(), ok) == Spec.GetQueryResult(old(View()), query)
      ensures ok <==> !old(matError) && (old(matResult) || WouldAnswer(old(View()), query))
      ensures ok && !old(matResult) ==> materialized && rowCount == query.total && executions == old(executions) + 1
      ensures !ok ==> View() == old(View()).(failed := matError)
    {
      GetQueryResultExactly(View(), query);
      if matError {
        return false;
      }
      if !matResult {
        if materialized || nCells == 0 || query.Busy? {
          return false;
        }
        Materialize(query);
        return !matError;
      }
      return true;
    }

    /** The row count stays known when the result has been let go. */
    method RowCount(query: Query) returns (count: Option<nat>)
      requires RelationOk(View())
      modifies this
      ensures View() == if old(materialized) then old(View()) else Spec.GetQueryResult(old(View()), query).0
      ensures old(materialized) ==> count == Some(old(rowCount))
      ensures !old(materialized) ==>
                (count.Some? <==> !old(matError) && (old(matResult) || WouldAnswer(old(View()), query)))
      ensures !old(materialized) && !old(matResult) && count.Some? ==>
                count == Some(query.total) && materialized && rowCount == query.total
    {
      if materialized {
        return Some(rowCount);
      }
      var ok := GetQueryResult(query);
      return if ok then Some(rowCount) else None;
    }

    method MarkColumnAsTransformed()
      modifies this
      ensures View() == Spec.MarkColumnAsTransformed(old(View()))
    {
      transformedColumns := transformedColumns + 1;
      if transformedColumns == altrepColumns {
        matResult := false;
      }
    }
  }

  /** A column.  What Dataptr() does between its calls into R is cut into the steps that other code can see. */
  class AltrepVectorWrapper {
    const rel: AltrepRelationWrapper
    /** The indexes that lead to the column: in the data frame, then in each STRUCT. */
    const path: seq<nat>
    var transformedVector: bool
    var converted: bool

    function View(): Column
      reads this
    {
      Column(transformedVector, converted)
    }

    constructor (rel: AltrepRelationWrapper, path: seq<nat>)
      modifies rel`altrepColumns
      ensures this.rel == rel && this.path == path && View() == Column(false, false)
              && rel.altrepColumns == old(rel.altrepColumns) + 1
    {
      this.rel, this.path := rel, path;
      transformedVector, converted := false, false;
      new;
      rel.RegisterAltrepColumn();
    }

    /** Up to the allocation: whether a conversion starts. */
    method BeginDataptr(query: Query) returns (starts: bool)
      requires RelationOk(rel.View())
      modifies rel
      ensures View() == old(View())
      ensures transformedVector ==> !starts && rel.View() == old(rel.View())
      ensures !transformedVector ==> (rel.View(), starts) == GetQueryResult(old(rel.View()), query)
    {
      if transformedVector {
        return false;
      }
      starts := rel.GetQueryResult(query);
    }

    /** Once the vector is allocated: whether it can be filled. */
    method SetVector() returns (fills: bool)
      requires RelationOk(rel.View())
      modifies this, rel
      ensures (rel.View(), fills) == GetQueryResult(old(rel.View()), Busy)
      ensures View() == old(View()).(hasVector := fills)
    {
      transformedVector := true;
      fills := rel.GetQueryResult(Busy);
      if !fills {
        transformedVector := false;
      }
    }

    /** Once the vector is filled, or filling it has failed. */
    method EndDataptr(ok: bool)
      modifies this, rel
      ensures ok ==>
              View() == old(View()).(converted := true) && rel.View() == Spec.MarkColumnAsTransformed(old(rel.View()))
      ensures !ok ==> View() == old(View()).(hasVector := false) && rel.View() == old(rel.View())
    {
      if ok {
        converted := true;
        rel.MarkColumnAsTransformed();
      } else {
        transformedVector := false;
      }
    }
  }

  // ---------------------------------------------------------------- registration

  /** A column type: a leaf, or a STRUCT, whose fields become columns of their own. */
  datatype ColumnType = LeafType | StructType(fields: ColumnTypes)

  datatype ColumnTypes = NoTypes | Types(head: ColumnType, tail: ColumnTypes)

  /** Where the leaf columns are: the indexes that lead to each of them. */
  function Leaves(types: ColumnTypes, parent: seq<nat>, from: nat): seq<seq<nat>>
    decreases types
  {
    if types.NoTypes? then []
    else
      (match types.head
       case LeafType => [parent + [from]]
       case StructType(fields) => Leaves(fields, parent + [from], 0))
      + Leaves(types.tail, parent, from + 1)
  }

  /** Leaves below a parent lie below it, at or behind the first index. */
  lemma {:induction false} LeavesAreBelow(types: ColumnTypes, parent: seq<nat>, from: nat)
    ensures forall i :: 0 <= i < |Leaves(types, parent, from)| ==>
              var path := Leaves(types, parent, from)[i]; |parent| < |path| && parent <= path && from <= path[|parent|]
    decreases types, 0
  {
    if types.Types? {
      LeavesAreBelow(types.tail, parent, from + 1);
      if types.head.StructType? {
        BranchIsBelow(types.head.fields, parent, from);
      }
    }
  }

  /** The leaves of one field all go through its index. */
  lemma {:induction false} BranchIsBelow(fields: ColumnTypes, parent: seq<nat>, index: nat)
    ensures forall i :: 0 <= i < |Leaves(fields, parent + [index], 0)| ==>
              var path := Leaves(fields, parent + [index], 0)[i];
              |parent| < |path| && parent <= path && path[|parent|] == index
    decreases fields, 1
  {
    LeavesAreBelow(fields, parent + [index], 0);
    var here := parent + [index];
    forall i | 0 <= i < |Leaves(fields, here, 0)|
      ensures var path := Leaves(fields, here, 0)[i];
              |parent| < |path| && parent <= path && path[|parent|] == index
    {
      var path := Leaves(fields, here, 0)[i];
      assert here <= path;
      assert path[|parent|] == here[|parent|];
    }
  }

  ghost predicate Distinct(paths: seq<seq<nat>>) {
    forall i, j :: 0 <= i < j < |paths| ==> paths[i] != paths[j]
  }

  /** No leaf column is registered twice. */
  lemma {:induction false} LeavesAreDistinct(types: ColumnTypes, parent: seq<nat>, from: nat)
    ensures Distinct(Leaves(types, parent, from))
    decreases types
  {
    if types.Types? {
      LeavesAreDistinct(types.tail, parent, from + 1);
      LeavesAreBelow(types.tail, parent, from + 1);
      if types.head.StructType? {
        LeavesAreDistinct(types.head.fields, parent + [from], 0);
        BranchIsBelow(types.head.fields, parent, from);
      }
    }
  }

  /** Builds the columns of a data frame: an object of its own for every leaf column, each registered once. */
  method RelToAltrep(rel: AltrepRelationWrapper, types: ColumnTypes, parent: seq<nat>, from: nat)
    returns (columns: seq<AltrepVectorWrapper>)
    modifies rel`altrepColumns
    ensures rel.altrepColumns == old(rel.altrepColumns) + |columns|
    ensures |columns| == |Leaves(types, parent, from)|
    ensures forall i :: 0 <= i < |columns| ==> columns[i].path == Leaves(types, parent, from)[i]
    ensures forall i :: 0 <= i < |columns| ==>
              fresh(columns[i]) && columns[i].rel == rel && columns[i].View() == Column(false, false)
    ensures forall i, j :: 0 <= i < j < |columns| ==> columns[i] != columns[j]
    decreases types
  {
    columns := [];
    if types.NoTypes? {
      return;
    }
    match types.head {
      case LeafType =>
        var column := new AltrepVectorWrapper(rel, parent + [from]);
        columns := [column];
      case StructType(fields) =>
        columns := RelToAltrep(rel, fields, parent + [from], 0);
    }
    var rest := RelToAltrep(rel, types.tail, parent, from + 1);
    columns := columns + rest;
    LeavesAreDistinct(types, parent, from);
  }
}
