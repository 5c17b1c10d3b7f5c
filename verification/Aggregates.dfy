/**
 R's min, max and sum as partial aggregates (src/rfuns.cpp).

 The engine folds rows into states on several threads and merges the states in whatever order it
 likes.  A state represents the rows folded into it, and merging represents their concatenation.
 The answer does not depend on the order of the rows, so every way of splitting and merging them
 gives the answer of one serial fold.
*/
module Aggregates {
  import opened Wrappers

  /** A row: a value, or NULL (R's NA). */
  type Row<T> = Option<T>

  datatype State<T> = State(value: T, isSet: bool, isNull: bool)

  function Repeat<T>(row: Row<T>, n: nat): seq<Row<T>> {
    seq(n, _ => row)
  }

  /** What the engine gives a state at a time: rows, or one row that stands for `count` copies of it. */
  datatype Vector<T> = Flat(rows: seq<Row<T>>) | Constant(row: Row<T>, count: nat)

  predicate NonEmpty<T>(vectors: seq<Vector<T>>) {
    forall i :: 0 <= i < |vectors| ==> vectors[i].Constant? ==> vectors[i].count >= 1
  }

  function VectorRows<T>(v: Vector<T>): seq<Row<T>> {
    match v
    case Flat(rows) => rows
    case Constant(row, n) => Repeat(row, n)
  }

  function AllVectorRows<T>(vectors: seq<Vector<T>>): seq<Row<T>> {
    if vectors == [] then [] else AllVectorRows(vectors[..|vectors| - 1]) + VectorRows(vectors[|vectors| - 1])
  }

  /** How rows were split up: vectors folded into one state, or two parts merged, the left one first. */
  datatype Parts<T> = Folded(vectors: seq<Vector<T>>) | Merged(left: Parts<T>, right: Parts<T>)

  predicate Proper<T>(parts: Parts<T>) {
    match parts
    case Folded(vectors) => NonEmpty(vectors)
    case Merged(l, r) => Proper(l) && Proper(r)
  }

  function AllRows<T>(parts: Parts<T>): seq<Row<T>> {
    match parts
    case Folded(vectors) => AllVectorRows(vectors)
    case Merged(l, r) => AllRows(l) + AllRows(r)
  }

  // ---------------------------------------------------------------- min and max

  /** `better(a, b)`: a is preferred to b, strictly and totally (less for min, greater for max). */
  ghost predicate StrictTotalOrder<T(!new)>(better: (T, T) -> bool) {
    && (forall a :: !better(a, a))
    && (forall a, b, c :: better(a, b) && better(b, c) ==> better(a, c))
    && (forall a, b :: better(a, b) || better(b, a) || a == b)
  }

  /** One row folded in.  With na.rm the engine drops NULL rows before the operation. */
  function MinMaxStep<T>(s: State<T>, row: Row<T>, naRm: bool, better: (T, T) -> bool): State<T> {
    if naRm && row.None? then s
    else if s.isNull then s
    else if row.None? then s.(isNull := true)
    else if !s.isSet then s.(value := row.value, isSet := true)
    else if better(row.value, s.value) then s.(value := row.value)
    else s
  }

  function MinMaxFold<T>(s: State<T>, rows: seq<Row<T>>, naRm: bool, better: (T, T) -> bool): State<T> {
    if rows == [] then s
    else MinMaxStep(MinMaxFold(s, rows[..|rows| - 1], naRm, better), rows[|rows| - 1], naRm, better)
  }

  /** A constant vector is one operation. */
  function MinMaxVector<T>(s: State<T>, v: Vector<T>, naRm: bool, better: (T, T) -> bool): State<T> {
    match v
    case Flat(rows) => MinMaxFold(s, rows, naRm, better)
    case Constant(row, _) => MinMaxStep(s, row, naRm, better)
  }

  function MinMaxVectors<T>(s: State<T>, vectors: seq<Vector<T>>, naRm: bool, better: (T, T) -> bool): State<T> {
    if vectors == [] then s
    else MinMaxVector(MinMaxVectors(s, vectors[..|vectors| - 1], naRm, better), vectors[|vectors| - 1], naRm, better)
  }

  function MinMaxCombine<T>(source: State<T>, target: State<T>, better: (T, T) -> bool): State<T> {
    if source.isNull then target.(isNull := true)
    else if !source.isSet || target.isNull then target
    else if !target.isSet then source
    else if better(source.value, target.value) then target.(value := source.value)
    else target
  }

  function MinMaxAnswer<T>(s: State<T>): Option<T> {
    if s.isNull || !s.isSet then None else Some(s.value)
  }

  function MinMaxEval<T>(parts: Parts<T>, init: State<T>, naRm: bool, better: (T, T) -> bool): State<T> {
    match parts
    case Folded(vectors) => MinMaxVectors(init, vectors, naRm, better)
    case Merged(l, r) =>
      MinMaxCombine(MinMaxEval(r, init, naRm, better), MinMaxEval(l, init, naRm, better), better)
  }

  /** The state struct the source updates in place. */
  class MinMaxState<T(0)> {
    var value: T
    var isSet: bool
    var isNull: bool

    /** The value is left uninitialized. */
    constructor ()
      ensures !isSet && !isNull
    {
      isSet := false;
      isNull := false;
    }

    function View(): State<T>
      reads this
    {
      State(value, isSet, isNull)
    }

    method Execute(input: T, better: (T, T) -> bool)
      modifies this`value
      ensures value == if better(input, old(value)) then input else old(value)
    {
      if better(input, value) {
        value := input;
      }
    }

    method Operation(row: Row<T>, naRm: bool, better: (T, T) -> bool)
      requires naRm ==> row.Some?
      modifies this
      ensures View() == MinMaxStep(old(View()), row, naRm, better)
    {
      if isNull {
        return;
      }
      if !naRm && row.None? {
        isNull := true;
      } else if !isSet {
        value := row.value;
        isSet := true;
      } else {
        Execute(row.value, better);
      }
    }

    /** One constant row, `count` times over: for an order, once is enough. */
    method ConstantOperation(row: Row<T>, naRm: bool, better: (T, T) -> bool, count: nat)
      requires naRm ==> row.Some?
      modifies this
      ensures View() == MinMaxStep(old(View()), row, naRm, better)
    {
      Operation(row, naRm, better);
    }

    /** A vector of rows. */
    method Update(rows: seq<Row<T>>, naRm: bool, better: (T, T) -> bool)
      modifies this
      ensures View() == MinMaxFold(old(View()), rows, naRm, better)
    {
      for i := 0 to |rows|
        invariant View() == MinMaxFold(old(View()), rows[..i], naRm, better)
      {
        assert rows[..i + 1][..i] == rows[..i];
        if rows[i].Some? || !naRm {
          Operation(rows[i], naRm, better);
        }
      }
      assert rows[..|rows|] == rows;
    }

    method Combine(source: MinMaxState<T>, better: (T, T) -> bool)
      requires source != this
      modifies this
      ensures View() == MinMaxCombine(source.View(), old(View()), better)
    {
      if source.isNull {
        isNull := true;
        return;
      }
      if !source.isSet || isNull {
        return;
      }
      if !isSet {
        value, isSet, isNull := source.value, source.isSet, source.isNull;
      } else {
        Execute(source.value, better);
      }
    }

    method Finalize() returns (answer: Option<T>)
      ensures answer == MinMaxAnswer(View())
    {
      if isNull || !isSet {
        return None;
      }
      return Some(value);
    }
  }

  /** What R answers: NA if a NULL counts, otherwise the best of the values, if there is one. */
  ghost predicate IsBestOf<T>(answer: Option<T>, rows: seq<Row<T>>, naRm: bool, better: (T, T) -> bool) {
    if !naRm && (exists i :: 0 <= i < |rows| && rows[i].None?) then answer.None?
    else if forall i :: 0 <= i < |rows| ==> rows[i].None? then answer.None?
    else
      && answer.Some?
      && (exists i :: 0 <= i < |rows| && rows[i] == answer)
      && (forall i :: 0 <= i < |rows| && rows[i].Some? ==> !better(rows[i].value, answer.value))
  }

  /** The state stands for the rows; its value means nothing once isNull is set. */
  ghost predicate MinMaxStandsFor<T>(s: State<T>, rows: seq<Row<T>>, naRm: bool, better: (T, T) -> bool) {
    && (s.isNull <==> !naRm && exists i :: 0 <= i < |rows| && rows[i].None?)
    && (!s.isNull ==>
          && (s.isSet <==> exists i :: 0 <= i < |rows| && rows[i].Some?)
          && (s.isSet ==>
                && (exists i :: 0 <= i < |rows| && rows[i] == Some(s.value))
                && (forall i :: 0 <= i < |rows| && rows[i].Some? ==> !better(rows[i].value, s.value))))
  }

  lemma MinMaxStepStandsFor<T(!new)>(s: State<T>, rows: seq<Row<T>>, row: Row<T>, naRm: bool, better: (T, T) -> bool)
    requires StrictTotalOrder(better) && MinMaxStandsFor(s, rows, naRm, better)
    ensures MinMaxStandsFor(MinMaxStep(s, row, naRm, better), rows + [row], naRm, better)
  {
    var all := rows + [row];
    assert all[|rows|] == row;
    assert forall i :: 0 <= i < |rows| ==> all[i] == rows[i];
  }

  lemma MinMaxCombineStandsFor<T(!new)>(s: State<T>, t: State<T>, a: seq<Row<T>>, b: seq<Row<T>>, naRm: bool,
                                        better: (T, T) -> bool)
    requires StrictTotalOrder(better)
    requires MinMaxStandsFor(t, a, naRm, better) && MinMaxStandsFor(s, b, naRm, better)
    ensures MinMaxStandsFor(MinMaxCombine(s, t, better), a + b, naRm, better)
  {
    var all := a + b;
    assert forall i :: 0 <= i < |a| ==> all[i] == a[i];
    assert forall i :: 0 <= i < |b| ==> all[|a| + i] == b[i];
  }

  lemma {:induction false} MinMaxFoldStandsFor<T(!new)>(s: State<T>, before: seq<Row<T>>, rows: seq<Row<T>>,
                                                        naRm: bool, better: (T, T) -> bool)
    requires StrictTotalOrder(better) && MinMaxStandsFor(s, before, naRm, better)
    ensures MinMaxStandsFor(MinMaxFold(s, rows, naRm, better), before + rows, naRm, better)
  {
    if rows == [] {
      assert before + rows == before;
    } else {
      var front, last := rows[..|rows| - 1], rows[|rows| - 1];
      MinMaxFoldStandsFor(s, before, front, naRm, better);
      MinMaxStepStandsFor(MinMaxFold(s, front, naRm, better), before + front, last, naRm, better);
      assert before + rows == before + front + [last];
    }
  }

  lemma {:induction false} MinMaxVectorsStandFor<T(!new)>(s: State<T>, vectors: seq<Vector<T>>, naRm: bool,
                                                        better: (T, T) -> bool)
    requires StrictTotalOrder(better) && !s.isSet && !s.isNull && NonEmpty(vectors)
    ensures MinMaxStandsFor(MinMaxVectors(s, vectors, naRm, better), AllVectorRows(vectors), naRm, better)
  {
    if vectors != [] {
      var front, last := vectors[..|vectors| - 1], vectors[|vectors| - 1];
      MinMaxVectorsStandFor(s, front, naRm, better);
      var before := MinMaxVectors(s, front, naRm, better);
      if last.Constant? {
        MinMaxConstant(before, last.row, naRm, better, last.count);
      }
      MinMaxFoldStandsFor(before, AllVectorRows(front), VectorRows(last), naRm, better);
    }
  }

  lemma {:induction false} MinMaxEvalStandsFor<T(!new)>(parts: Parts<T>, init: State<T>, naRm: bool,
                                                        better: (T, T) -> bool)
    requires StrictTotalOrder(better) && !init.isSet && !init.isNull && Proper(parts)
    ensures MinMaxStandsFor(MinMaxEval(parts, init, naRm, better), AllRows(parts), naRm, better)
  {
    match parts
    case Folded(vectors) => MinMaxVectorsStandFor(init, vectors, naRm, better);
    case Merged(l, r) =>
      MinMaxEvalStandsFor(l, init, naRm, better);
      MinMaxEvalStandsFor(r, init, naRm, better);
      MinMaxCombineStandsFor(MinMaxEval(r, init, naRm, better), MinMaxEval(l, init, naRm, better),
                             AllRows(l), AllRows(r), naRm, better);
  }

  lemma AnswerIsBest<T(!new)>(s: State<T>, rows: seq<Row<T>>, naRm: bool, better: (T, T) -> bool)
    requires MinMaxStandsFor(s, rows, naRm, better)
    ensures IsBestOf(MinMaxAnswer(s), rows, naRm, better)
  {
  }

  lemma SameRows<T>(a: seq<Row<T>>, b: seq<Row<T>>, i: nat) returns (j: nat)
    requires multiset(a) == multiset(b) && i < |a|
    ensures j < |b| && b[j] == a[i]
  {
    assert a[i] in multiset(b);
    j :| 0 <= j < |b| && b[j] == a[i];
  }

  /** The order of the rows does not matter. */
  lemma BestOfPermutation<T(!new)>(x: Option<T>, a: seq<Row<T>>, b: seq<Row<T>>, naRm: bool, better: (T, T) -> bool)
    requires multiset(a) == multiset(b) && IsBestOf(x, a, naRm, better)
    ensures IsBestOf(x, b, naRm, better)
  {
    forall i | 0 <= i < |a|
      ensures exists j :: 0 <= j < |b| && b[j] == a[i]
    {
      var j := SameRows(a, b, i);
    }
    forall j | 0 <= j < |b|
      ensures exists i :: 0 <= i < |a| && a[i] == b[j]
    {
      var i := SameRows(b, a, j);
    }
  }

  /** However the rows are split, in whatever order, and the parts are merged, min and max answer what R defines. */
  lemma MinMaxAnyPartition<T(!new)>(parts: Parts<T>, rows: seq<Row<T>>, init: State<T>, naRm: bool,
                                    better: (T, T) -> bool)
    requires StrictTotalOrder(better) && !init.isSet && !init.isNull && Proper(parts)
    requires multiset(AllRows(parts)) == multiset(rows)
    ensures IsBestOf(MinMaxAnswer(MinMaxEval(parts, init, naRm, better)), rows, naRm, better)
    ensures MinMaxAnswer(MinMaxEval(parts, init, naRm, better)) == MinMaxAnswer(MinMaxFold(init, rows, naRm, better))
  {
    var merged, serial := MinMaxEval(parts, init, naRm, better), MinMaxFold(init, rows, naRm, better);
    MinMaxEvalStandsFor(parts, init, naRm, better);
    AnswerIsBest(merged, AllRows(parts), naRm, better);
    BestOfPermutation(MinMaxAnswer(merged), AllRows(parts), rows, naRm, better);
    MinMaxFoldStandsFor(init, [], rows, naRm, better);
    assert [] + rows == rows;
    AnswerIsBest(serial, rows, naRm, better);
    BestIsUnique(MinMaxAnswer(merged), MinMaxAnswer(serial), rows, naRm, better);
  }

  lemma BestIsUnique<T(!new)>(x: Option<T>, y: Option<T>, rows: seq<Row<T>>, naRm: bool, better: (T, T) -> bool)
    requires StrictTotalOrder(better)
    requires IsBestOf(x, rows, naRm, better) && IsBestOf(y, rows, naRm, better)
    ensures x == y
  {
  }

  /** A constant row folded once stands for any positive number of copies of it. */
  lemma {:induction false} MinMaxConstant<T(!new)>(s: State<T>, row: Row<T>, naRm: bool, better: (T, T) -> bool, n: nat)
    requires StrictTotalOrder(better) && n >= 1
    ensures MinMaxFold(s, Repeat(row, n), naRm, better) == MinMaxStep(s, row, naRm, better)
  {
    var rows := Repeat(row, n);
    assert rows[..n - 1] == Repeat(row, n - 1);
    if n > 1 {
      MinMaxConstant(s, row, naRm, better, n - 1);
    }
  }

  // ---------------------------------------------------------------- sum, over exact integers

  function SumStep(s: State<int>, row: Row<int>, naRm: bool): State<int> {
    if naRm && row.None? then s
    else if s.isNull then s
    else if row.None? then s.(isNull := true)
    else s.(isSet := true, value := s.value + row.value)
  }

  function SumFold(s: State<int>, rows: seq<Row<int>>, naRm: bool): State<int> {
    if rows == [] then s
    else SumStep(SumFold(s, rows[..|rows| - 1], naRm), rows[|rows| - 1], naRm)
  }

  /** Unlike the operation, this goes on adding once a NULL was seen. */
  function SumConstant(s: State<int>, row: Row<int>, count: nat): State<int> {
    if row.None? then s.(isNull := true)
    else s.(isSet := true, value := s.value + row.value * count)
  }

  function SumVector(s: State<int>, v: Vector<int>, naRm: bool): State<int> {
    match v
    case Flat(rows) => SumFold(s, rows, naRm)
    case Constant(row, n) => if naRm && row.None? then s else SumConstant(s, row, n)
  }

  function SumVectors(s: State<int>, vectors: seq<Vector<int>>, naRm: bool): State<int> {
    if vectors == [] then s
    else SumVector(SumVectors(s, vectors[..|vectors| - 1], naRm), vectors[|vectors| - 1], naRm)
  }

  function SumCombine(source: State<int>, target: State<int>): State<int> {
    if source.isNull then target.(isNull := true)
    else if !source.isSet || target.isNull then target
    else target.(isSet := true, value := target.value + source.value)
  }

  function SumAnswer(s: State<int>): Option<int> {
    if s.isNull then None else Some(s.value)
  }

  const SUM_INIT := State(0, false, false)

  function SumEval(parts: Parts<int>, naRm: bool): State<int> {
    match parts
    case Folded(vectors) => SumVectors(SUM_INIT, vectors, naRm)
    case Merged(l, r) => SumCombine(SumEval(r, naRm), SumEval(l, naRm))
  }

  class SumState {
    var value: int
    var isSet: bool
    var isNull: bool

    constructor ()
      ensures View() == SUM_INIT
    {
      value := 0;
      isSet := false;
      isNull := false;
    }

    function View(): State<int>
      reads this
    {
      State(value, isSet, isNull)
    }

    method Operation(row: Row<int>, naRm: bool)
      requires naRm ==> row.Some?
      modifies this
      ensures View() == SumStep(old(View()), row, naRm)
    {
      if isNull {
        return;
      }
      if !naRm && row.None? {
        isNull := true;
      } else {
        if !isSet {
          isSet := true;
        }
        value := value + row.value;
      }
    }

    method ConstantOperation(row: Row<int>, naRm: bool, count: nat)
      requires naRm ==> row.Some?
      modifies this
      ensures View() == SumConstant(old(View()), row, count)
    {
      if !naRm && row.None? {
        isNull := true;
      } else {
        if !isSet {
          isSet := true;
        }
        value := value + row.value * count;
      }
    }

    method Update(rows: seq<Row<int>>, naRm: bool)
      modifies this
      ensures View() == SumFold(old(View()), rows, naRm)
    {
      for i := 0 to |rows|
        invariant View() == SumFold(old(View()), rows[..i], naRm)
      {
        assert rows[..i + 1][..i] == rows[..i];
        if rows[i].Some? || !naRm {
          Operation(rows[i], naRm);
        }
      }
      assert rows[..|rows|] == rows;
    }

    method Combine(source: SumState)
      requires source != this
      modifies this
      ensures View() == SumCombine(source.View(), old(View()))
    {
      if source.isNull {
        isNull := true;
        return;
      }
      if !source.isSet || isNull {
        return;
      }
      isSet := true;
      value := value + source.value;
    }

    method Finalize() returns (answer: Option<int>)
      ensures answer == SumAnswer(View())
    {
      if isNull {
        return None;
      }
      return Some(value);
    }
  }

  function Total(rows: seq<Row<int>>): int {
    if rows == [] then 0
    else Total(rows[1..]) + if rows[0].Some? then rows[0].value else 0
  }

  /** What R answers: NA if a NULL counts, otherwise the total of the values, 0 if there are none. */
  ghost function SumOf(rows: seq<Row<int>>, naRm: bool): Option<int> {
    if !naRm && (exists i :: 0 <= i < |rows| && rows[i].None?) then None else Some(Total(rows))
  }

  ghost predicate SumStandsFor(s: State<int>, rows: seq<Row<int>>, naRm: bool) {
    && (s.isNull <==> !naRm && exists i :: 0 <= i < |rows| && rows[i].None?)
    && (!s.isNull ==> s.value == Total(rows) && (s.isSet <==> exists i :: 0 <= i < |rows| && rows[i].Some?))
  }

  lemma {:induction false} TotalConcat(a: seq<Row<int>>, b: seq<Row<int>>)
    ensures Total(a + b) == Total(a) + Total(b)
  {
    if a == [] {
      assert a + b == b;
    } else {
      TotalConcat(a[1..], b);
      assert (a + b)[1..] == a[1..] + b;
    }
  }

  /** Each value counts once, wherever it stands; NULL counts nothing. */
  lemma TotalAround(before: seq<Row<int>>, row: Row<int>, after: seq<Row<int>>)
    ensures Total(before + [row] + after) ==
            Total(before) + Total(after) + if row.Some? then row.value else 0
  {
    TotalConcat(before + [row], after);
    TotalConcat(before, [row]);
    assert [row][1..] == [];
  }

  lemma {:induction false} TotalOfNulls(rows: seq<Row<int>>)
    requires forall i :: 0 <= i < |rows| ==> rows[i].None?
    ensures Total(rows) == 0
  {
    if rows != [] {
      TotalOfNulls(rows[1..]);
    }
  }

  lemma SumStepStandsFor(s: State<int>, rows: seq<Row<int>>, row: Row<int>, naRm: bool)
    requires SumStandsFor(s, rows, naRm)
    ensures SumStandsFor(SumStep(s, row, naRm), rows + [row], naRm)
  {
    var all := rows + [row];
    assert all[|rows|] == row;
    assert forall i :: 0 <= i < |rows| ==> all[i] == rows[i];
    TotalConcat(rows, [row]);
  }

  lemma SumCombineStandsFor(s: State<int>, t: State<int>, a: seq<Row<int>>, b: seq<Row<int>>, naRm: bool)
    requires SumStandsFor(t, a, naRm) && SumStandsFor(s, b, naRm)
    ensures SumStandsFor(SumCombine(s, t), a + b, naRm)
  {
    var all := a + b;
    assert forall i :: 0 <= i < |a| ==> all[i] == a[i];
    assert forall i :: 0 <= i < |b| ==> all[|a| + i] == b[i];
    TotalConcat(a, b);
    if !s.isNull && !s.isSet {
      TotalOfNulls(b);
    }
  }

  lemma {:induction false} SumFoldStandsFor(s: State<int>, before: seq<Row<int>>, rows: seq<Row<int>>, naRm: bool)
    requires SumStandsFor(s, before, naRm)
    ensures SumStandsFor(SumFold(s, rows, naRm), before + rows, naRm)
  {
    if rows == [] {
      assert before + rows == before;
    } else {
      var front, last := rows[..|rows| - 1], rows[|rows| - 1];
      SumFoldStandsFor(s, before, front, naRm);
      SumStepStandsFor(SumFold(s, front, naRm), before + front, last, naRm);
      assert before + rows == before + front + [last];
    }
  }

  lemma {:induction false} SumOfDropped(s: State<int>, n: nat)
    ensures SumFold(s, Repeat(None, n), true) == s
  {
    if n > 0 {
      assert Repeat<int>(None, n)[..n - 1] == Repeat(None, n - 1);
      SumOfDropped(s, n - 1);
    }
  }

  /** A vector leaves the state as folding its rows does, up to a value nobody reads. */
  lemma SumVectorIsFold(s: State<int>, v: Vector<int>, naRm: bool)
    requires v.Constant? ==> v.count >= 1
    ensures SameState(SumVector(s, v, naRm), SumFold(s, VectorRows(v), naRm))
  {
    if v.Constant? {
      if naRm && v.row.None? {
        SumOfDropped(s, v.count);
      } else {
        SumConstantIsRepeated(s, v.row, naRm, v.count);
      }
    }
  }

  lemma {:induction false} SumVectorsStandFor(vectors: seq<Vector<int>>, naRm: bool)
    requires NonEmpty(vectors)
    ensures SumStandsFor(SumVectors(SUM_INIT, vectors, naRm), AllVectorRows(vectors), naRm)
  {
    if vectors != [] {
      var front, last := vectors[..|vectors| - 1], vectors[|vectors| - 1];
      SumVectorsStandFor(front, naRm);
      var before := SumVectors(SUM_INIT, front, naRm);
      SumVectorIsFold(before, last, naRm);
      SumFoldStandsFor(before, AllVectorRows(front), VectorRows(last), naRm);
    }
  }

  lemma {:induction false} SumEvalStandsFor(parts: Parts<int>, naRm: bool)
    requires Proper(parts)
    ensures SumStandsFor(SumEval(parts, naRm), AllRows(parts), naRm)
  {
    match parts
    case Folded(vectors) => SumVectorsStandFor(vectors, naRm);
    case Merged(l, r) =>
      SumEvalStandsFor(l, naRm);
      SumEvalStandsFor(r, naRm);
      SumCombineStandsFor(SumEval(r, naRm), SumEval(l, naRm), AllRows(l), AllRows(r), naRm);
  }

  /** The rows but for row k. */
  function Without<T>(rows: seq<Row<T>>, k: nat): seq<Row<T>>
    requires k < |rows|
  {
    rows[..k] + rows[k + 1..]
  }

  lemma WithoutRows<T>(rows: seq<Row<T>>, k: nat)
    requires k < |rows|
    ensures multiset(Without(rows, k)) == multiset(rows) - multiset{rows[k]}
  {
    assert rows == rows[..k] + [rows[k]] + rows[k + 1..];
  }

  lemma TotalWithout(rows: seq<Row<int>>, k: nat)
    requires k < |rows|
    ensures Total(rows) == Total(Without(rows, k)) + if rows[k].Some? then rows[k].value else 0
  {
    TotalConcat(rows[..k], rows[k + 1..]);
    TotalConcat(rows[..k], rows[k..]);
    assert rows[..k] + rows[k..] == rows && rows[k..][1..] == rows[k + 1..];
  }

  lemma {:induction false} TotalOfPermutation(a: seq<Row<int>>, b: seq<Row<int>>)
    requires multiset(a) == multiset(b)
    ensures Total(a) == Total(b)
    decreases |a|
  {
    if a == [] {
      assert |b| == |multiset(b)| == 0;
    } else {
      var k := SameRows(a, b, 0);
      WithoutRows(a, 0);
      WithoutRows(b, k);
      TotalOfPermutation(Without(a, 0), Without(b, k));
      TotalWithout(a, 0);
      TotalWithout(b, k);
    }
  }

  /** The order of the rows does not matter. */
  lemma SumOfPermutation(a: seq<Row<int>>, b: seq<Row<int>>, naRm: bool)
    requires multiset(a) == multiset(b)
    ensures SumOf(a, naRm) == SumOf(b, naRm)
  {
    TotalOfPermutation(a, b);
    if i :| 0 <= i < |a| && a[i].None? {
      var j := SameRows(a, b, i);
    }
    if j :| 0 <= j < |b| && b[j].None? {
      var i := SameRows(b, a, j);
    }
  }

  /** However the rows are split, in whatever order, and the parts are merged, sum answers what R defines. */
  lemma SumAnyPartition(parts: Parts<int>, rows: seq<Row<int>>, naRm: bool)
    requires Proper(parts) && multiset(AllRows(parts)) == multiset(rows)
    ensures SumAnswer(SumEval(parts, naRm)) == SumOf(rows, naRm)
    ensures SumAnswer(SumEval(parts, naRm)) == SumAnswer(SumFold(SUM_INIT, rows, naRm))
  {
    SumEvalStandsFor(parts, naRm);
    SumOfPermutation(AllRows(parts), rows, naRm);
    SumFoldStandsFor(SUM_INIT, [], rows, naRm);
    assert [] + rows == rows;
  }

  /** Equal states, but for a value nobody reads. */
  predicate SameState(s: State<int>, t: State<int>) {
    s.isNull == t.isNull && (!s.isNull ==> s == t)
  }

  /** A constant row added `count` times at once is `count` operations. */
  lemma {:induction false} SumConstantIsRepeated(s: State<int>, row: Row<int>, naRm: bool, n: nat)
    requires n >= 1 && (naRm ==> row.Some?)
    ensures SameState(SumConstant(s, row, n), SumFold(s, Repeat(row, n), naRm))
  {
    var rows := Repeat(row, n);
    assert rows[..n - 1] == Repeat(row, n - 1);
    if n > 1 {
      SumConstantIsRepeated(s, row, naRm, n - 1);
      assert row.Some? ==> row.value * n == row.value * (n - 1) + row.value;
    }
  }
}
