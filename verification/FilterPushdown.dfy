/**
 Translation of pushed-down table filters into Arrow expressions (src/register.cpp).

 The engine's filters and the Arrow expressions are both given a meaning in SQL's three-valued
 logic, and the translation is compared with the filter it came from, row by row.  An optional
 filter only prunes: a translation may keep it, drop it, or keep part of it.
*/
module FilterPushdown {
  import opened Arithmetic
  import opened Wrappers

  datatype Truth = False | Null | True

  /** The order FALSE < NULL < TRUE. */
  predicate AtMost(a: Truth, b: Truth) {
    a.False? || b.True? || (a.Null? && b.Null?)
  }

  function Not(a: Truth): Truth {
    match a
    case False => True
    case Null => Null
    case True => False
  }

  function And(a: Truth, b: Truth): Truth {
    if a.False? || b.False? then False else if a.Null? || b.Null? then Null else True
  }

  function Or(a: Truth, b: Truth): Truth {
    if a.True? || b.True? then True else if a.Null? || b.Null? then Null else False
  }

  /** The two connectives a chain of expressions is joined by. */
  datatype Junction = AndKleene | OrKleene {
    function Join(a: Truth, b: Truth): Truth {
      if AndKleene? then And(a, b) else Or(a, b)
    }

    function Unit(): Truth {
      if AndKleene? then True else False
    }
  }

  /** The meaning of a chain: every value joined, left to right, with no grouping. */
  function JoinAll(op: Junction, values: seq<Truth>): Truth {
    if values == [] then op.Unit() else op.Join(values[0], JoinAll(op, values[1..]))
  }

  datatype Comparator =
    | Equal | NotEqual | Less | LessEqual | Greater | GreaterEqual
    | DistinctFrom | NotDistinctFrom

  /** `c FLIP(op) x` is `x op c`. */
  function Flip(op: Comparator): Comparator {
    match op
    case Less => Greater
    case LessEqual => GreaterEqual
    case Greater => Less
    case GreaterEqual => LessEqual
    case _ => op
  }

  function OfBool(b: bool): Truth {
    if b then True else False
  }

  /** One row, and the order its values are compared by. */
  datatype Row<!V> = Row(lessThan: (V, V) -> bool, columns: string -> Option<V>)

  function Compare<V(==)>(op: Comparator, a: Option<V>, b: Option<V>, lt: (V, V) -> bool): Truth {
    if op.DistinctFrom? then OfBool(a != b)
    else if op.NotDistinctFrom? then OfBool(a == b)
    else if a.None? || b.None? then Null
    else
      match op
      case Equal => OfBool(a.value == b.value)
      case NotEqual => OfBool(a.value != b.value)
      case Less => OfBool(lt(a.value, b.value))
      case LessEqual => OfBool(!lt(b.value, a.value))
      case Greater => OfBool(lt(b.value, a.value))
      case GreaterEqual => OfBool(!lt(a.value, b.value))
  }

  // ---------------------------------------------------------------- Arrow expressions

  datatype Operand<V> = FieldRef(name: string) | Literal(value: Option<V>)

  datatype ArrowExpr<V> =
    | Boolean(value: bool)
    | Comparison(op: Comparator, lhs: Operand<V>, rhs: Operand<V>)
    | IsNull(operand: Operand<V>)
    | Invert(arg: ArrowExpr<V>)
    | Junct(junction: Junction, left: ArrowExpr<V>, right: ArrowExpr<V>)

  function OperandValue<V(==)>(o: Operand<V>, row: Row<V>): Option<V> {
    match o
    case FieldRef(name) => row.columns(name)
    case Literal(v) => v
  }

  function ArrowTruth<V(==)>(e: ArrowExpr<V>, row: Row<V>): Truth {
    match e
    case Boolean(b) => OfBool(b)
    case Comparison(op, l, r) => Compare(op, OperandValue(l, row), OperandValue(r, row), row.lessThan)
    case IsNull(o) => OfBool(OperandValue(o, row).None?)
    case Invert(a) => Not(ArrowTruth(a, row))
    case Junct(j, l, r) => j.Join(ArrowTruth(l, row), ArrowTruth(r, row))
  }

  function Max(a: nat, b: nat): nat {
    if a < b then b else a
  }

  /** How deeply connectives nest: what an evaluator recurses through. */
  function Depth<V>(e: ArrowExpr<V>): nat {
    match e
    case Junct(_, l, r) => 1 + Max(Depth(l), Depth(r))
    case Invert(a) => Depth(a)
    case _ => 0
  }

  // ---------------------------------------------------------------- engine filters

  /** The operand of a filter expression; a filter applies to one column, bound as its reference. */
  datatype Scalar<!V> = BoundRef | Constant(value: Option<V>) | Computed(fn: Option<V> -> Option<V>)

  datatype Expr<!V> =
    | Compared(op: Comparator, lhs: Scalar<V>, rhs: Scalar<V>)
    | Conjunction(junction: Junction, children: seq<Expr<V>>)
    | OptionalExpr(child: Option<Expr<V>>)
    | IsNullOf(operand: Scalar<V>)
    | IsNotNullOf(operand: Scalar<V>)
    | InOf(operands: seq<Scalar<V>>)
    | OtherExpr(meaning: Option<V> -> Truth)

  datatype TableFilter<!V> =
    | ExpressionFilter(expr: Expr<V>)
    | ConstantComparison(op: Comparator, constant: Option<V>)
    | LegacyIsNull
    | LegacyIsNotNull
    | LegacyConjunction(junction: Junction, children: seq<TableFilter<V>>)
    | LegacyIn(values: seq<Option<V>>)
    | LegacyOptional(child: Option<TableFilter<V>>)
    | OtherFilter(meaning: Option<V> -> Truth)

  /** The largest IN list that is expanded into equality comparisons. */
  const MAX_PUSHDOWN_IN_VALUES := 100

  /** The comparators that Arrow has a function for. */
  predicate IsOrdinary(op: Comparator) {
    op in {Equal, NotEqual, Less, LessEqual, Greater, GreaterEqual}
  }

  /**
   What can be pushed down: the bare column compared with a constant, whichever side it is on; connectives all of
   whose children can be; optional filters in any case, for they may be TRUE; questions for NULL; and whether the
   column is one of not too many constants.
  */
  predicate ExprTranslatable<V>(e: Expr<V>) {
    match e
    case Compared(op, lhs, rhs) =>
      IsOrdinary(op) && ((lhs.BoundRef? && rhs.Constant?) || (lhs.Constant? && rhs.BoundRef?))
    case Conjunction(_, children) => children != [] && forall i :: 0 <= i < |children| ==> ExprTranslatable(children[i])
    case OptionalExpr(_) => true
    case IsNullOf(_) => true
    case IsNotNullOf(_) => true
    case InOf(operands) =>
      && operands != [] && operands[0].BoundRef? && |operands| <= MAX_PUSHDOWN_IN_VALUES + 1
      && forall i :: 1 <= i < |operands| ==> operands[i].Constant?
    case OtherExpr(_) => false
  }

  predicate FilterTranslatable<V>(f: TableFilter<V>) {
    match f
    case ExpressionFilter(e) => ExprTranslatable(e)
    case ConstantComparison(op, _) => IsOrdinary(op)
    case LegacyIsNull => true
    case LegacyIsNotNull => true
    case LegacyConjunction(_, children) =>
      children != [] && forall i :: 0 <= i < |children| ==> FilterTranslatable(children[i])
    case LegacyIn(values) => |values| <= MAX_PUSHDOWN_IN_VALUES
    case LegacyOptional(_) => true
    case OtherFilter(_) => false
  }

  /**
   How the optional filters inside a filter are read: all as the predicate they carry, all as
   TRUE, or each as its predicate exactly when that predicate can be translated.
  */
  datatype Reading = Strict | Loose | AsTranslated

  function ScalarValue<V>(s: Scalar<V>, column: Option<V>): Option<V> {
    match s
    case BoundRef => column
    case Constant(v) => v
    case Computed(fn) => fn(column)
  }

  function Equalities<V(==)>(x: Option<V>, values: seq<Option<V>>, lt: (V, V) -> bool): (r: seq<Truth>)
    ensures |r| == |values|
  {
    seq(|values|, i requires 0 <= i < |values| => Compare(Equal, x, values[i], lt))
  }

  function InTruth<V(==)>(operands: seq<Scalar<V>>, column: Option<V>, lt: (V, V) -> bool): Truth {
    if operands == [] then False
    else
      var values := seq(|operands| - 1, i requires 0 <= i < |operands| - 1 => ScalarValue(operands[i + 1], column));
      JoinAll(OrKleene, Equalities(ScalarValue(operands[0], column), values, lt))
  }

  function ExprTruth<V(==)>(e: Expr<V>, how: Reading, column: Option<V>, lt: (V, V) -> bool): Truth
    decreases e, 0
  {
    match e
    case Compared(op, l, r) => Compare(op, ScalarValue(l, column), ScalarValue(r, column), lt)
    case Conjunction(j, children) => ExprsTruth(j, children, how, column, lt)
    case OptionalExpr(child) =>
      if child.None? || how.Loose? || (how.AsTranslated? && !ExprTranslatable(child.value)) then True
      else ExprTruth(child.value, how, column, lt)
    case IsNullOf(s) => OfBool(ScalarValue(s, column).None?)
    case IsNotNullOf(s) => OfBool(ScalarValue(s, column).Some?)
    case InOf(operands) => InTruth(operands, column, lt)
    case OtherExpr(meaning) => meaning(column)
  }

  function ExprsTruth<V(==)>(j: Junction, es: seq<Expr<V>>, how: Reading, column: Option<V>, lt: (V, V) -> bool): Truth
    decreases es, 1
  {
    if es == [] then j.Unit()
    else j.Join(ExprTruth(es[0], how, column, lt), ExprsTruth(j, es[1..], how, column, lt))
  }

  function FilterTruth<V(==)>(f: TableFilter<V>, how: Reading, column: Option<V>, lt: (V, V) -> bool): Truth
    decreases f, 0
  {
    match f
    case ExpressionFilter(e) => ExprTruth(e, how, column, lt)
    case ConstantComparison(op, c) => Compare(op, column, c, lt)
    case LegacyIsNull => OfBool(column.None?)
    case LegacyIsNotNull => OfBool(column.Some?)
    case LegacyConjunction(j, children) => FiltersTruth(j, children, how, column, lt)
    case LegacyIn(values) => JoinAll(OrKleene, Equalities(column, values, lt))
    case LegacyOptional(child) =>
      if child.None? || how.Loose?
          || (how.AsTranslated? && !FilterTranslatable(child.value)) then True
      else FilterTruth(child.value, how, column, lt)
    case OtherFilter(meaning) => meaning(column)
  }

  function FiltersTruth<V(==)>(j: Junction, fs: seq<TableFilter<V>>, how: Reading, column: Option<V>,
                               lt: (V, V) -> bool): Truth
    decreases fs, 1
  {
    if fs == [] then j.Unit()
    else j.Join(FilterTruth(fs[0], how, column, lt), FiltersTruth(j, fs[1..], how, column, lt))
  }

  // ---------------------------------------------------------------- the translation

  /** Joins expressions as a balanced tree, so that a long chain does not nest deeply. */
  function FoldBalanced<V>(op: Junction, exprs: seq<ArrowExpr<V>>): ArrowExpr<V>
    requires exprs != []
    decreases |exprs|
  {
    if |exprs| == 1 then exprs[0]
    else
      var mid := |exprs| / 2;
      Junct(op, FoldBalanced(op, exprs[..mid]), FoldBalanced(op, exprs[mid..]))
  }

  function EqualTo<V>(name: string, values: seq<Option<V>>): (r: seq<ArrowExpr<V>>)
    ensures |r| == |values|
  {
    seq(|values|, i requires 0 <= i < |values| => Comparison(Equal, FieldRef(name), Literal(values[i])))
  }

  /** `col IN (values)`; None where the source gives up. */
  function TransformIn<V>(name: string, values: seq<Option<V>>): Option<ArrowExpr<V>> {
    if values == [] then Some(Boolean(false))
    else if |values| > MAX_PUSHDOWN_IN_VALUES then None
    else Some(FoldBalanced(OrKleene, EqualTo(name, values)))
  }

  /** The constants of an IN list, or None where one of them is not a constant. */
  function Constants<V>(operands: seq<Scalar<V>>): (r: Option<seq<Option<V>>>)
    ensures r.Some? <==> forall i :: 0 <= i < |operands| ==> operands[i].Constant?
    ensures r.Some? ==> |r.value| == |operands| && forall i :: 0 <= i < |operands| ==> r.value[i] == operands[i].value
  {
    if operands == [] then Some([])
    else
      var rest := Constants(operands[1..]);
      if operands[0].Constant? && rest.Some? then Some([operands[0].value] + rest.value) else None
  }

  function TransformInExpression<V>(operands: seq<Scalar<V>>, name: string): Option<ArrowExpr<V>> {
    if operands == [] || !operands[0].BoundRef? then None
    else if |operands| - 1 > MAX_PUSHDOWN_IN_VALUES then None
    else
      var values := Constants(operands[1..]);
      if values.None? then None else TransformIn(name, values.value)
  }

  function TransformComparison<V>(op: Comparator, constant: Option<V>, name: string): Option<ArrowExpr<V>> {
    if op.DistinctFrom? || op.NotDistinctFrom? then None
    else Some(Comparison(op, FieldRef(name), Literal(constant)))
  }

  function TransformExpression<V>(e: Expr<V>, name: string): Option<ArrowExpr<V>>
    decreases e, 0
  {
    match e
    case Compared(op, BoundRef, Constant(v)) => TransformComparison(op, v, name)
    case Compared(op, Constant(v), BoundRef) => TransformComparison(Flip(op), v, name)
    case Compared(_, _, _) => None
    case Conjunction(j, children) =>
      if children == [] then None
      else
        var exprs := TransformExpressions(children, name);
        if exprs.None? then None else Some(FoldBalanced(j, exprs.value))
    case OptionalExpr(child) =>
      if child.None? then Some(Boolean(true))
      else
        var pushed := TransformExpression(child.value, name);
        if pushed.Some? then pushed else Some(Boolean(true))
    case IsNullOf(_) => Some(IsNull(FieldRef(name)))
    case IsNotNullOf(_) => Some(Invert(IsNull(FieldRef(name))))
    case InOf(operands) => TransformInExpression(operands, name)
    case OtherExpr(_) => None
  }

  function TransformExpressions<V>(es: seq<Expr<V>>, name: string): (r: Option<seq<ArrowExpr<V>>>)
    ensures r.Some? ==> |r.value| == |es|
    decreases es, 1
  {
    if es == [] then Some([])
    else
      var first := TransformExpression(es[0], name);
      var rest := TransformExpressions(es[1..], name);
      if first.None? || rest.None? then None else Some([first.value] + rest.value)
  }

  function TransformFilterExpression<V>(f: TableFilter<V>, name: string): Option<ArrowExpr<V>>
    decreases f, 0
  {
    match f
    case ExpressionFilter(e) => TransformExpression(e, name)
    case ConstantComparison(op, c) => TransformComparison(op, c, name)
    case LegacyIsNull => Some(IsNull(FieldRef(name)))
    case LegacyIsNotNull => Some(Invert(IsNull(FieldRef(name))))
    case LegacyConjunction(j, children) =>
      if children == [] then None
      else
        var exprs := TransformChildFilters(children, name);
        if exprs.None? then None else Some(FoldBalanced(j, exprs.value))
    case LegacyIn(values) => TransformIn(name, values)
    case LegacyOptional(child) =>
      if child.None? then Some(Boolean(true))
      else
        var pushed := TransformFilterExpression(child.value, name);
        if pushed.Some? then pushed else Some(Boolean(true))
    case OtherFilter(_) => None
  }

  function TransformChildFilters<V>(fs: seq<TableFilter<V>>, name: string): (r: Option<seq<ArrowExpr<V>>>)
    ensures r.Some? ==> |r.value| == |fs|
    decreases fs, 1
  {
    if fs == [] then Some([])
    else
      var first := TransformFilterExpression(fs[0], name);
      var rest := TransformChildFilters(fs[1..], name);
      if first.None? || rest.None? then None else Some([first.value] + rest.value)
  }

  // ---------------------------------------------------------------- what is translated

  /** An expression has a translation exactly if it is one that can be pushed down, for any column. */
  lemma {:induction false} TranslatesExactly<V>(e: Expr<V>, name: string)
    ensures TransformExpression(e, name).Some? <==> ExprTranslatable(e)
    decreases e, 0
  {
    match e
    case Conjunction(j, children) => ChildrenTranslateExactly(children, name);
    case InOf(operands) => InExpandsExactly(operands, name);
    case _ =>
  }

  lemma {:induction false} ChildrenTranslateExactly<V>(es: seq<Expr<V>>, name: string)
    ensures TransformExpressions(es, name).Some? <==> forall i :: 0 <= i < |es| ==> ExprTranslatable(es[i])
    decreases es, 1
  {
    if es != [] {
      TranslatesExactly(es[0], name);
      ChildrenTranslateExactly(es[1..], name);
      assert forall i :: 1 <= i < |es| ==> es[i] == es[1..][i - 1];
    }
  }

  lemma {:induction false} FilterTranslatesExactly<V>(f: TableFilter<V>, name: string)
    ensures TransformFilterExpression(f, name).Some? <==> FilterTranslatable(f)
    decreases f, 0
  {
    match f
    case ExpressionFilter(e) => TranslatesExactly(e, name);
    case LegacyConjunction(j, children) => ChildFiltersTranslateExactly(children, name);
    case LegacyIn(values) => InIsShallow(name, values);
    case _ =>
  }

  lemma {:induction false} ChildFiltersTranslateExactly<V>(fs: seq<TableFilter<V>>, name: string)
    ensures TransformChildFilters(fs, name).Some? <==> forall i :: 0 <= i < |fs| ==> FilterTranslatable(fs[i])
    decreases fs, 1
  {
    if fs != [] {
      FilterTranslatesExactly(fs[0], name);
      ChildFiltersTranslateExactly(fs[1..], name);
      assert forall i :: 1 <= i < |fs| ==> fs[i] == fs[1..][i - 1];
    }
  }

  // ---------------------------------------------------------------- the loops of the source

  /** The loop that expands an IN list, tied to the functional form above. */
  method ExpandIn<V>(name: string, values: seq<Option<V>>) returns (r: Option<ArrowExpr<V>>)
    ensures r == TransformIn(name, values)
  {
    if |values| == 0 {
      return Some(Boolean(false));
    }
    if |values| > MAX_PUSHDOWN_IN_VALUES {
      return None;
    }
    var equalExprs: seq<ArrowExpr<V>> := [];
    for i := 0 to |values|
      invariant equalExprs == EqualTo(name, values[..i])
    {
      equalExprs := equalExprs + [Comparison(Equal, FieldRef(name), Literal(values[i]))];
    }
    assert values[..|values|] == values;
    r := Some(FoldBalanced(OrKleene, equalExprs));
  }

  /** What the row must satisfy: every column's filter, in the given reading of the optional ones. */
  function FilterSetTruth<V(==)>(filters: seq<(string, TableFilter<V>)>, how: Reading, row: Row<V>): Truth {
    if filters == [] then True
    else
      And(FilterTruth(filters[0].1, how, row.columns(filters[0].0), row.lessThan),
          FilterSetTruth(filters[1..], how, row))
  }

  /** A set of filters, one per column: joined in order by `and_kleene`. */
  method TransformFilter<V(!new)>(filters: seq<(string, TableFilter<V>)>) returns (r: Option<ArrowExpr<V>>)
    requires filters != []
    requires forall i :: 0 <= i < |filters| ==> FilterOperandsAreBare(filters[i].1)
    ensures r.Some? <==> forall i :: 0 <= i < |filters| ==> FilterTranslatable(filters[i].1)
    ensures r.Some? ==>
              forall row: Row<V> :: ArrowTruth(r.value, row) == FilterSetTruth(filters, AsTranslated, row)
    ensures r.Some? ==>
              forall row: Row<V> ::
                && AtMost(FilterSetTruth(filters, Strict, row), ArrowTruth(r.value, row))
                && AtMost(ArrowTruth(r.value, row), FilterSetTruth(filters, Loose, row))
  {
    forall i | 0 <= i < |filters|
      ensures TransformFilterExpression(filters[i].1, filters[i].0).Some? <==> FilterTranslatable(filters[i].1)
    {
      FilterTranslatesExactly(filters[i].1, filters[i].0);
    }
    var first := TransformFilterExpression(filters[0].1, filters[0].0);
    if first.None? {
      return None;
    }
    var res := first.value;
    ghost var how := AsTranslated;
    forall row: Row<V>
      ensures ArrowTruth(res, row) == FilterSetTruth(filters[..1], how, row)
    {
      FilterTranslates(filters[0].1, filters[0].0, res, row);
    }
    for i := 1 to |filters|
      invariant forall k :: 0 <= k < i ==> TransformFilterExpression(filters[k].1, filters[k].0).Some?
      invariant forall row: Row<V> :: ArrowTruth(res, row) == FilterSetTruth(filters[..i], how, row)
    {
      var rhs := TransformFilterExpression(filters[i].1, filters[i].0);
      if rhs.None? {
        return None;
      }
      forall row: Row<V>
        ensures ArrowTruth(Junct(AndKleene, res, rhs.value), row) == FilterSetTruth(filters[..i + 1], how, row)
      {
        FilterTranslates(filters[i].1, filters[i].0, rhs.value, row);
        FilterSetAppend(filters[..i], filters[i], how, row);
        assert filters[..i + 1] == filters[..i] + [filters[i]];
      }
      res := Junct(AndKleene, res, rhs.value);
    }
    assert filters[..|filters|] == filters;
    forall row: Row<V>
      ensures AtMost(FilterSetTruth(filters, Strict, row), ArrowTruth(res, row))
      ensures AtMost(ArrowTruth(res, row), FilterSetTruth(filters, Loose, row))
    {
      FilterSetBetween(filters, row);
    }
    r := Some(res);
  }

  // ---------------------------------------------------------------- chains

  lemma {:induction false} JoinAllConcat(op: Junction, a: seq<Truth>, b: seq<Truth>)
    ensures JoinAll(op, a + b) == op.Join(JoinAll(op, a), JoinAll(op, b))
  {
    if a == [] {
      assert a + b == b;
    } else {
      JoinAllConcat(op, a[1..], b);
      assert (a + b)[1..] == a[1..] + b;
    }
  }

  function Truths<V(==)>(es: seq<ArrowExpr<V>>, row: Row<V>): (r: seq<Truth>)
    ensures |r| == |es|
  {
    seq(|es|, i requires 0 <= i < |es| => ArrowTruth(es[i], row))
  }

  lemma TruthsSplit<V>(es: seq<ArrowExpr<V>>, mid: nat, row: Row<V>)
    requires mid <= |es|
    ensures Truths(es, row) == Truths(es[..mid], row) + Truths(es[mid..], row)
  {
  }

  /** The balanced tree means what the chain means. */
  lemma {:induction false} FoldBalancedMeaning<V>(op: Junction, es: seq<ArrowExpr<V>>, row: Row<V>)
    requires es != []
    ensures ArrowTruth(FoldBalanced(op, es), row) == JoinAll(op, Truths(es, row))
    decreases |es|
  {
    if |es| == 1 {
      assert Truths(es, row) == [ArrowTruth(es[0], row)];
    } else {
      var mid := |es| / 2;
      FoldBalancedMeaning(op, es[..mid], row);
      FoldBalancedMeaning(op, es[mid..], row);
      TruthsSplit(es, mid, row);
      JoinAllConcat(op, Truths(es[..mid], row), Truths(es[mid..], row));
    }
  }

  /** A chain of up to 2^k expressions nests at most k connectives above the deepest of them. */
  lemma {:induction false} FoldBalancedDepth<V>(op: Junction, es: seq<ArrowExpr<V>>, k: nat, d: nat)
    requires 0 < |es| <= Pow2(k)
    requires forall e :: e in es ==> Depth(e) <= d
    ensures Depth(FoldBalanced(op, es)) <= k + d
    decreases k
  {
    if |es| > 1 {
      var mid := |es| / 2;
      FoldBalancedDepth(op, es[..mid], k - 1, d);
      FoldBalancedDepth(op, es[mid..], k - 1, d);
    }
  }

  /** So an IN list that is pushed down at all nests at most seven connectives. */
  lemma InIsShallow<V>(name: string, values: seq<Option<V>>)
    ensures TransformIn(name, values).Some? <==> |values| <= MAX_PUSHDOWN_IN_VALUES
    ensures TransformIn(name, values).Some? ==> Depth(TransformIn(name, values).value) <= 7
  {
    if 0 < |values| <= MAX_PUSHDOWN_IN_VALUES {
      assert Pow2(7) == 128;
      FoldBalancedDepth(OrKleene, EqualTo(name, values), 7, 0);
    }
  }

  /** An IN filter is pushed down exactly if it asks whether the bare column is one of at most 100 constants. */
  lemma InExpandsExactly<V>(operands: seq<Scalar<V>>, name: string)
    ensures TransformInExpression(operands, name).Some? <==>
            && operands != [] && operands[0].BoundRef?
            && |operands| - 1 <= MAX_PUSHDOWN_IN_VALUES
            && forall i :: 1 <= i < |operands| ==> operands[i].Constant?
  {
    if operands != [] {
      var rest := operands[1..];
      assert (forall i :: 1 <= i < |operands| ==> operands[i].Constant?) <==>
             (forall i :: 0 <= i < |rest| ==> rest[i].Constant?) by {
        assert forall i :: 1 <= i < |operands| ==> operands[i] == rest[i - 1];
      }
      if Constants(rest).Some? {
        InIsShallow(name, Constants(rest).value);
      }
    }
  }

  lemma InMeaning<V>(name: string, values: seq<Option<V>>, row: Row<V>)
    requires TransformIn(name, values).Some?
    ensures ArrowTruth(TransformIn(name, values).value, row) ==
            JoinAll(OrKleene, Equalities(row.columns(name), values, row.lessThan))
  {
    if values != [] {
      FoldBalancedMeaning(OrKleene, EqualTo(name, values), row);
      assert Truths(EqualTo(name, values), row) == Equalities(row.columns(name), values, row.lessThan);
    }
  }

  // ---------------------------------------------------------------- meaning is preserved

  /** Every IS NULL is asked of the bare column: the source translates no other operand faithfully. */
  ghost predicate OperandsAreBare<V>(e: Expr<V>) {
    match e
    case IsNullOf(s) => s.BoundRef?
    case IsNotNullOf(s) => s.BoundRef?
    case Conjunction(_, children) => forall c :: c in children ==> OperandsAreBare(c)
    case OptionalExpr(child) => child.Some? ==> OperandsAreBare(child.value)
    case _ => true
  }

  ghost predicate FilterOperandsAreBare<V>(f: TableFilter<V>) {
    match f
    case ExpressionFilter(e) => OperandsAreBare(e)
    case LegacyConjunction(_, children) => forall c :: c in children ==> FilterOperandsAreBare(c)
    case LegacyOptional(child) => child.Some? ==> FilterOperandsAreBare(child.value)
    case _ => true
  }

  /** A translated expression means exactly the filter whose untranslatable optional parts are TRUE. */
  lemma {:induction false} ExprTranslates<V>(e: Expr<V>, name: string, a: ArrowExpr<V>, row: Row<V>)
    requires OperandsAreBare(e)
    requires TransformExpression(e, name) == Some(a)
    ensures ArrowTruth(a, row) == ExprTruth(e, AsTranslated, row.columns(name), row.lessThan)
    decreases e, 0
  {
    match e
    case Compared(_, _, _) =>
    case Conjunction(j, children) =>
      var exprs := TransformExpressions(children, name).value;
      ExprsTranslate(j, children, name, exprs, row);
      FoldBalancedMeaning(j, exprs, row);
    case OptionalExpr(child) =>
      if child.Some? {
        TranslatesExactly(child.value, name);
        if ExprTranslatable(child.value) {
          ExprTranslates(child.value, name, a, row);
        }
      }
    case IsNullOf(_) =>
    case IsNotNullOf(_) =>
    case InOf(operands) =>
      var values := Constants(operands[1..]).value;
      InMeaning(name, values, row);
      assert values == seq(|operands| - 1, i requires 0 <= i < |operands| - 1 =>
                           ScalarValue(operands[i + 1], row.columns(name)));
    case OtherExpr(_) =>
  }

  lemma {:induction false} ExprsTranslate<V>(j: Junction, es: seq<Expr<V>>, name: string, exprs: seq<ArrowExpr<V>>,
                                             row: Row<V>)
    requires forall e :: e in es ==> OperandsAreBare(e)
    requires TransformExpressions(es, name) == Some(exprs)
    ensures JoinAll(j, Truths(exprs, row)) == ExprsTruth(j, es, AsTranslated, row.columns(name), row.lessThan)
    decreases es, 1
  {
    if es != [] {
      ExprTranslates(es[0], name, exprs[0], row);
      ExprsTranslate(j, es[1..], name, exprs[1..], row);
      assert Truths(exprs, row)[1..] == Truths(exprs[1..], row);
    }
  }

  lemma {:induction false} FilterTranslates<V>(f: TableFilter<V>, name: string, a: ArrowExpr<V>, row: Row<V>)
    requires FilterOperandsAreBare(f)
    requires TransformFilterExpression(f, name) == Some(a)
    ensures ArrowTruth(a, row) == FilterTruth(f, AsTranslated, row.columns(name), row.lessThan)
    decreases f, 0
  {
    match f
    case ExpressionFilter(e) => ExprTranslates(e, name, a, row);
    case ConstantComparison(_, _) =>
    case LegacyIsNull =>
    case LegacyIsNotNull =>
    case LegacyConjunction(j, children) =>
      var exprs := TransformChildFilters(children, name).value;
      FiltersTranslate(j, children, name, exprs, row);
      FoldBalancedMeaning(j, exprs, row);
    case LegacyIn(values) => InMeaning(name, values, row);
    case LegacyOptional(child) =>
      if child.Some? {
        FilterTranslatesExactly(child.value, name);
        if FilterTranslatable(child.value) {
          FilterTranslates(child.value, name, a, row);
        }
      }
    case OtherFilter(_) =>
  }

  lemma {:induction false} FiltersTranslate<V>(j: Junction, fs: seq<TableFilter<V>>, name: string,
                                               exprs: seq<ArrowExpr<V>>, row: Row<V>)
    requires forall f :: f in fs ==> FilterOperandsAreBare(f)
    requires TransformChildFilters(fs, name) == Some(exprs)
    ensures JoinAll(j, Truths(exprs, row)) == FiltersTruth(j, fs, AsTranslated, row.columns(name), row.lessThan)
    decreases fs, 1
  {
    if fs != [] {
      FilterTranslates(fs[0], name, exprs[0], row);
      FiltersTranslate(j, fs[1..], name, exprs[1..], row);
      assert Truths(exprs, row)[1..] == Truths(exprs[1..], row);
    }
  }

  // ---------------------------------------------------------------- optional filters only weaken

  /** Any choice of the optional filters to drop lies between keeping all and dropping all. */
  lemma {:induction false} ExprBetween<V>(e: Expr<V>, how: Reading, column: Option<V>, lt: (V, V) -> bool)
    ensures AtMost(ExprTruth(e, Strict, column, lt), ExprTruth(e, how, column, lt))
    ensures AtMost(ExprTruth(e, how, column, lt), ExprTruth(e, Loose, column, lt))
    decreases e, 0
  {
    match e
    case Conjunction(j, children) => ExprsBetween(j, children, how, column, lt);
    case OptionalExpr(child) =>
      if child.Some? {
        ExprBetween(child.value, how, column, lt);
      }
    case _ =>
  }

  lemma {:induction false} ExprsBetween<V>(j: Junction, es: seq<Expr<V>>, how: Reading, column: Option<V>,
                                           lt: (V, V) -> bool)
    ensures AtMost(ExprsTruth(j, es, Strict, column, lt), ExprsTruth(j, es, how, column, lt))
    ensures AtMost(ExprsTruth(j, es, how, column, lt), ExprsTruth(j, es, Loose, column, lt))
    decreases es, 1
  {
    if es != [] {
      ExprBetween(es[0], how, column, lt);
      ExprsBetween(j, es[1..], how, column, lt);
    }
  }

  lemma {:induction false} FilterBetween<V>(f: TableFilter<V>, how: Reading, column: Option<V>, lt: (V, V) -> bool)
    ensures AtMost(FilterTruth(f, Strict, column, lt), FilterTruth(f, how, column, lt))
    ensures AtMost(FilterTruth(f, how, column, lt), FilterTruth(f, Loose, column, lt))
    decreases f, 0
  {
    match f
    case ExpressionFilter(e) => ExprBetween(e, how, column, lt);
    case LegacyConjunction(j, children) => FiltersBetween(j, children, how, column, lt);
    case LegacyOptional(child) =>
      if child.Some? {
        FilterBetween(child.value, how, column, lt);
      }
    case _ =>
  }

  lemma {:induction false} FiltersBetween<V>(j: Junction, fs: seq<TableFilter<V>>, how: Reading, column: Option<V>,
                                             lt: (V, V) -> bool)
    ensures AtMost(FiltersTruth(j, fs, Strict, column, lt), FiltersTruth(j, fs, how, column, lt))
    ensures AtMost(FiltersTruth(j, fs, how, column, lt), FiltersTruth(j, fs, Loose, column, lt))
    decreases fs, 1
  {
    if fs != [] {
      FilterBetween(fs[0], how, column, lt);
      FiltersBetween(j, fs[1..], how, column, lt);
    }
  }

  /** With optional filters: the pushed expression lies between the strictest and the loosest reading. */
  lemma PushdownWeakensOnly<V>(f: TableFilter<V>, name: string, a: ArrowExpr<V>, row: Row<V>)
    requires FilterOperandsAreBare(f)
    requires TransformFilterExpression(f, name) == Some(a)
    ensures AtMost(FilterTruth(f, Strict, row.columns(name), row.lessThan), ArrowTruth(a, row))
    ensures AtMost(ArrowTruth(a, row), FilterTruth(f, Loose, row.columns(name), row.lessThan))
    // so no row that the strict filter accepts is pruned away
    ensures FilterTruth(f, Strict, row.columns(name), row.lessThan).True? ==> ArrowTruth(a, row).True?
  {
    FilterTranslates(f, name, a, row);
    FilterBetween(f, AsTranslated, row.columns(name), row.lessThan);
  }

  ghost predicate ExprHasOptional<V>(e: Expr<V>) {
    match e
    case OptionalExpr(_) => true
    case Conjunction(_, children) => exists c :: c in children && ExprHasOptional(c)
    case _ => false
  }

  ghost predicate HasOptional<V>(f: TableFilter<V>) {
    match f
    case LegacyOptional(_) => true
    case ExpressionFilter(e) => ExprHasOptional(e)
    case LegacyConjunction(_, children) => exists c :: c in children && HasOptional(c)
    case _ => false
  }

  lemma {:induction false} ExprReadingIrrelevant<V>(e: Expr<V>, how: Reading, column: Option<V>, lt: (V, V) -> bool)
    requires !ExprHasOptional(e)
    ensures ExprTruth(e, how, column, lt) == ExprTruth(e, Strict, column, lt)
    decreases e, 0
  {
    if e.Conjunction? {
      ExprsReadingIrrelevant(e.junction, e.children, how, column, lt);
    }
  }

  lemma {:induction false} ExprsReadingIrrelevant<V>(j: Junction, es: seq<Expr<V>>, how: Reading, column: Option<V>,
                                                     lt: (V, V) -> bool)
    requires forall c :: c in es ==> !ExprHasOptional(c)
    ensures ExprsTruth(j, es, how, column, lt) == ExprsTruth(j, es, Strict, column, lt)
    decreases es, 1
  {
    if es != [] {
      ExprReadingIrrelevant(es[0], how, column, lt);
      ExprsReadingIrrelevant(j, es[1..], how, column, lt);
    }
  }

  lemma {:induction false} ReadingIrrelevant<V>(f: TableFilter<V>, how: Reading, column: Option<V>, lt: (V, V) -> bool)
    requires !HasOptional(f)
    ensures FilterTruth(f, how, column, lt) == FilterTruth(f, Strict, column, lt)
    decreases f, 0
  {
    match f
    case ExpressionFilter(e) => ExprReadingIrrelevant(e, how, column, lt);
    case LegacyConjunction(j, children) => AllReadingIrrelevant(j, children, how, column, lt);
    case _ =>
  }

  lemma {:induction false} AllReadingIrrelevant<V>(j: Junction, fs: seq<TableFilter<V>>, how: Reading,
                                                   column: Option<V>, lt: (V, V) -> bool)
    requires forall c :: c in fs ==> !HasOptional(c)
    ensures FiltersTruth(j, fs, how, column, lt) == FiltersTruth(j, fs, Strict, column, lt)
    decreases fs, 1
  {
    if fs != [] {
      ReadingIrrelevant(fs[0], how, column, lt);
      AllReadingIrrelevant(j, fs[1..], how, column, lt);
    }
  }

  /** Without optional filters: the pushed expression has the filter's own truth value on every row. */
  lemma PushdownPreservesMeaning<V>(f: TableFilter<V>, name: string, a: ArrowExpr<V>, row: Row<V>)
    requires FilterOperandsAreBare(f) && !HasOptional(f)
    requires TransformFilterExpression(f, name) == Some(a)
    ensures ArrowTruth(a, row) == FilterTruth(f, Strict, row.columns(name), row.lessThan)
  {
    FilterTranslates(f, name, a, row);
    ReadingIrrelevant(f, AsTranslated, row.columns(name), row.lessThan);
  }

  /** The operand is NULL exactly where the column is, whatever the column holds. */
  ghost predicate PassesNulls<V(!new)>(s: Scalar<V>) {
    match s
    case BoundRef => true
    case Constant(_) => false
    case Computed(fn) => fn(None).None? && forall v :: fn(Some(v)).Some?
  }

  /** An expression that is pushed down has the value of the filter on every row. */
  ghost predicate KeepsMeaning<V(!new)>(e: Expr<V>, name: string) {
    var pushed := TransformExpression(e, name);
    pushed.Some? && forall row: Row<V> ::
      ArrowTruth(pushed.value, row) == ExprTruth(e, Strict, row.columns(name), row.lessThan)
  }

  lemma IsNullOn<V>(s: Scalar<V>, name: string, row: Row<V>)
    ensures ArrowTruth(TransformExpression(IsNullOf(s), name).value, row) == OfBool(row.columns(name).None?)
    ensures ArrowTruth(TransformExpression(IsNotNullOf(s), name).value, row) == OfBool(row.columns(name).Some?)
  {
    assert ArrowTruth(IsNull(FieldRef(name)), row) == OfBool(row.columns(name).None?);
  }

  /** A translation that keeps the meaning does so where the column is NULL and where it holds a value. */
  lemma KeptOn<V(!new)>(s: Scalar<V>, name: string, column: Option<V>)
    requires KeepsMeaning(IsNullOf(s), name) || KeepsMeaning(IsNotNullOf(s), name)
    ensures ScalarValue(s, column).None? <==> column.None?
  {
    var row := Row((a: V, b: V) => false, (_: string) => column);
    assert row.columns(name) == column;
    IsNullOn(s, name, row);
  }

  /**
   The source never looks at the operand of IS NULL.  Its translation is right on all rows exactly when the
   operand passes NULLs through: always for the bare column, never for a constant.
  */
  lemma IsNullFaithful<V(!new)>(s: Scalar<V>, name: string, inhabitant: V)
    ensures KeepsMeaning(IsNullOf(s), name) <==> PassesNulls(s)
    ensures KeepsMeaning(IsNotNullOf(s), name) <==> PassesNulls(s)
  {
    if PassesNulls(s) {
      forall row: Row<V>
        ensures ScalarValue(s, row.columns(name)).None? <==> row.columns(name).None?
      {
        if row.columns(name).None? {
          assert row.columns(name) == None;
        } else {
          assert row.columns(name) == Some(row.columns(name).value);
        }
      }
      forall row: Row<V>
        ensures ArrowTruth(TransformExpression(IsNullOf(s), name).value, row)
                == ExprTruth(IsNullOf(s), Strict, row.columns(name), row.lessThan)
        ensures ArrowTruth(TransformExpression(IsNotNullOf(s), name).value, row)
                == ExprTruth(IsNotNullOf(s), Strict, row.columns(name), row.lessThan)
      {
        IsNullOn(s, name, row);
      }
    }
    if KeepsMeaning(IsNullOf(s), name) || KeepsMeaning(IsNotNullOf(s), name) {
      KeptOn(s, name, None);
      KeptOn(s, name, Some(inhabitant));
      forall v: V
        ensures ScalarValue(s, Some(v)).Some?
      {
        KeptOn(s, name, Some(v));
      }
      if s.Computed? {
        forall v: V
          ensures s.fn(Some(v)).Some?
        {
          assert ScalarValue(s, Some(v)).Some?;
        }
      }
    }
  }

  lemma IsNullOfConstantFails()
    ensures var row := Row((a: int, b: int) => a < b, (name: string) => Some(7));
            var e: Expr<int> := IsNullOf(Constant(None));
            && TransformExpression(e, "x") == Some(IsNull(FieldRef("x")))
            && ArrowTruth(TransformExpression(e, "x").value, row) == False
            && ExprTruth(e, Strict, row.columns("x"), row.lessThan) == True
  {
    var row := Row((a: int, b: int) => a < b, (name: string) => Some(7));
    assert row.columns("x") == Some(7);
  }

  // ---------------------------------------------------------------- several columns

  lemma {:induction false} FilterSetAppend<V>(filters: seq<(string, TableFilter<V>)>, last: (string, TableFilter<V>),
                                                how: Reading, row: Row<V>)
    ensures FilterSetTruth(filters + [last], how, row) ==
            And(FilterSetTruth(filters, how, row),
                FilterTruth(last.1, how, row.columns(last.0), row.lessThan))
  {
    if filters != [] {
      FilterSetAppend(filters[1..], last, how, row);
      assert (filters + [last])[1..] == filters[1..] + [last];
    }
  }

  lemma {:induction false} FilterSetBetween<V>(filters: seq<(string, TableFilter<V>)>, row: Row<V>)
    ensures AtMost(FilterSetTruth(filters, Strict, row),
                   FilterSetTruth(filters, AsTranslated, row))
    ensures AtMost(FilterSetTruth(filters, AsTranslated, row),
                   FilterSetTruth(filters, Loose, row))
  {
    if filters != [] {
      var (name, f) := filters[0];
      FilterBetween(f, AsTranslated, row.columns(name), row.lessThan);
      FilterSetBetween(filters[1..], row);
    }
  }
}
