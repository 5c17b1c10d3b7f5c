/**
 Column writers as the tree of objects they are (MarkRepetitionRequired and DecrementMaxDefineRecursive in
 src/duckdb/extension/parquet/column_writer.cpp), tied to the functions of ParquetLevels.
*/
module ParquetColumnWriter {
  import Spec = ParquetLevels
  import opened ParquetLevels

  class ColumnWriter {
    const name: string
    const kind: Kind
    const maxRepeat: nat
    const childWriters: seq<ColumnWriter>
    var repetition: Repetition
    var maxDefine: nat
    var canHaveNulls: bool

    /** The objects of this tree, and its height. */
    ghost const Repr: set<ColumnWriter>
    ghost const height: nat

    /** The children are trees of their own, apart from this node and from each other. */
    ghost predicate IsTree()
      decreases height
    {
      && this in Repr
      && (forall i :: 0 <= i < |childWriters| ==>
            && childWriters[i].height < height
            && this !in childWriters[i].Repr && childWriters[i].Repr <= Repr
            && childWriters[i].IsTree())
      && (forall i, j :: 0 <= i < j < |childWriters| ==> childWriters[i].Repr !! childWriters[j].Repr)
    }

    ghost function View(): Writer
      requires IsTree()
      reads Repr
      decreases height, 1, 0
    {
      Writer(name, kind, repetition, maxDefine, maxRepeat, canHaveNulls, ChildViews(0))
    }

    ghost function ChildViews(from: nat): Writers
      requires IsTree() && from <= |childWriters|
      reads Repr
      decreases height, 0, |childWriters| - from
    {
      if from == |childWriters| then NoWriters else More(childWriters[from].View(), ChildViews(from + 1))
    }

    constructor (name: string, kind: Kind, repetition: Repetition, maxDefine: nat, maxRepeat: nat,
                 childWriters: seq<ColumnWriter>)
      requires forall i :: 0 <= i < |childWriters| ==> childWriters[i].IsTree()
      requires forall i, j :: 0 <= i < j < |childWriters| ==> childWriters[i].Repr !! childWriters[j].Repr
      ensures IsTree() && this.childWriters == childWriters
      ensures this.repetition == repetition && this.maxDefine == maxDefine && this.maxRepeat == maxRepeat
      ensures canHaveNulls == repetition.OPTIONAL? && this.kind == kind && this.name == name
    {
      this.name, this.kind, this.maxRepeat, this.childWriters := name, kind, maxRepeat, childWriters;
      this.repetition, this.maxDefine := repetition, maxDefine;
      canHaveNulls := repetition == OPTIONAL;
      Repr := {this} + Objects(childWriters);
      height := 1 + Tallest(childWriters);
      new;
      BelowTallest(childWriters);
    }

    /** What the children look like, as a sequence. */
    ghost function Views(): (views: seq<Writer>)
      requires IsTree()
      reads Repr
      decreases height, 0
    {
      seq(|childWriters|, i requires 0 <= i < |childWriters| reads Repr => childWriters[i].View())
    }

    lemma ViewsAreChildViews(from: nat)
      requires IsTree() && from <= |childWriters|
      ensures ChildViews(from) == FromSeq(Views(), from)
      decreases |childWriters| - from
    {
      if from < |childWriters| {
        ViewsAreChildViews(from + 1);
      }
    }

    /** One OPTIONAL node above has become REQUIRED. */
    method DecrementMaxDefineRecursive(ghost optional: nat, ghost repeated: nat)
      requires IsTree() && optional > 0 && WriterOk(View(), optional, repeated)
      modifies Repr
      ensures View() == Decrement(old(View()), optional, repeated)
      decreases height, 1
    {
      ghost var (o, r, inMap) := ChildContext(View());
      ghost var views := Views();
      ViewsAreChildViews(0);
      MembersOk(views, 0, o, r, inMap);
      maxDefine := maxDefine - 1;
      DecrementChildren(o, r, views);
      ViewsAreChildViews(0);
      DecrementMembers(views, Views(), 0, o, r, inMap);
    }

    method DecrementChildren(ghost optional: nat, ghost repeated: nat, ghost views: seq<Writer>)
      requires IsTree() && optional > 0 && Views() == views
      requires forall k :: 0 <= k < |views| ==> WriterOk(views[k], optional, repeated)
      modifies Repr - {this}
      ensures |Views()| == |views|
      ensures forall k :: 0 <= k < |views| ==> Views()[k] == Decrement(views[k], optional, repeated)
      decreases height, 0
    {
      for i := 0 to |childWriters|
        invariant forall k :: 0 <= k < i ==> childWriters[k].View() == Decrement(views[k], optional, repeated)
        invariant forall k :: i <= k < |childWriters| ==> childWriters[k].View() == views[k]
      {
        assert childWriters[i].View() == views[i];
        childWriters[i].DecrementMaxDefineRecursive(optional, repeated);
      }
    }

    /** Marks the writer REQUIRED; the levels of everything below it follow. */
    method MarkRepetitionRequired(ghost optional: nat, ghost repeated: nat)
      requires IsTree() && WriterOk(View(), optional, repeated) && repetition != REPEATED
      modifies Repr
      ensures View() == MarkRequired(old(View()), optional, repeated)
    {
      if repetition == REQUIRED {
        return;
      }
      ghost var views := Views();
      ViewsAreChildViews(0);
      repetition := REQUIRED;
      canHaveNulls := false;
      assert Views() == views;
      ViewsAreChildViews(0);
      DecrementMaxDefineRecursive(optional + 1, repeated);
    }

    // -------------------------------------------------------------- shredded groups

    /** The first child of a name; past the last if there is none. */
    method FindChildWriterByName(name: string) returns (index: nat)
      ensures index <= |childWriters| && forall k :: 0 <= k < index ==> childWriters[k].name != name
      ensures index < |childWriters| ==> childWriters[index].name == name
    {
      index := 0;
      while index < |childWriters| && childWriters[index].name != name
        invariant index <= |childWriters| && forall k :: 0 <= k < index ==> childWriters[k].name != name
      {
        index := index + 1;
      }
    }

    /** A field or an element of a typed value is REQUIRED from now on, like all groups below it. */
    method MarkShreddedGroupRequired(ghost optional: nat, ghost repeated: nat)
      requires IsTree() && WriterOk(View(), optional, repeated) && repetition != REPEATED
      modifies Repr
      ensures View() == MarkGroup(old(View()), optional, repeated)
      decreases height, 2
    {
      MarkRepetitionRequired(optional, repeated);
      if kind.StructWriter? || kind.VariantWriter? {
        MarkNestedTypedValue(optional, repeated);
      }
    }

    /** Marks the groups below the first child that is a typed value, if there is one. */
    method MarkNestedTypedValue(ghost optional: nat, ghost repeated: nat)
      requires IsTree() && WriterOk(View(), optional, repeated) && (kind.StructWriter? || kind.VariantWriter?)
      modifies Repr - {this}
      ensures View() == old(View()).(children := MarkNamed(old(View()).children, maxDefine, maxRepeat))
      decreases height, 1
    {
      ghost var views := Views();
      ViewsAreChildViews(0);
      MembersOk(views, 0, maxDefine, maxRepeat, false);
      var i := FindChildWriterByName(TYPED_VALUE);
      if i < |childWriters| {
        assert childWriters[i].View() == views[i];
        childWriters[i].MarkTypedValueShreddingGroupsRequired(maxDefine, maxRepeat);
        assert Views() == views[i := MarkTyped(views[i], maxDefine, maxRepeat)];
      } else {
        assert Views() == views;
      }
      ViewsAreChildViews(0);
      MarkNamedAt(views, Views(), 0, i, maxDefine, maxRepeat);
    }

    /** Marks the groups of a typed value: the fields of an object, or the element of an array. */
    method MarkTypedValueShreddingGroupsRequired(ghost optional: nat, ghost repeated: nat)
      requires IsTree() && WriterOk(View(), optional, repeated)
      modifies Repr - {this}
      ensures View() == MarkTyped(old(View()), optional, repeated)
      decreases height, 1
    {
      if !kind.StructWriter? && !kind.ListWriter? {
        return;
      }
      ghost var (o, r, inMap) := ChildContext(View());
      ghost var views := Views();
      ViewsAreChildViews(0);
      MembersOk(views, 0, o, r, false);
      MarkGroupsOfChildren(o, r, views);
      ViewsAreChildViews(0);
      MarkMembers(views, Views(), 0, o, r);
    }

    method MarkGroupsOfChildren(ghost optional: nat, ghost repeated: nat, ghost views: seq<Writer>)
      requires IsTree() && Views() == views
      requires forall k :: 0 <= k < |views| ==> WriterOk(views[k], optional, repeated) && !views[k].repetition.REPEATED?
      modifies Repr - {this}
      ensures |Views()| == |views|
      ensures forall k :: 0 <= k < |views| ==> Views()[k] == MarkGroup(views[k], optional, repeated)
      decreases height, 0
    {
      for i := 0 to |childWriters|
        invariant forall k :: 0 <= k < i ==> childWriters[k].View() == MarkGroup(views[k], optional, repeated)
        invariant forall k :: i <= k < |childWriters| ==> childWriters[k].View() == views[k]
      {
        assert childWriters[i].View() == views[i];
        childWriters[i].MarkShreddedGroupRequired(optional, repeated);
      }
    }

    /** What happens to the writers before the schema is written: every VARIANT marks its groups. */
    method FinalizeSchema(ghost optional: nat, ghost repeated: nat)
      requires IsTree() && WriterOk(View(), optional, repeated)
      modifies Repr - {this}
      ensures View() == Finalize(old(View()), optional, repeated)
      decreases height, 1
    {
      if kind.VariantWriter? {
        MarkNestedTypedValue(optional, repeated);
      }
      ghost var (o, r, inMap) := ChildContext(View());
      ghost var views := Views();
      ViewsAreChildViews(0);
      MembersOk(views, 0, o, r, inMap);
      FinalizeChildren(o, r, views);
      ViewsAreChildViews(0);
      FinalizeMembers(views, Views(), 0, o, r, inMap);
    }

    method FinalizeChildren(ghost optional: nat, ghost repeated: nat, ghost views: seq<Writer>)
      requires IsTree() && Views() == views
      requires forall k :: 0 <= k < |views| ==> WriterOk(views[k], optional, repeated)
      modifies Repr - {this}
      ensures |Views()| == |views|
      ensures forall k :: 0 <= k < |views| ==> Views()[k] == Finalize(views[k], optional, repeated)
      decreases height, 0
    {
      for i := 0 to |childWriters|
        invariant forall k :: 0 <= k < i ==> childWriters[k].View() == Finalize(views[k], optional, repeated)
        invariant forall k :: i <= k < |childWriters| ==> childWriters[k].View() == views[k]
      {
        assert childWriters[i].View() == views[i];
        childWriters[i].FinalizeSchema(optional, repeated);
      }
    }
  }

  /**
   Where the children of a writer stand: the OPTIONAL and REPEATED nodes above them, and whether they are in a
   map.
  */
  ghost function ChildContext(w: Writer): (nat, nat, bool) {
    if w.kind.ListWriter? then (w.maxDefine + 1, w.maxRepeat + 1, false)
    else (w.maxDefine, w.maxRepeat, w.kind.MapWriter?)
  }

  ghost function FromSeq(views: seq<Writer>, from: nat): Writers
    requires from <= |views|
    decreases |views| - from
  {
    if from == |views| then NoWriters else More(views[from], FromSeq(views, from + 1))
  }

  lemma {:induction false} MembersOk(views: seq<Writer>, from: nat, optional: nat, repeated: nat, inMap: bool)
    requires from <= |views| && WritersOk(FromSeq(views, from), optional, repeated, inMap)
    ensures forall k :: from <= k < |views| ==>
              WriterOk(views[k], optional, repeated) && views[k].repetition.REPEATED? == inMap
    decreases |views| - from
  {
    if from < |views| {
      MembersOk(views, from + 1, optional, repeated, inMap);
    }
  }

  lemma {:induction false} DecrementMembers(views: seq<Writer>, after: seq<Writer>, from: nat,
                                            optional: nat, repeated: nat, inMap: bool)
    requires from <= |views| == |after| && optional > 0
    requires WritersOk(FromSeq(views, from), optional, repeated, inMap)
    requires forall k :: 0 <= k < |views| ==> WriterOk(views[k], optional, repeated)
    requires forall k :: 0 <= k < |views| ==> after[k] == Decrement(views[k], optional, repeated)
    ensures FromSeq(after, from) == DecrementAll(FromSeq(views, from), optional, repeated, inMap)
    decreases |views| - from
  {
    if from < |views| {
      DecrementMembers(views, after, from + 1, optional, repeated, inMap);
    }
  }

  lemma {:induction false} MarkMembers(views: seq<Writer>, after: seq<Writer>, from: nat, optional: nat, repeated: nat)
    requires from <= |views| == |after| && WritersOk(FromSeq(views, from), optional, repeated, false)
    requires forall k :: 0 <= k < |views| ==> WriterOk(views[k], optional, repeated) && !views[k].repetition.REPEATED?
    requires forall k :: 0 <= k < |views| ==> after[k] == MarkGroup(views[k], optional, repeated)
    ensures FromSeq(after, from) == MarkGroups(FromSeq(views, from), optional, repeated)
    decreases |views| - from
  {
    if from < |views| {
      MarkMembers(views, after, from + 1, optional, repeated);
    }
  }

  lemma {:induction false} FinalizeMembers(views: seq<Writer>, after: seq<Writer>, from: nat,
                                           optional: nat, repeated: nat, inMap: bool)
    requires from <= |views| == |after| && WritersOk(FromSeq(views, from), optional, repeated, inMap)
    requires forall k :: 0 <= k < |views| ==> WriterOk(views[k], optional, repeated)
    requires forall k :: 0 <= k < |views| ==> after[k] == Finalize(views[k], optional, repeated)
    ensures FromSeq(after, from) == FinalizeAll(FromSeq(views, from), optional, repeated, inMap)
    decreases |views| - from
  {
    if from < |views| {
      FinalizeMembers(views, after, from + 1, optional, repeated, inMap);
    }
  }

  lemma {:induction false} SameTail(views: seq<Writer>, after: seq<Writer>, from: nat)
    requires from <= |views| == |after| && forall k :: from <= k < |views| ==> after[k] == views[k]
    ensures FromSeq(after, from) == FromSeq(views, from)
    decreases |views| - from
  {
    if from < |views| {
      SameTail(views, after, from + 1);
    }
  }

  /** Marking the child at index i, the first that is a typed value, or none. */
  lemma {:induction false} MarkNamedAt(views: seq<Writer>, after: seq<Writer>, from: nat, i: nat,
                                       optional: nat, repeated: nat)
    requires from <= i <= |views| && WritersOk(FromSeq(views, from), optional, repeated, false)
    requires forall k :: 0 <= k < i ==> views[k].name != TYPED_VALUE
    requires i < |views| ==> views[i].name == TYPED_VALUE && WriterOk(views[i], optional, repeated)
    requires after == if i < |views| then views[i := MarkTyped(views[i], optional, repeated)] else views
    ensures FromSeq(after, from) == MarkNamed(FromSeq(views, from), optional, repeated)
    decreases |views| - from
  {
    if from < i {
      MarkNamedAt(views, after, from + 1, i, optional, repeated);
    } else if i < |views| {
      SameTail(views, after, i + 1);
    }
  }

  ghost function Objects(ws: seq<ColumnWriter>): set<ColumnWriter> {
    set i, w | 0 <= i < |ws| && w in ws[i].Repr :: w
  }

  ghost function Tallest(ws: seq<ColumnWriter>): nat {
    if ws == [] then 0
    else
      var front := Tallest(ws[..|ws| - 1]);
      if front < ws[|ws| - 1].height then ws[|ws| - 1].height else front
  }

  lemma {:induction false} BelowTallest(ws: seq<ColumnWriter>)
    ensures forall i :: 0 <= i < |ws| ==> ws[i].height <= Tallest(ws)
  {
    if ws != [] {
      BelowTallest(ws[..|ws| - 1]);
      assert forall i :: 0 <= i < |ws| - 1 ==> ws[..|ws| - 1][i] == ws[i];
    }
  }
}
