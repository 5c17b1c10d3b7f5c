/**
 The definition and repetition levels of Parquet column writers (CreateWriterRecursive and
 MarkRepetitionRequired in src/duckdb/extension/parquet/column_writer.cpp, and the FinalizeSchema of each
 writer): the largest level of a column is the number of OPTIONAL or REPEATED, and of REPEATED, nodes on its
 path in the schema ("Nested Encoding" of the Apache Parquet format specification).
*/
module ParquetLevels {
  import opened Wrappers

  // ---------------------------------------------------------------- types

  /** `Null` is the type of an untyped NULL; a VARIANT may come with the type it is shredded into. */
  datatype Type =
    | Leaf
    | Null
    | Struct(fields: Fields)
    | List(element: Type)
    | Array(element: Type)
    | Map(key: Type, value: Type)
    | Variant(shredding: Option<Type>)

  datatype Fields = NoFields | Field(name: string, fieldType: Type, rest: Fields)

  /** A bound on how deep the writers of a type nest: the groups of a shredded type nest deeper than the type. */
  function Weight(type_: Type): (weight: nat)
    ensures weight > 0
    decreases type_
  {
    match type_
    case Leaf => 1
    case Null => 1
    case Struct(fields) => 1 + FieldsWeight(fields)
    case List(element) => 1 + Weight(element)
    case Array(element) => 1 + Weight(element)
    case Map(key, value) => 2 + Weight(key) + Weight(value)
    case Variant(shredding) => if shredding.Some? then 10 + 10 * Weight(shredding.value) else 10
  }

  function FieldsWeight(fields: Fields): nat
    decreases fields
  {
    if fields.NoFields? then 0 else 1 + Weight(fields.fieldType) + FieldsWeight(fields.rest)
  }

  const VALUE := "value"
  const TYPED_VALUE := "typed_value"

  lemma {:induction false} PairWeight(typed: Type)
    ensures Weight(Struct(Field(VALUE, Leaf, Field(TYPED_VALUE, typed, NoFields)))) == 4 + Weight(typed)
  {
    var second := Field(TYPED_VALUE, typed, NoFields);
    assert FieldsWeight(second) == 1 + Weight(typed) + FieldsWeight(NoFields);
    assert FieldsWeight(Field(VALUE, Leaf, second)) == 1 + Weight(Leaf) + FieldsWeight(second);
  }

  /** A shredded value: what could not be shredded, and a typed value unless the type is open. */
  function Group(type_: Type): (r: Option<Type>)
    ensures r.Some? ==> Weight(r.value) <= 4 + 5 * Weight(type_)
    decreases type_, 1
  {
    if type_.Variant? || type_.Null? then Some(Struct(Field(VALUE, Leaf, NoFields)))
    else
      var typed := TypedValue(type_);
      if typed.None? then None
      else
        PairWeight(typed.value);
        Some(Struct(Field(VALUE, Leaf, Field(TYPED_VALUE, typed.value, NoFields))))
  }

  function Groups(fields: Fields): (r: Option<Fields>)
    ensures r.Some? ==> FieldsWeight(r.value) <= 5 * FieldsWeight(fields)
    decreases fields, 1
  {
    if fields.NoFields? then Some(NoFields)
    else
      var (group, rest) := (Group(fields.fieldType), Groups(fields.rest));
      if group.None? || rest.None? then None else Some(Field(fields.name, group.value, rest.value))
  }

  /** The type that holds shredded values; some types cannot be shredded into. */
  function TypedValue(type_: Type): (r: Option<Type>)
    ensures r.Some? ==> Weight(r.value) <= 5 * Weight(type_)
    decreases type_, 0
  {
    match type_
    case Struct(fields) => var groups := Groups(fields); if groups.None? then None else Some(Struct(groups.value))
    case List(element) => var group := Group(element); if group.None? then None else Some(List(group.value))
    case Leaf => Some(Leaf)
    case Null => Some(Null)
    case _ => None
  }

  // ---------------------------------------------------------------- writers

  datatype Repetition = REQUIRED | OPTIONAL | REPEATED

  datatype Kind = LeafWriter | StructWriter | VariantWriter | ListWriter | MapWriter

  datatype Writer = Writer(
    name: string,
    kind: Kind,
    repetition: Repetition,
    maxDefine: nat,
    maxRepeat: nat,
    canHaveNulls: bool,
    children: Writers)

  datatype Writers = NoWriters | More(head: Writer, tail: Writers)

  function NewWriter(name: string, kind: Kind, repetition: Repetition, maxDefine: nat, maxRepeat: nat,
                     children: Writers): Writer {
    Writer(name, kind, repetition, maxDefine, maxRepeat, repetition == OPTIONAL, children)
  }

  function NullType(canHaveNulls: bool): Repetition {
    if canHaveNulls then OPTIONAL else REQUIRED
  }

  function One(writer: Writer): Writers {
    More(writer, NoWriters)
  }

  /** The writers of a type; none if the type cannot be written.  `maxDefine` counts the new node as OPTIONAL. */
  function CreateWriter(type_: Type, name: string, maxRepeat: nat, maxDefine: nat, canHaveNulls: bool)
    : (r: Option<Writer>)
    requires maxDefine > 0
    decreases Weight(type_)
  {
    var define := if canHaveNulls then maxDefine else maxDefine - 1;
    var repetition := NullType(canHaveNulls);
    match type_
    case Leaf => Some(NewWriter(name, LeafWriter, repetition, define, maxRepeat, NoWriters))
    case Null => Some(NewWriter(name, LeafWriter, repetition, define, maxRepeat, NoWriters))
    case Variant(shredding) =>
      var children := VariantChildren(shredding, maxRepeat, define + 1);
      if children.None? then None
      else Some(NewWriter(name, VariantWriter, repetition, define, maxRepeat, children.value))
    case Struct(fields) =>
      var children := CreateFields(fields, maxRepeat, define + 1);
      if fields.NoFields? || children.None? then None
      else Some(NewWriter(name, StructWriter, repetition, define, maxRepeat, children.value))
    case List(element) =>
      var child := CreateWriter(element, "element", maxRepeat + 1, define + 2, true);
      if child.None? then None
      else Some(NewWriter(name, ListWriter, repetition, define, maxRepeat, One(child.value)))
    case Array(element) =>
      var child := CreateWriter(element, "element", maxRepeat + 1, define + 2, true);
      if child.None? then None
      else Some(NewWriter(name, ListWriter, repetition, define, maxRepeat, One(child.value)))
    case Map(key, value) =>
      var keyWriter := CreateWriter(key, "key", maxRepeat + 1, define + 2, false);
      var valueWriter := CreateWriter(value, "value", maxRepeat + 1, define + 2, true);
      if keyWriter.None? || valueWriter.None? then None
      else
        var children := More(keyWriter.value, One(valueWriter.value));
        var keyValue := NewWriter("key_value", StructWriter, REPEATED, define + 1, maxRepeat + 1, children);
        Some(NewWriter(name, MapWriter, repetition, define, maxRepeat, One(keyValue)))
  }

  function CreateFields(fields: Fields, maxRepeat: nat, maxDefine: nat): (r: Option<Writers>)
    requires maxDefine > 0
    decreases FieldsWeight(fields)
  {
    if fields.NoFields? then Some(NoWriters)
    else
      var head := CreateWriter(fields.fieldType, fields.name, maxRepeat, maxDefine, true);
      var tail := CreateFields(fields.rest, maxRepeat, maxDefine);
      if head.None? || tail.None? then None else Some(More(head.value, tail.value))
  }

  /** A leaf that no type error can prevent. */
  function LeafOf(name: string, maxRepeat: nat, maxDefine: nat, canHaveNulls: bool): Writer
    requires maxDefine > 0
  {
    var define := if canHaveNulls then maxDefine else maxDefine - 1;
    NewWriter(name, LeafWriter, NullType(canHaveNulls), define, maxRepeat, NoWriters)
  }

  /** No shredding is asked for, or one into NULLs, or one into VARIANT itself. */
  predicate IsUnshredded(shredding: Option<Type>) {
    shredding.None? || shredding.value.Null? || shredding.value.Variant?
  }

  function VariantChildren(shredding: Option<Type>, maxRepeat: nat, maxDefine: nat): (r: Option<Writers>)
    requires maxDefine > 0
    decreases if shredding.Some? then 6 * Weight(shredding.value) else 0
  {
    var metadata := LeafOf("metadata", maxRepeat, maxDefine, false);
    if IsUnshredded(shredding) then
      Some(More(metadata, One(LeafOf(VALUE, maxRepeat, maxDefine, false))))
    else
      var typed := TypedValue(shredding.value);
      if typed.None? then None
      else
        var typedWriter := CreateWriter(typed.value, TYPED_VALUE, maxRepeat, maxDefine, true);
        if typedWriter.None? then None
        else Some(More(metadata, More(LeafOf(VALUE, maxRepeat, maxDefine, true), One(typedWriter.value))))
  }

  // ---------------------------------------------------------------- the schema

  datatype Schema = Node(name: string, repetition: Repetition, children: Schemas)

  datatype Schemas = NoSchemas | Schemas(head: Schema, tail: Schemas)

  /** What FinalizeSchema writes: a list has a REPEATED node below its own, a map has its key_value there. */
  function SchemaOf(w: Writer): Schema
    decreases w
  {
    if w.kind.ListWriter? then
      Node(w.name, w.repetition, Schemas(Node("list", REPEATED, SchemasOf(w.children)), NoSchemas))
    else Node(w.name, w.repetition, SchemasOf(w.children))
  }

  function SchemasOf(ws: Writers): Schemas
    decreases ws
  {
    if ws.NoWriters? then NoSchemas else Schemas(SchemaOf(ws.head), SchemasOf(ws.tail))
  }

  function Optional(repetition: Repetition): nat {
    if repetition.REQUIRED? then 0 else 1
  }

  function Repeated(repetition: Repetition): nat {
    if repetition.REPEATED? then 1 else 0
  }

  /** For every column, how many nodes on its path are not REQUIRED, and how many are REPEATED. */
  function PathLevels(schema: Schema, optional: nat, repeated: nat): seq<(nat, nat)>
    decreases schema
  {
    var (o, r) := (optional + Optional(schema.repetition), repeated + Repeated(schema.repetition));
    if schema.children.NoSchemas? then [(o, r)] else PathsLevels(schema.children, o, r)
  }

  function PathsLevels(schemas: Schemas, optional: nat, repeated: nat): seq<(nat, nat)>
    decreases schemas
  {
    if schemas.NoSchemas? then []
    else PathLevels(schemas.head, optional, repeated) + PathsLevels(schemas.tail, optional, repeated)
  }

  /** The largest levels that the writer of every column knows. */
  function ColumnLevels(w: Writer): seq<(nat, nat)>
    decreases w
  {
    if w.kind.LeafWriter? then [(w.maxDefine, w.maxRepeat)] else ColumnsLevels(w.children)
  }

  function ColumnsLevels(ws: Writers): seq<(nat, nat)>
    decreases ws
  {
    if ws.NoWriters? then [] else ColumnLevels(ws.head) + ColumnsLevels(ws.tail)
  }

  // ---------------------------------------------------------------- the levels of every writer

  predicate ShapeOk(w: Writer) {
    match w.kind
    case LeafWriter => w.children.NoWriters?
    case StructWriter => w.children.More?
    case VariantWriter => w.children.More?
    case ListWriter => w.children.More? && w.children.tail.NoWriters?
    case MapWriter =>
      w.children.More? && w.children.tail.NoWriters?
      && w.children.head.kind.StructWriter? && w.children.head.repetition.REPEATED?
  }

  /** Below so many OPTIONAL or REPEATED nodes, the writer and those below it know their levels. */
  predicate WriterOk(w: Writer, optional: nat, repeated: nat)
    decreases w
  {
    && ShapeOk(w)
    && w.canHaveNulls == w.repetition.OPTIONAL?
    && w.maxDefine == optional + Optional(w.repetition)
    && w.maxRepeat == repeated + Repeated(w.repetition)
    && if w.kind.ListWriter? then WritersOk(w.children, w.maxDefine + 1, w.maxRepeat + 1, false)
       else WritersOk(w.children, w.maxDefine, w.maxRepeat, w.kind.MapWriter?)
  }

  /** Only the key_value of a map is REPEATED. */
  predicate WritersOk(ws: Writers, optional: nat, repeated: nat, inMap: bool)
    decreases ws
  {
    ws.More? ==>
      && ws.head.repetition.REPEATED? == inMap
      && WriterOk(ws.head, optional, repeated)
      && WritersOk(ws.tail, optional, repeated, inMap)
  }

  lemma OneOk(w: Writer, optional: nat, repeated: nat)
    requires WriterOk(w, optional, repeated)
    ensures WritersOk(One(w), optional, repeated, w.repetition.REPEATED?)
  {
    assert WritersOk(NoWriters, optional, repeated, w.repetition.REPEATED?);
  }

  lemma MoreOk(w: Writer, ws: Writers, optional: nat, repeated: nat)
    requires WriterOk(w, optional, repeated) && !w.repetition.REPEATED? && WritersOk(ws, optional, repeated, false)
    ensures WritersOk(More(w, ws), optional, repeated, false)
  {
  }

  lemma LeafOk(name: string, maxRepeat: nat, maxDefine: nat, canHaveNulls: bool)
    requires maxDefine > 0
    ensures WriterOk(LeafOf(name, maxRepeat, maxDefine, canHaveNulls), maxDefine - 1, maxRepeat)
  {
  }

  /** A map: its key_value is REPEATED, and so counts for the key and the value. */
  lemma MapOk(name: string, repetition: Repetition, optional: nat, repeated: nat, key: Writer, value: Writer)
    requires !repetition.REPEATED? && !key.repetition.REPEATED? && !value.repetition.REPEATED?
    requires WriterOk(key, optional + Optional(repetition) + 1, repeated + 1)
    requires WriterOk(value, optional + Optional(repetition) + 1, repeated + 1)
    ensures var define := optional + Optional(repetition);
            var keyValue := NewWriter("key_value", StructWriter, REPEATED, define + 1, repeated + 1,
                                      More(key, One(value)));
            WriterOk(NewWriter(name, MapWriter, repetition, define, repeated, One(keyValue)), optional, repeated)
  {
    var define := optional + Optional(repetition);
    OneOk(value, define + 1, repeated + 1);
    MoreOk(key, One(value), define + 1, repeated + 1);
    var keyValue := NewWriter("key_value", StructWriter, REPEATED, define + 1, repeated + 1, More(key, One(value)));
    assert WriterOk(keyValue, define, repeated);
    OneOk(keyValue, define, repeated);
  }

  /** A writer over children that know their levels below it. */
  lemma GroupOk(kind: Kind, name: string, repetition: Repetition, optional: nat, repeated: nat, children: Writers)
    requires kind.StructWriter? || kind.VariantWriter? || kind.ListWriter?
    requires !repetition.REPEATED? && children.More? && (kind.ListWriter? ==> children.tail.NoWriters?)
    requires var define := optional + Optional(repetition);
             if kind.ListWriter? then WritersOk(children, define + 1, repeated + 1, false)
             else WritersOk(children, define, repeated, false)
    ensures WriterOk(NewWriter(name, kind, repetition, optional + Optional(repetition), repeated, children), optional,
                     repeated)
  {
  }

  /** Every writer that is created knows its levels. */
  lemma {:induction false} CreatedOk(type_: Type, name: string, maxRepeat: nat, maxDefine: nat, canHaveNulls: bool)
    requires maxDefine > 0 && CreateWriter(type_, name, maxRepeat, maxDefine, canHaveNulls).Some?
    ensures var w := CreateWriter(type_, name, maxRepeat, maxDefine, canHaveNulls).value;
            w.repetition == NullType(canHaveNulls) && WriterOk(w, maxDefine - 1, maxRepeat)
    decreases Weight(type_), 0
  {
    var repetition, optional := NullType(canHaveNulls), maxDefine - 1;
    match type_
    case Leaf =>
    case Null =>
    case Variant(shredding) => VariantCreatedOk(shredding, name, repetition, optional, maxRepeat);
    case Struct(fields) => StructCreatedOk(fields, name, repetition, optional, maxRepeat);
    case List(element) => ListOk(element, name, repetition, optional, maxRepeat);
    case Array(element) => ListOk(element, name, repetition, optional, maxRepeat);
    case Map(key, value) => MapCreatedOk(key, value, name, repetition, optional, maxRepeat);
  }

  lemma {:induction false} VariantCreatedOk(shredding: Option<Type>, name: string, repetition: Repetition,
                                            optional: nat, repeated: nat)
    requires !repetition.REPEATED?
    requires VariantChildren(shredding, repeated, optional + Optional(repetition) + 1).Some?
    ensures var define := optional + Optional(repetition);
            var children := VariantChildren(shredding, repeated, define + 1).value;
            WriterOk(NewWriter(name, VariantWriter, repetition, define, repeated, children), optional, repeated)
    decreases if shredding.Some? then 6 * Weight(shredding.value) else 0, 1
  {
    var define := optional + Optional(repetition);
    VariantChildrenOk(shredding, repeated, define + 1);
    GroupOk(VariantWriter, name, repetition, optional, repeated,
            VariantChildren(shredding, repeated, define + 1).value);
  }

  lemma {:induction false} StructCreatedOk(fields: Fields, name: string, repetition: Repetition,
                                           optional: nat, repeated: nat)
    requires !repetition.REPEATED? && fields.Field?
    requires CreateFields(fields, repeated, optional + Optional(repetition) + 1).Some?
    ensures var define := optional + Optional(repetition);
            var children := CreateFields(fields, repeated, define + 1).value;
            WriterOk(NewWriter(name, StructWriter, repetition, define, repeated, children), optional, repeated)
    decreases FieldsWeight(fields), 1
  {
    var define := optional + Optional(repetition);
    FieldsOk(fields, repeated, define + 1);
    GroupOk(StructWriter, name, repetition, optional, repeated, CreateFields(fields, repeated, define + 1).value);
  }

  lemma {:induction false} MapCreatedOk(key: Type, value: Type, name: string, repetition: Repetition,
                                        optional: nat, repeated: nat)
    requires !repetition.REPEATED?
    requires CreateWriter(key, "key", repeated + 1, optional + Optional(repetition) + 2, false).Some?
    requires CreateWriter(value, "value", repeated + 1, optional + Optional(repetition) + 2, true).Some?
    ensures var define := optional + Optional(repetition);
            var keyWriter := CreateWriter(key, "key", repeated + 1, define + 2, false).value;
            var valueWriter := CreateWriter(value, "value", repeated + 1, define + 2, true).value;
            var children := More(keyWriter, One(valueWriter));
            var keyValue := NewWriter("key_value", StructWriter, REPEATED, define + 1, repeated + 1, children);
            WriterOk(NewWriter(name, MapWriter, repetition, define, repeated, One(keyValue)), optional, repeated)
    decreases Weight(key) + Weight(value), 1
  {
    var define := optional + Optional(repetition);
    CreatedOk(key, "key", repeated + 1, define + 2, false);
    CreatedOk(value, "value", repeated + 1, define + 2, true);
    MapOk(name, repetition, optional, repeated,
          CreateWriter(key, "key", repeated + 1, define + 2, false).value,
          CreateWriter(value, "value", repeated + 1, define + 2, true).value);
  }

  lemma {:induction false} ListOk(element: Type, name: string, repetition: Repetition, optional: nat, repeated: nat)
    requires !repetition.REPEATED?
    requires CreateWriter(element, "element", repeated + 1, optional + Optional(repetition) + 2, true).Some?
    ensures var define := optional + Optional(repetition);
            var child := CreateWriter(element, "element", repeated + 1, define + 2, true).value;
            WriterOk(NewWriter(name, ListWriter, repetition, define, repeated, One(child)), optional, repeated)
    decreases Weight(element), 1
  {
    var define := optional + Optional(repetition);
    CreatedOk(element, "element", repeated + 1, define + 2, true);
    var child := CreateWriter(element, "element", repeated + 1, define + 2, true).value;
    OneOk(child, define + 1, repeated + 1);
    GroupOk(ListWriter, name, repetition, optional, repeated, One(child));
  }

  lemma {:induction false} FieldsOk(fields: Fields, maxRepeat: nat, maxDefine: nat)
    requires maxDefine > 0 && CreateFields(fields, maxRepeat, maxDefine).Some?
    ensures var ws := CreateFields(fields, maxRepeat, maxDefine).value;
            WritersOk(ws, maxDefine - 1, maxRepeat, false) && (ws.NoWriters? <==> fields.NoFields?)
    decreases FieldsWeight(fields), 0
  {
    if fields.Field? {
      CreatedOk(fields.fieldType, fields.name, maxRepeat, maxDefine, true);
      FieldsOk(fields.rest, maxRepeat, maxDefine);
    }
  }

  lemma {:induction false} VariantChildrenOk(shredding: Option<Type>, maxRepeat: nat, maxDefine: nat)
    requires maxDefine > 0 && VariantChildren(shredding, maxRepeat, maxDefine).Some?
    ensures var ws := VariantChildren(shredding, maxRepeat, maxDefine).value;
            WritersOk(ws, maxDefine - 1, maxRepeat, false) && ws.More?
    decreases if shredding.Some? then 6 * Weight(shredding.value) else 0, 0
  {
    var optional := maxDefine - 1;
    LeafOk("metadata", maxRepeat, maxDefine, false);
    LeafOk(VALUE, maxRepeat, maxDefine, false);
    LeafOk(VALUE, maxRepeat, maxDefine, true);
    var metadata := LeafOf("metadata", maxRepeat, maxDefine, false);
    if IsUnshredded(shredding) {
      OneOk(LeafOf(VALUE, maxRepeat, maxDefine, false), optional, maxRepeat);
      MoreOk(metadata, One(LeafOf(VALUE, maxRepeat, maxDefine, false)), optional, maxRepeat);
    } else {
      var typed := TypedValue(shredding.value).value;
      CreatedOk(typed, TYPED_VALUE, maxRepeat, maxDefine, true);
      var typedWriter := CreateWriter(typed, TYPED_VALUE, maxRepeat, maxDefine, true).value;
      OneOk(typedWriter, optional, maxRepeat);
      MoreOk(LeafOf(VALUE, maxRepeat, maxDefine, true), One(typedWriter), optional, maxRepeat);
      MoreOk(metadata, More(LeafOf(VALUE, maxRepeat, maxDefine, true), One(typedWriter)), optional, maxRepeat);
    }
  }

  /** The writers of a typed value: a leaf, or an object or an array of groups. */
  predicate IsTyped(w: Writer)
    decreases w, 1
  {
    match w.kind
    case LeafWriter => true
    case StructWriter => AreGroups(w.children)
    case ListWriter => AreGroups(w.children)
    case _ => false
  }

  predicate AreGroups(ws: Writers)
    decreases ws, 0
  {
    ws.More? ==> IsGroup(ws.head) && AreGroups(ws.tail)
  }

  /** A group is a STRUCT of what could not be shredded and, unless the type is open, a typed value. */
  predicate IsGroup(w: Writer)
    decreases w, 1
  {
    && w.kind.StructWriter?
    && w.children.More? && w.children.head.name == VALUE && w.children.head.kind.LeafWriter?
    && (w.children.tail.More? ==>
          && w.children.tail.head.name == TYPED_VALUE && IsTyped(w.children.tail.head)
          && w.children.tail.tail.NoWriters?)
  }

  /** Whatever is marked below a typed value is a group: shredding wraps every field and element in one. */
  lemma {:induction false} TypedValueIsTyped(type_: Type, name: string, maxRepeat: nat, maxDefine: nat,
                                             canHaveNulls: bool)
    requires maxDefine > 0 && TypedValue(type_).Some?
    requires CreateWriter(TypedValue(type_).value, name, maxRepeat, maxDefine, canHaveNulls).Some?
    ensures var w := CreateWriter(TypedValue(type_).value, name, maxRepeat, maxDefine, canHaveNulls).value;
            w.name == name && IsTyped(w)
    decreases type_, 0
  {
    var define := if canHaveNulls then maxDefine else maxDefine - 1;
    match type_
    case Struct(fields) => GroupsAreGroups(fields, maxRepeat, define + 1);
    case List(element) => GroupIsGroup(element, "element", maxRepeat + 1, define + 2);
    case _ =>
  }

  lemma {:induction false} GroupsAreGroups(fields: Fields, maxRepeat: nat, maxDefine: nat)
    requires maxDefine > 0 && Groups(fields).Some? && CreateFields(Groups(fields).value, maxRepeat, maxDefine).Some?
    ensures AreGroups(CreateFields(Groups(fields).value, maxRepeat, maxDefine).value)
    decreases fields, 1
  {
    if fields.Field? {
      GroupIsGroup(fields.fieldType, fields.name, maxRepeat, maxDefine);
      GroupsAreGroups(fields.rest, maxRepeat, maxDefine);
    }
  }

  lemma {:induction false} GroupIsGroup(type_: Type, name: string, maxRepeat: nat, maxDefine: nat)
    requires maxDefine > 0 && Group(type_).Some?
             && CreateWriter(Group(type_).value, name, maxRepeat, maxDefine, true).Some?
    ensures IsGroup(CreateWriter(Group(type_).value, name, maxRepeat, maxDefine, true).value)
    decreases type_, 1
  {
    var fields := Group(type_).value.fields;
    var children := CreateFields(fields, maxRepeat, maxDefine + 1).value;
    assert CreateWriter(Leaf, VALUE, maxRepeat, maxDefine + 1, true) == Some(children.head);
    assert CreateFields(fields.rest, maxRepeat, maxDefine + 1) == Some(children.tail);
    assert CreateFields(NoFields, maxRepeat, maxDefine + 1) == Some(NoWriters);
    if !type_.Variant? && !type_.Null? {
      TypedValueIsTyped(type_, TYPED_VALUE, maxRepeat, maxDefine + 1, true);
    }
  }

  /** Writers that know their levels know what their columns' paths in the schema say. */
  lemma {:induction false} LevelsArePathCounts(w: Writer, optional: nat, repeated: nat)
    requires WriterOk(w, optional, repeated)
    ensures ColumnLevels(w) == PathLevels(SchemaOf(w), optional, repeated)
    decreases w
  {
    if w.kind.ListWriter? {
      var list := Node("list", REPEATED, SchemasOf(w.children));
      ColumnsArePathCounts(w.children, w.maxDefine + 1, w.maxRepeat + 1, false);
      assert PathsLevels(NoSchemas, w.maxDefine, w.maxRepeat) == [];
      assert PathLevels(list, w.maxDefine, w.maxRepeat) == ColumnsLevels(w.children);
      assert PathsLevels(Schemas(list, NoSchemas), w.maxDefine, w.maxRepeat) == ColumnsLevels(w.children) + [];
    } else if w.children.More? {
      ColumnsArePathCounts(w.children, w.maxDefine, w.maxRepeat, w.kind.MapWriter?);
    }
  }

  lemma {:induction false} ColumnsArePathCounts(ws: Writers, optional: nat, repeated: nat, inMap: bool)
    requires WritersOk(ws, optional, repeated, inMap)
    ensures ColumnsLevels(ws) == PathsLevels(SchemasOf(ws), optional, repeated)
    decreases ws
  {
    if ws.More? {
      LevelsArePathCounts(ws.head, optional, repeated);
      ColumnsArePathCounts(ws.tail, optional, repeated, inMap);
    }
  }

  /** For every nested type, the largest levels are the counts on the paths of the schema. */
  lemma CreatedLevels(type_: Type, name: string, canHaveNulls: bool, w: Writer)
    requires CreateWriter(type_, name, 0, 1, canHaveNulls) == Some(w)
    ensures ColumnLevels(w) == PathLevels(SchemaOf(w), 0, 0)
  {
    CreatedOk(type_, name, 0, 1, canHaveNulls);
    LevelsArePathCounts(w, 0, 0);
  }

  // ---------------------------------------------------------------- marking writers as required

  function Size(w: Writer): nat
    decreases w
  {
    1 + WritersSize(w.children)
  }

  function WritersSize(ws: Writers): nat
    decreases ws
  {
    if ws.NoWriters? then 0 else 1 + Size(ws.head) + WritersSize(ws.tail)
  }

  /** One OPTIONAL node above has become REQUIRED.  No level can go below zero: there was such a node. */
  function Decrement(w: Writer, ghost optional: nat, ghost repeated: nat): (d: Writer)
    requires optional > 0 && WriterOk(w, optional, repeated)
    ensures WriterOk(d, optional - 1, repeated) && Size(d) == Size(w) && d.repetition == w.repetition
    decreases w
  {
    var children :=
      if w.kind.ListWriter? then DecrementAll(w.children, w.maxDefine + 1, w.maxRepeat + 1, false)
      else DecrementAll(w.children, w.maxDefine, w.maxRepeat, w.kind.MapWriter?);
    w.(maxDefine := w.maxDefine - 1, children := children)
  }

  function DecrementAll(ws: Writers, ghost optional: nat, ghost repeated: nat, ghost inMap: bool): (ds: Writers)
    requires optional > 0 && WritersOk(ws, optional, repeated, inMap)
    ensures WritersOk(ds, optional - 1, repeated, inMap) && WritersSize(ds) == WritersSize(ws)
    ensures ds.More? == ws.More? && (ds.More? ==> ds.head.kind == ws.head.kind && ds.tail.More? == ws.tail.More?)
    decreases ws
  {
    if ws.NoWriters? then NoWriters
    else More(Decrement(ws.head, optional, repeated), DecrementAll(ws.tail, optional, repeated, inMap))
  }

  /** Marks a writer REQUIRED; the levels of everything below it follow. */
  function MarkRequired(w: Writer, ghost optional: nat, ghost repeated: nat): (m: Writer)
    requires WriterOk(w, optional, repeated) && !w.repetition.REPEATED?
    ensures WriterOk(m, optional, repeated) && m.repetition.REQUIRED? && Size(m) == Size(w)
    ensures m.kind == w.kind && m.name == w.name
  {
    if w.repetition.REQUIRED? then w
    else
      var children :=
        if w.kind.ListWriter? then DecrementAll(w.children, w.maxDefine + 1, w.maxRepeat + 1, false)
        else DecrementAll(w.children, w.maxDefine, w.maxRepeat, w.kind.MapWriter?);
      w.(repetition := REQUIRED, canHaveNulls := false, maxDefine := w.maxDefine - 1, children := children)
  }

  /** Marks a group of shredded values REQUIRED, and the groups below its typed value. */
  function MarkGroup(group: Writer, ghost optional: nat, ghost repeated: nat): (m: Writer)
    requires WriterOk(group, optional, repeated) && !group.repetition.REPEATED?
    ensures WriterOk(m, optional, repeated) && m.repetition.REQUIRED? && Size(m) == Size(group)
    ensures GroupMarked(m)
    decreases Size(group), 1
  {
    var marked := MarkRequired(group, optional, repeated);
    if marked.kind.StructWriter? || marked.kind.VariantWriter? then
      marked.(children := MarkNamed(marked.children, marked.maxDefine, marked.maxRepeat))
    else marked
  }

  /** Marks the groups below the first child that is a typed value. */
  function MarkNamed(ws: Writers, ghost optional: nat, ghost repeated: nat): (ms: Writers)
    requires WritersOk(ws, optional, repeated, false)
    ensures WritersOk(ms, optional, repeated, false) && WritersSize(ms) == WritersSize(ws) && ms.More? == ws.More?
    ensures NamedMarked(ms)
    decreases WritersSize(ws), 0
  {
    if ws.NoWriters? then NoWriters
    else if ws.head.name == TYPED_VALUE then More(MarkTyped(ws.head, optional, repeated), ws.tail)
    else More(ws.head, MarkNamed(ws.tail, optional, repeated))
  }

  function MarkGroups(ws: Writers, ghost optional: nat, ghost repeated: nat): (ms: Writers)
    requires WritersOk(ws, optional, repeated, false)
    ensures WritersOk(ms, optional, repeated, false) && WritersSize(ms) == WritersSize(ws)
    ensures ms.More? == ws.More? && (ms.More? ==> ms.tail.More? == ws.tail.More?)
    ensures GroupsMarked(ms)
    decreases WritersSize(ws), 0
  {
    if ws.NoWriters? then NoWriters
    else More(MarkGroup(ws.head, optional, repeated), MarkGroups(ws.tail, optional, repeated))
  }

  /** The groups of a typed value: the fields of an object, or the elements of an array. */
  function MarkTyped(typed: Writer, ghost optional: nat, ghost repeated: nat): (m: Writer)
    requires WriterOk(typed, optional, repeated)
    ensures WriterOk(m, optional, repeated) && m.repetition == typed.repetition && Size(m) == Size(typed)
    ensures m.name == typed.name && TypedMarked(m)
    decreases Size(typed), 2
  {
    match typed.kind
    case StructWriter => typed.(children := MarkGroups(typed.children, typed.maxDefine, typed.maxRepeat))
    case ListWriter => typed.(children := MarkGroups(typed.children, typed.maxDefine + 1, typed.maxRepeat + 1))
    case _ => typed
  }

  /** All groups below a typed value are REQUIRED, however deep. */
  predicate TypedMarked(w: Writer)
    decreases w, 1
  {
    w.kind.StructWriter? || w.kind.ListWriter? ==> GroupsMarked(w.children)
  }

  predicate GroupsMarked(ws: Writers)
    decreases ws, 0
  {
    ws.More? ==> GroupMarked(ws.head) && GroupsMarked(ws.tail)
  }

  predicate GroupMarked(w: Writer)
    decreases w, 1
  {
    w.repetition.REQUIRED? && (w.kind.StructWriter? || w.kind.VariantWriter? ==> NamedMarked(w.children))
  }

  /** The first child that is a typed value has its groups marked. */
  predicate NamedMarked(ws: Writers)
    decreases ws, 0
  {
    ws.More? ==> if ws.head.name == TYPED_VALUE then TypedMarked(ws.head) else NamedMarked(ws.tail)
  }

  /** What FinalizeSchema makes of the writers before it writes the schema: every VARIANT marks its groups. */
  function Finalize(w: Writer, ghost optional: nat, ghost repeated: nat): (f: Writer)
    requires WriterOk(w, optional, repeated)
    ensures WriterOk(f, optional, repeated) && f.repetition == w.repetition && f.kind == w.kind
    decreases Size(w), 1
  {
    if w.kind.VariantWriter? then
      var marked := MarkNamed(w.children, w.maxDefine, w.maxRepeat);
      w.(children := FinalizeAll(marked, w.maxDefine, w.maxRepeat, false))
    else if w.kind.ListWriter? then w.(children := FinalizeAll(w.children, w.maxDefine + 1, w.maxRepeat + 1, false))
    else w.(children := FinalizeAll(w.children, w.maxDefine, w.maxRepeat, w.kind.MapWriter?))
  }

  function FinalizeAll(ws: Writers, ghost optional: nat, ghost repeated: nat, ghost inMap: bool): (fs: Writers)
    requires WritersOk(ws, optional, repeated, inMap)
    ensures WritersOk(fs, optional, repeated, inMap)
    ensures fs.More? == ws.More? && (fs.More? ==> fs.head.kind == ws.head.kind && fs.tail.More? == ws.tail.More?)
    decreases WritersSize(ws), 0
  {
    if ws.NoWriters? then NoWriters
    else More(Finalize(ws.head, optional, repeated), FinalizeAll(ws.tail, optional, repeated, inMap))
  }

  /** Marking the groups of shredded variants keeps the levels what the paths of the schema say. */
  lemma FinalizedLevels(type_: Type, name: string, canHaveNulls: bool, w: Writer)
    requires CreateWriter(type_, name, 0, 1, canHaveNulls) == Some(w)
    ensures WriterOk(w, 0, 0)
    ensures ColumnLevels(Finalize(w, 0, 0)) == PathLevels(SchemaOf(Finalize(w, 0, 0)), 0, 0)
  {
    CreatedOk(type_, name, 0, 1, canHaveNulls);
    LevelsArePathCounts(Finalize(w, 0, 0), 0, 0);
  }

  /** The writer of a VARIANT whose shredding was found by looking at the data: its value becomes optional. */
  function Shred(w: Writer, type_: Type): Option<Writer>
    requires w.kind.VariantWriter? && w.children.More?
  {
    var typed := TypedValue(type_);
    if typed.None? then None
    else
      var typedWriter := CreateWriter(typed.value, TYPED_VALUE, w.maxRepeat, w.maxDefine + 1, true);
      if typedWriter.None? then None
      else
        var value := LeafOf(VALUE, w.maxRepeat, w.maxDefine + 1, true);
        Some(w.(children := More(w.children.head, More(value, One(typedWriter.value)))))
  }

  lemma VariantWriterOf(name: string, maxRepeat: nat, maxDefine: nat, canHaveNulls: bool, shredding: Option<Type>)
    requires maxDefine > 0
    ensures var define := if canHaveNulls then maxDefine else maxDefine - 1;
            var children := VariantChildren(shredding, maxRepeat, define + 1);
            CreateWriter(Variant(shredding), name, maxRepeat, maxDefine, canHaveNulls) ==
            if children.None? then None
            else Some(NewWriter(name, VariantWriter, NullType(canHaveNulls), define, maxRepeat, children.value))
  {
  }

  /**
   A shredding found in the data gives the same writers as one that was asked for; one into NULLs or into VARIANT
   is never found, and asking for it gives the unshredded writer.
  */
  lemma FoundShredding(name: string, maxRepeat: nat, maxDefine: nat, canHaveNulls: bool, type_: Type)
    requires maxDefine > 0
    ensures CreateWriter(Variant(None), name, maxRepeat, maxDefine, canHaveNulls).Some?
    ensures var w := CreateWriter(Variant(None), name, maxRepeat, maxDefine, canHaveNulls).value;
            CreateWriter(Variant(Some(type_)), name, maxRepeat, maxDefine, canHaveNulls) ==
            if type_.Null? || type_.Variant? then Some(w) else Shred(w, type_)
  {
    VariantWriterOf(name, maxRepeat, maxDefine, canHaveNulls, None);
    VariantWriterOf(name, maxRepeat, maxDefine, canHaveNulls, Some(type_));
    var define := if canHaveNulls then maxDefine else maxDefine - 1;
    assert VariantChildren(None, maxRepeat, define + 1) ==
           Some(More(LeafOf("metadata", maxRepeat, define + 1, false),
                     One(LeafOf(VALUE, maxRepeat, define + 1, false))));
  }
}
