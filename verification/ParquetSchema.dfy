/**
 The Parquet schema that a type is written with, defined on the type alone ("Nested Encoding" of the Apache
 Parquet format specification, and its rules for shredded variants), and that the writers of ParquetLevels
 write exactly that.
*/
module ParquetSchema {
  import opened ParquetLevels
  import opened Wrappers

  // ---------------------------------------------------------------- what a type is written as

  /** A type that a VARIANT can be shredded into. */
  predicate Shreddable(type_: Type)
    decreases type_
  {
    match type_
    case Leaf => true
    case Null => true
    case Struct(fields) => fields.Field? && AllGroups(fields)
    case List(element) => element.Variant? || element.Null? || Shreddable(element)
    case _ => false
  }

  predicate AllGroups(fields: Fields)
    decreases fields
  {
    fields.Field? ==>
      && (fields.fieldType.Variant? || fields.fieldType.Null? || Shreddable(fields.fieldType))
      && AllGroups(fields.rest)
  }

  /** A STRUCT needs a field, and a VARIANT a shredding that is possible, if one is asked for. */
  predicate Writable(type_: Type)
    decreases type_
  {
    match type_
    case Leaf => true
    case Null => true
    case Struct(fields) => fields.Field? && AllWritable(fields)
    case List(element) => Writable(element)
    case Array(element) => Writable(element)
    case Map(key, value) => Writable(key) && Writable(value)
    case Variant(None) => true
    case Variant(Some(shredding)) => shredding.Null? || shredding.Variant? || Shreddable(shredding)
  }

  predicate AllWritable(fields: Fields)
    decreases fields
  {
    fields.Field? ==> Writable(fields.fieldType) && AllWritable(fields.rest)
  }

  function OneSchema(schema: Schema): Schemas {
    Schemas(schema, NoSchemas)
  }

  function LeafSchema(name: string, repetition: Repetition): Schema {
    Node(name, repetition, NoSchemas)
  }

  /**
   A list is a node over a REPEATED "list" over its OPTIONAL "element"; a map is a node over a REPEATED
   "key_value" over its REQUIRED "key" and its OPTIONAL "value"; a struct is a node over its fields, in order and
   OPTIONAL; a variant is a node over REQUIRED "metadata" and "value", where "value" is OPTIONAL and followed by a
   "typed_value" if it is shredded.  `groups` is the repetition of the groups of shredded values.
  */
  function TypeSchema(type_: Type, name: string, repetition: Repetition, groups: Repetition): Schema
    decreases type_
  {
    match type_
    case Leaf => LeafSchema(name, repetition)
    case Null => LeafSchema(name, repetition)
    case Struct(fields) => Node(name, repetition, FieldSchemas(fields, groups))
    case List(element) => ListSchema(name, repetition, TypeSchema(element, "element", OPTIONAL, groups))
    case Array(element) => ListSchema(name, repetition, TypeSchema(element, "element", OPTIONAL, groups))
    case Map(key, value) =>
      var keyValue := Schemas(TypeSchema(key, "key", REQUIRED, groups),
                              OneSchema(TypeSchema(value, "value", OPTIONAL, groups)));
      Node(name, repetition, OneSchema(Node("key_value", REPEATED, keyValue)))
    case Variant(shredding) =>
      var metadata := LeafSchema("metadata", REQUIRED);
      if shredding.None? || shredding.value.Null? || shredding.value.Variant? then
        Node(name, repetition, Schemas(metadata, OneSchema(LeafSchema("value", REQUIRED))))
      else
        var typed := ShreddedSchema(shredding.value, "typed_value", groups);
        Node(name, repetition, Schemas(metadata, Schemas(LeafSchema("value", OPTIONAL), OneSchema(typed))))
  }

  function ListSchema(name: string, repetition: Repetition, element: Schema): Schema {
    Node(name, repetition, OneSchema(Node("list", REPEATED, OneSchema(element))))
  }

  function FieldSchemas(fields: Fields, groups: Repetition): Schemas
    decreases fields
  {
    if fields.NoFields? then NoSchemas
    else Schemas(TypeSchema(fields.fieldType, fields.name, OPTIONAL, groups), FieldSchemas(fields.rest, groups))
  }

  /** A typed value is OPTIONAL; every field and every element of it is a group. */
  function ShreddedSchema(type_: Type, name: string, groups: Repetition): Schema
    decreases type_, 0
  {
    match type_
    case Struct(fields) => Node(name, OPTIONAL, GroupSchemas(fields, groups))
    case List(element) => ListSchema(name, OPTIONAL, GroupSchema(element, "element", groups))
    case _ => LeafSchema(name, OPTIONAL)
  }

  /** A group holds an OPTIONAL "value" and, unless the type is open, a "typed_value". */
  function GroupSchema(type_: Type, name: string, groups: Repetition): Schema
    decreases type_, 1
  {
    var value := LeafSchema("value", OPTIONAL);
    if type_.Variant? || type_.Null? then Node(name, groups, OneSchema(value))
    else Node(name, groups, Schemas(value, OneSchema(ShreddedSchema(type_, "typed_value", groups))))
  }

  function GroupSchemas(fields: Fields, groups: Repetition): Schemas
    decreases fields
  {
    if fields.NoFields? then NoSchemas
    else Schemas(GroupSchema(fields.fieldType, fields.name, groups), GroupSchemas(fields.rest, groups))
  }

  // ---------------------------------------------------------------- the writers that are created

  lemma SchemasOfFew(a: Writer, b: Writer)
    ensures SchemasOf(NoWriters) == NoSchemas && SchemasOf(One(a)) == OneSchema(SchemaOf(a))
    ensures SchemasOf(More(a, One(b))) == Schemas(SchemaOf(a), OneSchema(SchemaOf(b)))
  {
    assert SchemasOf(NoWriters) == NoSchemas;
    assert SchemasOf(One(b)) == OneSchema(SchemaOf(b));
  }

  lemma SchemaOfList(w: Writer, child: Writer)
    requires w.kind.ListWriter? && w.children == One(child)
    ensures SchemaOf(w) == ListSchema(w.name, w.repetition, SchemaOf(child))
  {
    SchemasOfFew(child, child);
  }

  lemma SchemaOfMap(w: Writer, key: Writer, value: Writer)
    requires w.kind.MapWriter? && w.children.More? && w.children == One(w.children.head)
    requires w.children.head.name == "key_value" && w.children.head.repetition == REPEATED
    requires w.children.head.kind.StructWriter? && w.children.head.children == More(key, One(value))
    ensures SchemaOf(w) ==
            Node(w.name, w.repetition,
                 OneSchema(Node("key_value", REPEATED, Schemas(SchemaOf(key), OneSchema(SchemaOf(value))))))
  {
    SchemasOfFew(key, value);
    SchemasOfFew(w.children.head, value);
  }

  /** The writers of a group, with or without a typed value. */
  lemma GroupWriter(typed: Option<Type>, name: string, maxRepeat: nat, maxDefine: nat, canHaveNulls: bool)
    requires maxDefine > 0
    ensures var define := if canHaveNulls then maxDefine else maxDefine - 1;
            var value := NewWriter(VALUE, LeafWriter, OPTIONAL, define + 1, maxRepeat, NoWriters);
            var group := if typed.None? then Struct(Field(VALUE, Leaf, NoFields))
                         else Struct(Field(VALUE, Leaf, Field(TYPED_VALUE, typed.value, NoFields)));
            var created := CreateWriter(group, name, maxRepeat, maxDefine, canHaveNulls);
            if typed.None? then
              created == Some(NewWriter(name, StructWriter, NullType(canHaveNulls), define, maxRepeat, One(value)))
            else
              var typedWriter := CreateWriter(typed.value, TYPED_VALUE, maxRepeat, define + 1, true);
              created ==
              if typedWriter.None? then None
              else
                Some(NewWriter(name, StructWriter, NullType(canHaveNulls), define, maxRepeat,
                               More(value, One(typedWriter.value))))
  {
    var define := if canHaveNulls then maxDefine else maxDefine - 1;
    var value := NewWriter(VALUE, LeafWriter, OPTIONAL, define + 1, maxRepeat, NoWriters);
    assert CreateWriter(Leaf, VALUE, maxRepeat, define + 1, true) == Some(value);
    assert CreateFields(NoFields, maxRepeat, define + 1) == Some(NoWriters);
    if typed.None? {
      assert CreateFields(Field(VALUE, Leaf, NoFields), maxRepeat, define + 1) == Some(One(value));
    } else {
      var last := Field(TYPED_VALUE, typed.value, NoFields);
      var typedWriter := CreateWriter(typed.value, TYPED_VALUE, maxRepeat, define + 1, true);
      assert CreateFields(last, maxRepeat, define + 1) ==
             if typedWriter.None? then None else Some(One(typedWriter.value));
      assert CreateFields(Field(VALUE, Leaf, last), maxRepeat, define + 1) ==
             if typedWriter.None? then None else Some(More(value, One(typedWriter.value)));
    }
  }

  lemma {:induction false} TypedIsShredded(type_: Type, name: string, maxRepeat: nat, maxDefine: nat)
    requires maxDefine > 0
    ensures TypedValue(type_).Some? && CreateWriter(TypedValue(type_).value, name, maxRepeat, maxDefine, true).Some?
            <==> Shreddable(type_)
    ensures Shreddable(type_) ==>
              SchemaOf(CreateWriter(TypedValue(type_).value, name, maxRepeat, maxDefine, true).value) ==
              ShreddedSchema(type_, name, OPTIONAL)
    decreases type_, 0
  {
    match type_
    case Struct(fields) =>
      GroupsAreShredded(fields, maxRepeat, maxDefine + 1);
      if Groups(fields).Some? {
        assert Groups(fields).value.NoFields? <==> fields.NoFields?;
      }
    case List(element) =>
      GroupIsShredded(element, "element", maxRepeat + 1, maxDefine + 2);
      if Shreddable(type_) {
        SchemaOfList(CreateWriter(TypedValue(type_).value, name, maxRepeat, maxDefine, true).value,
                     CreateWriter(Group(element).value, "element", maxRepeat + 1, maxDefine + 2, true).value);
      }
    case _ =>
  }

  lemma {:induction false} GroupIsShredded(type_: Type, name: string, maxRepeat: nat, maxDefine: nat)
    requires maxDefine > 0
    ensures Group(type_).Some? && CreateWriter(Group(type_).value, name, maxRepeat, maxDefine, true).Some?
            <==> type_.Variant? || type_.Null? || Shreddable(type_)
    ensures type_.Variant? || type_.Null? || Shreddable(type_) ==>
              SchemaOf(CreateWriter(Group(type_).value, name, maxRepeat, maxDefine, true).value) ==
              GroupSchema(type_, name, OPTIONAL)
    decreases type_, 1
  {
    var value := NewWriter(VALUE, LeafWriter, OPTIONAL, maxDefine + 1, maxRepeat, NoWriters);
    SchemasOfFew(value, value);
    if type_.Variant? || type_.Null? {
      GroupWriter(None, name, maxRepeat, maxDefine, true);
    } else {
      TypedIsShredded(type_, TYPED_VALUE, maxRepeat, maxDefine + 1);
      if TypedValue(type_).Some? {
        GroupWriter(TypedValue(type_), name, maxRepeat, maxDefine, true);
        if Shreddable(type_) {
          SchemasOfFew(value, CreateWriter(TypedValue(type_).value, TYPED_VALUE, maxRepeat, maxDefine + 1, true).value);
        }
      }
    }
  }

  lemma {:induction false} GroupsAreShredded(fields: Fields, maxRepeat: nat, maxDefine: nat)
    requires maxDefine > 0
    ensures Groups(fields).Some? && CreateFields(Groups(fields).value, maxRepeat, maxDefine).Some? <==>
              AllGroups(fields)
    ensures AllGroups(fields) ==>
              SchemasOf(CreateFields(Groups(fields).value, maxRepeat, maxDefine).value) ==
              GroupSchemas(fields, OPTIONAL)
    decreases fields, 2
  {
    if fields.Field? {
      GroupIsShredded(fields.fieldType, fields.name, maxRepeat, maxDefine);
      GroupsAreShredded(fields.rest, maxRepeat, maxDefine);
    }
  }

  /** A type has writers exactly if it can be written, and their schema is that of the type. */
  lemma {:induction false} CreatedSchema(type_: Type, name: string, maxRepeat: nat, maxDefine: nat, canHaveNulls: bool)
    requires maxDefine > 0
    ensures CreateWriter(type_, name, maxRepeat, maxDefine, canHaveNulls).Some? <==> Writable(type_)
    ensures Writable(type_) ==>
              SchemaOf(CreateWriter(type_, name, maxRepeat, maxDefine, canHaveNulls).value) ==
              TypeSchema(type_, name, if canHaveNulls then OPTIONAL else REQUIRED, OPTIONAL)
    decreases type_, 0
  {
    var define := if canHaveNulls then maxDefine else maxDefine - 1;
    match type_
    case Leaf =>
    case Null =>
    case Struct(fields) => FieldsSchema(fields, maxRepeat, define + 1);
    case List(element) => ElementSchema(type_, element, name, maxRepeat, maxDefine, canHaveNulls);
    case Array(element) => ElementSchema(type_, element, name, maxRepeat, maxDefine, canHaveNulls);
    case Map(key, value) =>
      CreatedSchema(key, "key", maxRepeat + 1, define + 2, false);
      CreatedSchema(value, "value", maxRepeat + 1, define + 2, true);
      if Writable(type_) {
        SchemaOfMap(CreateWriter(type_, name, maxRepeat, maxDefine, canHaveNulls).value,
                    CreateWriter(key, "key", maxRepeat + 1, define + 2, false).value,
                    CreateWriter(value, "value", maxRepeat + 1, define + 2, true).value);
      }
    case Variant(shredding) => VariantSchema(shredding, name, maxRepeat, maxDefine, canHaveNulls);
  }

  lemma VariantSchema(shredding: Option<Type>, name: string, maxRepeat: nat, maxDefine: nat, canHaveNulls: bool)
    requires maxDefine > 0
    ensures CreateWriter(Variant(shredding), name, maxRepeat, maxDefine, canHaveNulls).Some? <==>
            Writable(Variant(shredding))
    ensures Writable(Variant(shredding)) ==>
              SchemaOf(CreateWriter(Variant(shredding), name, maxRepeat, maxDefine, canHaveNulls).value) ==
              TypeSchema(Variant(shredding), name, if canHaveNulls then OPTIONAL else REQUIRED, OPTIONAL)
  {
    var define := if canHaveNulls then maxDefine else maxDefine - 1;
    var metadata := LeafOf("metadata", maxRepeat, define + 1, false);
    VariantWriterOf(name, maxRepeat, maxDefine, canHaveNulls, shredding);
    if IsUnshredded(shredding) {
      SchemasOfFew(metadata, LeafOf(VALUE, maxRepeat, define + 1, false));
    } else {
      TypedIsShredded(shredding.value, TYPED_VALUE, maxRepeat, define + 1);
      if Shreddable(shredding.value) {
        var typed := CreateWriter(TypedValue(shredding.value).value, TYPED_VALUE, maxRepeat, define + 1, true).value;
        var rest := More(LeafOf(VALUE, maxRepeat, define + 1, true), One(typed));
        SchemasOfFew(rest.head, typed);
        assert SchemasOf(More(metadata, rest)) == Schemas(SchemaOf(metadata), SchemasOf(rest));
      }
    }
  }

  lemma {:induction false} ElementSchema(type_: Type, element: Type, name: string, maxRepeat: nat, maxDefine: nat,
                                         canHaveNulls: bool)
    requires maxDefine > 0 && (type_ == List(element) || type_ == Array(element))
    ensures CreateWriter(type_, name, maxRepeat, maxDefine, canHaveNulls).Some? <==> Writable(type_)
    ensures Writable(type_) ==>
              SchemaOf(CreateWriter(type_, name, maxRepeat, maxDefine, canHaveNulls).value) ==
              TypeSchema(type_, name, if canHaveNulls then OPTIONAL else REQUIRED, OPTIONAL)
    decreases element, 1
  {
    var define := if canHaveNulls then maxDefine else maxDefine - 1;
    CreatedSchema(element, "element", maxRepeat + 1, define + 2, true);
    if Writable(element) {
      SchemaOfList(CreateWriter(type_, name, maxRepeat, maxDefine, canHaveNulls).value,
                   CreateWriter(element, "element", maxRepeat + 1, define + 2, true).value);
    }
  }

  lemma {:induction false} FieldsSchema(fields: Fields, maxRepeat: nat, maxDefine: nat)
    requires maxDefine > 0
    ensures CreateFields(fields, maxRepeat, maxDefine).Some? <==> AllWritable(fields)
    ensures AllWritable(fields) ==>
              SchemasOf(CreateFields(fields, maxRepeat, maxDefine).value) == FieldSchemas(fields, OPTIONAL)
    decreases fields
  {
    if fields.Field? {
      CreatedSchema(fields.fieldType, fields.name, maxRepeat, maxDefine, true);
      FieldsSchema(fields.rest, maxRepeat, maxDefine);
    }
  }

  /** So the columns of a type have the levels that the paths of its schema give them. */
  lemma CreatedColumns(type_: Type, name: string, canHaveNulls: bool)
    requires Writable(type_)
    ensures CreateWriter(type_, name, 0, 1, canHaveNulls).Some?
    ensures ColumnLevels(CreateWriter(type_, name, 0, 1, canHaveNulls).value) ==
            PathLevels(TypeSchema(type_, name, if canHaveNulls then OPTIONAL else REQUIRED, OPTIONAL), 0, 0)
  {
    CreatedSchema(type_, name, 0, 1, canHaveNulls);
    CreatedLevels(type_, name, canHaveNulls, CreateWriter(type_, name, 0, 1, canHaveNulls).value);
  }

  // ---------------------------------------------------------------- the writers once groups are marked

  /** The types that hold shredded values. */
  predicate HoldsShredded(type_: Type)
    decreases type_
  {
    match type_
    case Leaf => true
    case Null => true
    case Struct(fields) => AllHoldShredded(fields)
    case List(element) => HoldsShredded(element)
    case _ => false
  }

  predicate AllHoldShredded(fields: Fields)
    decreases fields
  {
    fields.Field? ==> HoldsShredded(fields.fieldType) && AllHoldShredded(fields.rest)
  }

  lemma {:induction false} TypedHoldsShredded(type_: Type)
    requires TypedValue(type_).Some?
    ensures HoldsShredded(TypedValue(type_).value)
    decreases type_, 0
  {
    match type_
    case Struct(fields) => GroupsHoldShredded(fields);
    case List(element) => GroupHoldsShredded(element);
    case _ =>
  }

  lemma {:induction false} GroupHoldsShredded(type_: Type)
    requires Group(type_).Some?
    ensures HoldsShredded(Group(type_).value)
    decreases type_, 1
  {
    assert AllHoldShredded(NoFields);
    if !type_.Variant? && !type_.Null? {
      TypedHoldsShredded(type_);
      assert AllHoldShredded(Field(TYPED_VALUE, TypedValue(type_).value, NoFields));
    }
  }

  lemma {:induction false} GroupsHoldShredded(fields: Fields)
    requires Groups(fields).Some?
    ensures AllHoldShredded(Groups(fields).value)
    decreases fields, 2
  {
    if fields.Field? {
      GroupHoldsShredded(fields.fieldType);
      GroupsHoldShredded(fields.rest);
    }
  }

  /** One OPTIONAL node fewer above gives the writers that would have been created there. */
  lemma {:induction false} DecrementIsCreate(type_: Type, name: string, maxRepeat: nat, maxDefine: nat,
                                             canHaveNulls: bool, w: Writer)
    requires HoldsShredded(type_)
    requires maxDefine > 1 && CreateWriter(type_, name, maxRepeat, maxDefine, canHaveNulls) == Some(w)
    ensures WriterOk(w, maxDefine - 1, maxRepeat)
    ensures CreateWriter(type_, name, maxRepeat, maxDefine - 1, canHaveNulls) ==
            Some(Decrement(w, maxDefine - 1, maxRepeat))
    decreases type_
  {
    CreatedOk(type_, name, maxRepeat, maxDefine, canHaveNulls);
    var define := if canHaveNulls then maxDefine else maxDefine - 1;
    match type_
    case Leaf =>
    case Null =>
    case Struct(fields) => DecrementFieldsIsCreate(fields, maxRepeat, define + 1, w.children);
    case List(element) =>
      DecrementIsCreate(element, "element", maxRepeat + 1, define + 2, true, w.children.head);
      DecrementLast(w.children.head, define + 1, maxRepeat + 1);
  }

  lemma DecrementLast(w: Writer, optional: nat, repeated: nat)
    requires optional > 0 && WriterOk(w, optional, repeated) && WritersOk(One(w), optional, repeated, false)
    ensures DecrementAll(One(w), optional, repeated, false) == One(Decrement(w, optional, repeated))
  {
  }

  lemma {:induction false} DecrementFieldsIsCreate(fields: Fields, maxRepeat: nat, maxDefine: nat, ws: Writers)
    requires AllHoldShredded(fields)
    requires maxDefine > 1 && CreateFields(fields, maxRepeat, maxDefine) == Some(ws)
    ensures WritersOk(ws, maxDefine - 1, maxRepeat, false)
    ensures CreateFields(fields, maxRepeat, maxDefine - 1) == Some(DecrementAll(ws, maxDefine - 1, maxRepeat, false))
    decreases fields
  {
    FieldsOk(fields, maxRepeat, maxDefine);
    if fields.Field? {
      DecrementIsCreate(fields.fieldType, fields.name, maxRepeat, maxDefine, true, ws.head);
      DecrementFieldsIsCreate(fields.rest, maxRepeat, maxDefine, ws.tail);
    }
  }

  /** Marking a writer of shredded values REQUIRED gives the one that would have been created REQUIRED. */
  lemma MarkRequiredIsCreate(type_: Type, name: string, maxRepeat: nat, maxDefine: nat, w: Writer)
    requires HoldsShredded(type_)
    requires maxDefine > 1 && CreateWriter(type_, name, maxRepeat, maxDefine, true) == Some(w)
    ensures WriterOk(w, maxDefine - 1, maxRepeat) && w.repetition == OPTIONAL
    ensures CreateWriter(type_, name, maxRepeat, maxDefine, false) == Some(MarkRequired(w, maxDefine - 1, maxRepeat))
  {
    CreatedOk(type_, name, maxRepeat, maxDefine, true);
    DecrementIsCreate(type_, name, maxRepeat, maxDefine, true, w);
    OnlyRepetitionDiffers(type_, name, maxRepeat, maxDefine);
  }

  lemma OnlyRepetitionDiffers(type_: Type, name: string, maxRepeat: nat, maxDefine: nat)
    requires maxDefine > 1
    ensures var (optional, required) := (CreateWriter(type_, name, maxRepeat, maxDefine - 1, true),
                                         CreateWriter(type_, name, maxRepeat, maxDefine, false));
            required ==
            if optional.None? then None else Some(optional.value.(repetition := REQUIRED, canHaveNulls := false))
  {
  }

  /** No VARIANT is among these writers. */
  predicate NoVariants(w: Writer)
    decreases w
  {
    !w.kind.VariantWriter? && NoneAreVariants(w.children)
  }

  predicate NoneAreVariants(ws: Writers)
    decreases ws
  {
    ws.More? ==> NoVariants(ws.head) && NoneAreVariants(ws.tail)
  }

  /** Marking the groups of a typed value makes exactly them REQUIRED, however deep, and nothing else. */
  lemma {:induction false} MarkedTyped(type_: Type, name: string, maxRepeat: nat, maxDefine: nat, w: Writer)
    requires maxDefine > 0 && Shreddable(type_)
    requires TypedValue(type_).Some?
    requires CreateWriter(TypedValue(type_).value, name, maxRepeat, maxDefine, true) == Some(w)
    ensures WriterOk(w, maxDefine - 1, maxRepeat)
    ensures NoVariants(MarkTyped(w, maxDefine - 1, maxRepeat))
    ensures SchemaOf(MarkTyped(w, maxDefine - 1, maxRepeat)) == ShreddedSchema(type_, name, REQUIRED)
    decreases type_, 0
  {
    CreatedOk(TypedValue(type_).value, name, maxRepeat, maxDefine, true);
    match type_
    case Struct(fields) => MarkedGroups(fields, maxRepeat, maxDefine + 1, w.children);
    case List(element) => MarkedElement(element, maxRepeat + 1, maxDefine + 2, w);
    case _ =>
  }

  lemma {:induction false} MarkedElement(element: Type, maxRepeat: nat, maxDefine: nat, w: Writer)
    requires maxDefine > 1 && maxRepeat > 0 && w.kind.ListWriter?
    requires element.Variant? || element.Null? || Shreddable(element)
    requires w.maxDefine + 2 == maxDefine && w.maxRepeat + 1 == maxRepeat
    requires w.children.More? && w.children == One(w.children.head)
    requires WritersOk(w.children, maxDefine - 1, maxRepeat, false)
    requires Group(element).Some?
    requires CreateWriter(Group(element).value, "element", maxRepeat, maxDefine, true) == Some(w.children.head)
    ensures NoneAreVariants(MarkGroups(w.children, maxDefine - 1, maxRepeat))
    ensures SchemaOf(w.(children := MarkGroups(w.children, maxDefine - 1, maxRepeat))) ==
            ListSchema(w.name, w.repetition, GroupSchema(element, "element", REQUIRED))
    decreases element, 2
  {
    var child := w.children.head;
    MarkedGroup(element, "element", maxRepeat, maxDefine, child);
    MarkLast(child, maxDefine - 1, maxRepeat);
    var marked := MarkGroup(child, maxDefine - 1, maxRepeat);
    SchemaOfList(w.(children := One(marked)), marked);
    assert NoneAreVariants(One(marked));
  }

  lemma MarkLast(w: Writer, optional: nat, repeated: nat)
    requires WriterOk(w, optional, repeated) && !w.repetition.REPEATED? && WritersOk(One(w), optional, repeated, false)
    ensures MarkGroups(One(w), optional, repeated) == One(MarkGroup(w, optional, repeated))
  {
  }

  lemma {:induction false} MarkedGroups(fields: Fields, maxRepeat: nat, maxDefine: nat, ws: Writers)
    requires maxDefine > 1 && AllGroups(fields)
    requires Groups(fields).Some? && CreateFields(Groups(fields).value, maxRepeat, maxDefine) == Some(ws)
    ensures WritersOk(ws, maxDefine - 1, maxRepeat, false)
    ensures NoneAreVariants(MarkGroups(ws, maxDefine - 1, maxRepeat))
    ensures SchemasOf(MarkGroups(ws, maxDefine - 1, maxRepeat)) == GroupSchemas(fields, REQUIRED)
    decreases fields, 2
  {
    FieldsOk(Groups(fields).value, maxRepeat, maxDefine);
    if fields.Field? {
      MarkedGroup(fields.fieldType, fields.name, maxRepeat, maxDefine, ws.head);
      MarkedGroups(fields.rest, maxRepeat, maxDefine, ws.tail);
    }
  }

  lemma {:induction false} MarkedGroup(type_: Type, name: string, maxRepeat: nat, maxDefine: nat, w: Writer)
    requires maxDefine > 1 && (type_.Variant? || type_.Null? || Shreddable(type_))
    requires Group(type_).Some? && CreateWriter(Group(type_).value, name, maxRepeat, maxDefine, true) == Some(w)
    ensures WriterOk(w, maxDefine - 1, maxRepeat) && w.repetition == OPTIONAL
    ensures NoVariants(MarkGroup(w, maxDefine - 1, maxRepeat))
    ensures SchemaOf(MarkGroup(w, maxDefine - 1, maxRepeat)) == GroupSchema(type_, name, REQUIRED)
    decreases type_, 1
  {
    GroupHoldsShredded(type_);
    MarkRequiredIsCreate(Group(type_).value, name, maxRepeat, maxDefine, w);
    var value := NewWriter(VALUE, LeafWriter, OPTIONAL, maxDefine, maxRepeat, NoWriters);
    assert NoneAreVariants(NoWriters) && NoVariants(value);
    var required := MarkRequired(w, maxDefine - 1, maxRepeat);
    if type_.Variant? || type_.Null? {
      GroupWriter(None, name, maxRepeat, maxDefine, false);
      MarkedValueAlone(required, value, maxDefine - 1, maxRepeat);
      SchemasOfFew(value, value);
      assert NoneAreVariants(One(value));
    } else {
      GroupWriter(TypedValue(type_), name, maxRepeat, maxDefine, false);
      var typed := required.children.tail.head;
      MarkedTyped(type_, TYPED_VALUE, maxRepeat, maxDefine, typed);
      var marked := MarkTyped(typed, maxDefine - 1, maxRepeat);
      MarkedBehindValue(required, value, typed, maxDefine - 1, maxRepeat);
      SchemasOfFew(value, marked);
      assert NoneAreVariants(One(marked)) && NoneAreVariants(More(value, One(marked)));
    }
  }

  lemma MarkedValueAlone(required: Writer, value: Writer, optional: nat, repeated: nat)
    requires required.maxDefine == optional && required.maxRepeat == repeated && required.children == One(value)
    requires value.name == VALUE && WritersOk(required.children, optional, repeated, false)
    ensures MarkNamed(required.children, optional, repeated) == One(value)
  {
    assert |VALUE| != |TYPED_VALUE|;
  }

  lemma MarkedBehindValue(required: Writer, value: Writer, typed: Writer, optional: nat, repeated: nat)
    requires required.maxDefine == optional && required.maxRepeat == repeated
    requires required.children == More(value, One(typed)) && value.name == VALUE && typed.name == TYPED_VALUE
    requires WritersOk(required.children, optional, repeated, false) && WriterOk(typed, optional, repeated)
    ensures MarkNamed(required.children, optional, repeated) == More(value, One(MarkTyped(typed, optional, repeated)))
  {
    assert |VALUE| != |TYPED_VALUE|;
    assert WritersOk(One(typed), optional, repeated, false);
    assert MarkNamed(One(typed), optional, repeated) == One(MarkTyped(typed, optional, repeated));
  }
  // ---------------------------------------------------------------- the schema that is written

  /** Without a VARIANT nothing is marked. */
  lemma {:induction false} FinalizeKeeps(w: Writer, optional: nat, repeated: nat)
    requires WriterOk(w, optional, repeated) && NoVariants(w)
    ensures SchemaOf(Finalize(w, optional, repeated)) == SchemaOf(w)
    decreases w
  {
    if w.kind.ListWriter? {
      FinalizeAllKeeps(w.children, w.maxDefine + 1, w.maxRepeat + 1, false);
    } else {
      FinalizeAllKeeps(w.children, w.maxDefine, w.maxRepeat, w.kind.MapWriter?);
    }
  }

  lemma {:induction false} FinalizeAllKeeps(ws: Writers, optional: nat, repeated: nat, inMap: bool)
    requires WritersOk(ws, optional, repeated, inMap) && NoneAreVariants(ws)
    ensures SchemasOf(FinalizeAll(ws, optional, repeated, inMap)) == SchemasOf(ws)
    decreases ws
  {
    if ws.More? {
      FinalizeKeeps(ws.head, optional, repeated);
      FinalizeAllKeeps(ws.tail, optional, repeated, inMap);
    }
  }

  lemma FinalizeFew(a: Writer, b: Writer, optional: nat, repeated: nat, inMap: bool)
    requires WritersOk(More(a, One(b)), optional, repeated, inMap)
    ensures WriterOk(a, optional, repeated) && WriterOk(b, optional, repeated)
    ensures WritersOk(One(b), optional, repeated, inMap)
    ensures FinalizeAll(One(b), optional, repeated, inMap) == One(Finalize(b, optional, repeated))
    ensures FinalizeAll(More(a, One(b)), optional, repeated, inMap) ==
            More(Finalize(a, optional, repeated), One(Finalize(b, optional, repeated)))
  {
    assert WritersOk(One(b), optional, repeated, inMap);
    assert FinalizeAll(One(b), optional, repeated, inMap) == One(Finalize(b, optional, repeated));
  }

  lemma FinalizeOne(w: Writer, optional: nat, repeated: nat, inMap: bool)
    requires WritersOk(One(w), optional, repeated, inMap)
    ensures WriterOk(w, optional, repeated)
    ensures FinalizeAll(One(w), optional, repeated, inMap) == One(Finalize(w, optional, repeated))
  {
  }

  /** The schema that is written is that of the type, with all groups of shredded values REQUIRED. */
  lemma {:induction false} WrittenSchema(type_: Type, name: string, maxRepeat: nat, maxDefine: nat, canHaveNulls: bool,
                                         w: Writer)
    requires maxDefine > 0 && CreateWriter(type_, name, maxRepeat, maxDefine, canHaveNulls) == Some(w)
    ensures Writable(type_) && WriterOk(w, maxDefine - 1, maxRepeat)
    ensures SchemaOf(Finalize(w, maxDefine - 1, maxRepeat)) ==
            TypeSchema(type_, name, if canHaveNulls then OPTIONAL else REQUIRED, REQUIRED)
    decreases type_, 1
  {
    CreatedSchema(type_, name, maxRepeat, maxDefine, canHaveNulls);
    CreatedOk(type_, name, maxRepeat, maxDefine, canHaveNulls);
    var define := if canHaveNulls then maxDefine else maxDefine - 1;
    match type_
    case Leaf =>
    case Null =>
    case Struct(fields) => WrittenFields(fields, maxRepeat, define + 1, w.children);
    case List(element) => WrittenElement(element, maxRepeat + 1, define + 2, w, maxDefine - 1);
    case Array(element) => WrittenElement(element, maxRepeat + 1, define + 2, w, maxDefine - 1);
    case Map(key, value) => WrittenMap(key, value, maxRepeat + 1, define + 2, w, maxDefine - 1);
    case Variant(shredding) =>
      VariantWriterOf(name, maxRepeat, maxDefine, canHaveNulls, shredding);
      WrittenVariant(shredding, maxRepeat, define + 1, w, maxDefine - 1);
  }

  /** So the columns that are written have the levels that the paths of the type's schema give them. */
  lemma WrittenColumns(type_: Type, name: string, canHaveNulls: bool, w: Writer)
    requires CreateWriter(type_, name, 0, 1, canHaveNulls) == Some(w)
    ensures WriterOk(w, 0, 0)
    ensures ColumnLevels(Finalize(w, 0, 0)) ==
            PathLevels(TypeSchema(type_, name, if canHaveNulls then OPTIONAL else REQUIRED, REQUIRED), 0, 0)
  {
    WrittenSchema(type_, name, 0, 1, canHaveNulls, w);
    FinalizedLevels(type_, name, canHaveNulls, w);
  }

  lemma {:induction false} WrittenFields(fields: Fields, maxRepeat: nat, maxDefine: nat, ws: Writers)
    requires maxDefine > 0 && CreateFields(fields, maxRepeat, maxDefine) == Some(ws)
    ensures WritersOk(ws, maxDefine - 1, maxRepeat, false)
    ensures SchemasOf(FinalizeAll(ws, maxDefine - 1, maxRepeat, false)) == FieldSchemas(fields, REQUIRED)
    decreases fields, 0
  {
    FieldsOk(fields, maxRepeat, maxDefine);
    if fields.Field? {
      WrittenSchema(fields.fieldType, fields.name, maxRepeat, maxDefine, true, ws.head);
      WrittenFields(fields.rest, maxRepeat, maxDefine, ws.tail);
    }
  }

  lemma {:induction false} WrittenElement(element: Type, maxRepeat: nat, maxDefine: nat, w: Writer, optional: nat)
    requires maxDefine > 1 && maxRepeat > 0 && w.kind.ListWriter? && WriterOk(w, optional, maxRepeat - 1)
    requires w.maxDefine + 2 == maxDefine && w.maxRepeat + 1 == maxRepeat
    requires w.children.More? && w.children.tail.NoWriters?
    requires CreateWriter(element, "element", maxRepeat, maxDefine, true) == Some(w.children.head)
    ensures SchemaOf(Finalize(w, optional, maxRepeat - 1)) ==
            ListSchema(w.name, w.repetition, TypeSchema(element, "element", OPTIONAL, REQUIRED))
    decreases element, 2
  {
    var child := w.children.head;
    WrittenSchema(element, "element", maxRepeat, maxDefine, true, child);
    FinalizeOne(child, maxDefine - 1, maxRepeat, false);
    var final := Finalize(child, maxDefine - 1, maxRepeat);
    assert Finalize(w, optional, maxRepeat - 1) == w.(children := One(final));
    SchemaOfList(w.(children := One(final)), final);
  }

  /** The writers of a map's keys and values are finalized one by one. */
  lemma FinalizeMap(w: Writer, optional: nat, repeated: nat, k: Writer, v: Writer) returns (k1: Writer, v1: Writer)
    requires w.kind.MapWriter? && WriterOk(w, optional, repeated)
    requires w.children.More? && w.children == One(w.children.head) && w.children.head.kind.StructWriter?
    requires w.children.head.children == More(k, One(v))
    ensures WriterOk(k, w.maxDefine + 1, w.maxRepeat + 1) && k1 == Finalize(k, w.maxDefine + 1, w.maxRepeat + 1)
    ensures WriterOk(v, w.maxDefine + 1, w.maxRepeat + 1) && v1 == Finalize(v, w.maxDefine + 1, w.maxRepeat + 1)
    ensures Finalize(w, optional, repeated) ==
            w.(children := One(w.children.head.(children := More(k1, One(v1)))))
  {
    var keyValue := w.children.head;
    FinalizeOne(keyValue, w.maxDefine, w.maxRepeat, true);
    FinalizeFew(k, v, w.maxDefine + 1, w.maxRepeat + 1, false);
    k1, v1 := Finalize(k, w.maxDefine + 1, w.maxRepeat + 1), Finalize(v, w.maxDefine + 1, w.maxRepeat + 1);
  }

  lemma {:induction false} WrittenMap(key: Type, value: Type, maxRepeat: nat, maxDefine: nat, w: Writer, optional: nat)
    requires maxDefine > 1 && maxRepeat > 0 && w.kind.MapWriter? && WriterOk(w, optional, maxRepeat - 1)
    requires w.maxDefine + 2 == maxDefine && w.maxRepeat + 1 == maxRepeat
    requires w.children.More? && w.children == One(w.children.head) && w.children.head.kind.StructWriter?
    requires w.children.head.name == "key_value" && w.children.head.repetition == REPEATED
    requires w.children.head.children.More? && w.children.head.children.tail.More?
    requires w.children.head.children.tail.tail.NoWriters?
    requires CreateWriter(key, "key", maxRepeat, maxDefine, false) == Some(w.children.head.children.head)
    requires CreateWriter(value, "value", maxRepeat, maxDefine, true) == Some(w.children.head.children.tail.head)
    ensures SchemaOf(Finalize(w, optional, maxRepeat - 1)) ==
            Node(w.name, w.repetition,
                 OneSchema(Node("key_value", REPEATED,
                                Schemas(TypeSchema(key, "key", REQUIRED, REQUIRED),
                                        OneSchema(TypeSchema(value, "value", OPTIONAL, REQUIRED))))))
    decreases Map(key, value), 0
  {
    var keyValue := w.children.head;
    var k, v := keyValue.children.head, keyValue.children.tail.head;
    WrittenSchema(key, "key", maxRepeat, maxDefine, false, k);
    WrittenSchema(value, "value", maxRepeat, maxDefine, true, v);
    var k1, v1 := FinalizeMap(w, optional, maxRepeat - 1, k, v);
    var final := keyValue.(children := More(k1, One(v1)));
    SchemaOfMap(w.(children := One(final)), k1, v1);
  }

  lemma WrittenVariant(shredding: Option<Type>, maxRepeat: nat, maxDefine: nat, w: Writer, optional: nat)
    requires maxDefine > 0 && w.kind.VariantWriter? && WriterOk(w, optional, maxRepeat)
    requires w.maxDefine + 1 == maxDefine && w.maxRepeat == maxRepeat
    requires VariantChildren(shredding, maxRepeat, maxDefine) == Some(w.children)
    requires Writable(Variant(shredding))
    ensures SchemaOf(Finalize(w, optional, maxRepeat)) == TypeSchema(Variant(shredding), w.name, w.repetition, REQUIRED)
  {
    if IsUnshredded(shredding) {
      WrittenUnshredded(w, LeafOf("metadata", maxRepeat, maxDefine, false), LeafOf(VALUE, maxRepeat, maxDefine, false),
                        optional);
    } else {
      var typed := w.children.tail.tail.head;
      MarkedTyped(shredding.value, TYPED_VALUE, maxRepeat, maxDefine, typed);
      WrittenShredded(w, LeafOf("metadata", maxRepeat, maxDefine, false), LeafOf(VALUE, maxRepeat, maxDefine, true),
                      typed, optional);
    }
  }

  lemma FinalizeLeaf(w: Writer, optional: nat, repeated: nat)
    requires WriterOk(w, optional, repeated) && w.kind.LeafWriter?
    ensures Finalize(w, optional, repeated) == w && SchemaOf(w) == LeafSchema(w.name, w.repetition)
  {
    assert w.children == NoWriters;
  }

  lemma WrittenUnshredded(w: Writer, metadata: Writer, value: Writer, optional: nat)
    requires w.kind.VariantWriter? && WriterOk(w, optional, w.maxRepeat) && w.children == More(metadata, One(value))
    requires metadata.kind.LeafWriter? && metadata.name == "metadata" && value.kind.LeafWriter? && value.name == VALUE
    ensures SchemaOf(Finalize(w, optional, w.maxRepeat)) ==
            Node(w.name, w.repetition,
                 Schemas(LeafSchema("metadata", metadata.repetition), OneSchema(LeafSchema("value", value.repetition))))
  {
    assert |"metadata"| != |TYPED_VALUE| && |VALUE| != |TYPED_VALUE|;
    FinalizeFew(metadata, value, w.maxDefine, w.maxRepeat, false);
    assert MarkNamed(One(value), w.maxDefine, w.maxRepeat) == One(value);
    FinalizeLeaf(metadata, w.maxDefine, w.maxRepeat);
    FinalizeLeaf(value, w.maxDefine, w.maxRepeat);
    SchemasOfFew(metadata, value);
  }

  lemma MarkedVariant(metadata: Writer, value: Writer, typed: Writer, define: nat, repeated: nat)
    requires WritersOk(More(metadata, More(value, One(typed))), define, repeated, false)
    requires metadata.name == "metadata" && value.name == VALUE && typed.name == TYPED_VALUE
    ensures WriterOk(metadata, define, repeated)
    ensures WriterOk(value, define, repeated) && WriterOk(typed, define, repeated)
    ensures MarkNamed(More(metadata, More(value, One(typed))), define, repeated) ==
            More(metadata, More(value, One(MarkTyped(typed, define, repeated))))
  {
    assert |"metadata"| != |TYPED_VALUE| && |VALUE| != |TYPED_VALUE|;
    assert WritersOk(More(value, One(typed)), define, repeated, false);
    assert WritersOk(One(typed), define, repeated, false);
    assert MarkNamed(One(typed), define, repeated) == One(MarkTyped(typed, define, repeated));
    assert MarkNamed(More(value, One(typed)), define, repeated) == More(value, One(MarkTyped(typed, define, repeated)));
  }

  lemma FinalizeThree(a: Writer, b: Writer, c: Writer, define: nat, repeated: nat)
    requires WritersOk(More(a, More(b, One(c))), define, repeated, false)
    requires a.kind.LeafWriter? && b.kind.LeafWriter?
    ensures WriterOk(c, define, repeated)
    ensures FinalizeAll(More(a, More(b, One(c))), define, repeated, false) ==
            More(a, More(b, One(Finalize(c, define, repeated))))
  {
    assert WritersOk(More(b, One(c)), define, repeated, false);
    FinalizeFew(b, c, define, repeated, false);
    FinalizeLeaf(a, define, repeated);
    FinalizeLeaf(b, define, repeated);
  }

  lemma WrittenShredded(w: Writer, metadata: Writer, value: Writer, typed: Writer, optional: nat)
    requires w.kind.VariantWriter? && WriterOk(w, optional, w.maxRepeat)
    requires w.children == More(metadata, More(value, One(typed))) && WriterOk(typed, w.maxDefine, w.maxRepeat)
    requires metadata.kind.LeafWriter? && metadata.name == "metadata" && value.kind.LeafWriter? && value.name == VALUE
    requires typed.name == TYPED_VALUE && NoVariants(MarkTyped(typed, w.maxDefine, w.maxRepeat))
    ensures SchemaOf(Finalize(w, optional, w.maxRepeat)) ==
            Node(w.name, w.repetition,
                 Schemas(LeafSchema("metadata", metadata.repetition),
                         Schemas(LeafSchema("value", value.repetition),
                                 OneSchema(SchemaOf(MarkTyped(typed, w.maxDefine, w.maxRepeat))))))
  {
    MarkedVariant(metadata, value, typed, w.maxDefine, w.maxRepeat);
    var marked := MarkTyped(typed, w.maxDefine, w.maxRepeat);
    FinalizeThree(metadata, value, marked, w.maxDefine, w.maxRepeat);
    FinalizeKeeps(marked, w.maxDefine, w.maxRepeat);
    var final := Finalize(marked, w.maxDefine, w.maxRepeat);
    FinalizeLeaf(metadata, w.maxDefine, w.maxRepeat);
    FinalizeLeaf(value, w.maxDefine, w.maxRepeat);
    SchemasOfFew(value, final);
    assert SchemasOf(More(metadata, More(value, One(final)))) ==
           Schemas(SchemaOf(metadata), SchemasOf(More(value, One(final))));
  }
}
