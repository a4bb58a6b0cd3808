/** Writing and reading OpenAPI records: what survives, for every record. */
module OpenApiProof {
  import opened Options
  import opened JsonKeys
  import opened JsonTree
  import opened OpenApi

  // ----- schemas -----

  /** The place of each key among the members of a schema. */
  ghost function Place(k: Key): int {
    match k
    case KType => 0 case KFormat => 1 case KTitle => 2 case KDescription => 3 case KDefault => 4 case KExample => 5
    case KEnum => 6 case KRequired => 7 case KProperties => 8 case KItems => 9 case KMinimum => 10 case KMaximum => 11
    case KMinLength => 12 case KMaxLength => 13 case KPattern => 14 case KNullable => 15 case KReadOnly => 16 case KWriteOnly => 17
    case _ => -1
  }

  lemma SchemaDistinct(s: Schema, p: Fields, i: Option<Json>)
    ensures DistinctKeys(SchemaRows(s, p, i)) && |SchemaRows(s, p, i)| == 18
  {
    SchemaPlaces(s, p, i);
    hide Place, SchemaRows;
  }

  lemma SchemaPlaces(s: Schema, p: Fields, i: Option<Json>)
    ensures var rows := SchemaRows(s, p, i); |rows| == 18 && forall n :: 0 <= n < 18 ==> Place(rows[n].key) == n
  {
    hide Texts, At, ObjectOf, DistinctKeys;
  }

  ghost function SchemaObject(s: Schema, p: Fields, i: Option<Json>): Json {
    Obj(ObjectOf(SchemaRows(s, p, i)))
  }

  // Reading the flat part of a schema back, six members at a time.

  lemma SchemaTexts(s: Schema, p: Fields, i: Option<Json>)
    ensures var j := SchemaObject(s, p, i);
            && TextAt(j, KType) == s.schemaType && TextAt(j, KFormat) == s.format && TextAt(j, KTitle) == s.title
            && TextAt(j, KDescription) == s.description && TextAt(j, KDefault) == s.defaultVal && TextAt(j, KExample) == s.example
  {
    hide ObjectOf, At, DistinctKeys, Place;
    var rows := SchemaRows(s, p, i);
    SchemaDistinct(s, p, i);
    RowAt(rows, 0);
    RowAt(rows, 1);
    RowAt(rows, 2);
    RowAt(rows, 3);
    RowAt(rows, 4);
    RowAt(rows, 5);
  }

  lemma SchemaParts(s: Schema, p: Fields, i: Option<Json>)
    ensures var j := SchemaObject(s, p, i);
            && TextsOf(ElementsAt(j, KEnum)) == s.enumValues && TextsOf(ElementsAt(j, KRequired)) == s.required
            && FieldsAt(j, KProperties) == (if |s.properties| != 0 then p else map[])
            && At(j, KItems) == i
            && NumberAt(j, KMinimum) == s.minimum && NumberAt(j, KMaximum) == s.maximum
  {
    hide ObjectOf, At, DistinctKeys, Place, TextsOf, Texts;
    var rows := SchemaRows(s, p, i);
    SchemaDistinct(s, p, i);
    TextsBack(s.enumValues);
    TextsBack(s.required);
    RowAt(rows, 6);
    RowAt(rows, 7);
    RowAt(rows, 8);
    RowAt(rows, 9);
    RowAt(rows, 10);
    RowAt(rows, 11);
  }

  lemma SchemaFlags(s: Schema, p: Fields, i: Option<Json>)
    ensures var j := SchemaObject(s, p, i);
            && WholeAt(j, KMinLength) == s.minLength && WholeAt(j, KMaxLength) == s.maxLength && TextAt(j, KPattern) == s.pattern
            && FlagAt(j, KNullable) == s.nullable && FlagAt(j, KReadOnly) == s.readOnly && FlagAt(j, KWriteOnly) == s.writeOnly
            && TextAt(j, KRef) == ""
  {
    hide ObjectOf, At, DistinctKeys, Place;
    var rows := SchemaRows(s, p, i);
    SchemaDistinct(s, p, i);
    RowAt(rows, 12);
    RowAt(rows, 13);
    RowAt(rows, 14);
    RowAt(rows, 15);
    RowAt(rows, 16);
    RowAt(rows, 17);
    NoRef(s, p, i);
  }

  lemma NoRef(s: Schema, p: Fields, i: Option<Json>)
    ensures At(SchemaObject(s, p, i), KRef) == None
  {
    hide ObjectOf, At;
    AbsentKey(SchemaRows(s, p, i), KRef);
  }

  // The parts of a schema, converted.

  ghost function PropertiesTo(s: Schema): Fields {
    map k | k in s.properties :: SchemaTo(s.properties[k])
  }

  ghost function ItemsTo(s: Schema): Option<Json> {
    if s.items.Some? then Some(SchemaTo(s.items.value)) else None
  }

  lemma SchemaToIs(s: Schema)
    requires s.ref == ""
    ensures SchemaTo(s) == SchemaObject(s, PropertiesTo(s), ItemsTo(s))
  {
    hide SchemaRows, ObjectOf;
  }

  lemma TrimIs(s: Schema)
    requires s.ref == ""
    ensures SchemaTrim(s) == s.(properties := SchemaTrim(s).properties, items := SchemaTrim(s).items)
    ensures SchemaTrim(s).properties.Keys == s.properties.Keys
    ensures forall k :: k in s.properties ==> SchemaTrim(s).properties[k] == SchemaTrim(s.properties[k])
    ensures SchemaTrim(s).items == if s.items.Some? then Some(SchemaTrim(s.items.value)) else None
  {
  }

  lemma FromIs(j: Json)
    ensures var (s, i) := (SchemaFrom(j), At(j, KItems));
            && s.schemaType == TextAt(j, KType) && s.format == TextAt(j, KFormat) && s.title == TextAt(j, KTitle)
            && s.description == TextAt(j, KDescription) && s.defaultVal == TextAt(j, KDefault) && s.example == TextAt(j, KExample)
            && s.enumValues == TextsOf(ElementsAt(j, KEnum)) && s.required == TextsOf(ElementsAt(j, KRequired))
            && s.properties.Keys == FieldsAt(j, KProperties).Keys
            && (forall k :: k in s.properties ==> s.properties[k] == SchemaFrom(FieldsAt(j, KProperties)[k]))
            && s.items == (if i.Some? then Some(SchemaFrom(i.value)) else None)
            && s.minimum == NumberAt(j, KMinimum) && s.maximum == NumberAt(j, KMaximum)
            && s.minLength == WholeAt(j, KMinLength) && s.maxLength == WholeAt(j, KMaxLength) && s.pattern == TextAt(j, KPattern)
            && s.nullable == FlagAt(j, KNullable) && s.readOnly == FlagAt(j, KReadOnly) && s.writeOnly == FlagAt(j, KWriteOnly)
            && s.ref == TextAt(j, KRef)
  {
    hide At, TextAt, TextsOf, ElementsAt, FieldsAt, NumberAt, WholeAt, FlagAt;
  }

  /** Reading a schema that was written gives its trimmed form. */
  lemma {:induction false} SchemaBack(s: Schema)
    ensures SchemaFrom(SchemaTo(s)) == SchemaTrim(s)
    decreases s
  {
    if s.ref != "" {
      RefBack(s);
    } else {
      forall k | k in s.properties ensures SchemaFrom(SchemaTo(s.properties[k])) == SchemaTrim(s.properties[k]) {
        SchemaBack(s.properties[k]);
      }
      if s.items.Some? {
        SchemaBack(s.items.value);
      }
      WholeBack(s);
    }
  }

  /** Everything but properties and items is read as it was. */
  lemma FlatBack(s: Schema, p: Fields, i: Option<Json>)
    requires s.ref == ""
    ensures var f := SchemaFrom(SchemaObject(s, p, i)); f == s.(properties := f.properties, items := f.items)
  {
    hide At, TextAt, TextsOf, ElementsAt, FieldsAt, NumberAt, WholeAt, FlagAt, SchemaFrom, SchemaObject;
    FromIs(SchemaObject(s, p, i));
    SchemaTexts(s, p, i);
    SchemaParts(s, p, i);
    SchemaFlags(s, p, i);
  }

  lemma NestedBack(s: Schema, p: Fields, i: Option<Json>)
    requires |p| == |s.properties|
    ensures var f := SchemaFrom(SchemaObject(s, p, i));
            && f.properties == (map k | k in p :: SchemaFrom(p[k]))
            && f.items == if i.Some? then Some(SchemaFrom(i.value)) else None
  {
    hide At, TextAt, TextsOf, ElementsAt, FieldsAt, NumberAt, WholeAt, FlagAt, SchemaFrom, SchemaObject;
    FromIs(SchemaObject(s, p, i));
    SchemaParts(s, p, i);
    assert |s.properties| == 0 ==> p == map[];
  }

  lemma WholeBack(s: Schema)
    requires s.ref == ""
    requires forall k :: k in s.properties ==> SchemaFrom(SchemaTo(s.properties[k])) == SchemaTrim(s.properties[k])
    requires s.items.Some? ==> SchemaFrom(SchemaTo(s.items.value)) == SchemaTrim(s.items.value)
    ensures SchemaFrom(SchemaTo(s)) == SchemaTrim(s)
  {
    hide SchemaFrom, SchemaTo, SchemaTrim, SchemaObject;
    var (p, i) := (PropertiesTo(s), ItemsTo(s));
    SchemaToIs(s);
    TrimIs(s);
    FlatBack(s, p, i);
    SameSize(s.properties, p);
    NestedBack(s, p, i);
    var (f, t) := (SchemaFrom(SchemaTo(s)), SchemaTrim(s));
    SameValues(f.properties, t.properties);
    SameSchema(s, f, t);
  }

  lemma SameValues<V>(m: map<string, V>, n: map<string, V>)
    requires m.Keys == n.Keys && forall k :: k in m ==> m[k] == n[k]
    ensures m == n
  {
  }

  lemma SameSchema(s: Schema, f: Schema, t: Schema)
    requires f == s.(properties := f.properties, items := f.items) && t == s.(properties := t.properties, items := t.items)
    requires f.properties == t.properties && f.items == t.items
    ensures f == t
  {
  }

  lemma RefBack(s: Schema)
    requires s.ref != ""
    ensures SchemaFrom(SchemaTo(s)) == SchemaTrim(s)
  {
    hide ObjectOf, At, SchemaFrom;
    var rows := RefRows(s);
    var j := SchemaTo(s);
    forall k | k != KRef ensures At(j, k) == None {
      AbsentKey(rows, k);
    }
    RowAt(rows, 0);
    NothingRead(j);
  }

  lemma Absent(j: Json, k: Key)
    requires At(j, k) == None
    ensures TextAt(j, k) == "" && NumberAt(j, k) == 0.0 && WholeAt(j, k) == 0 && !FlagAt(j, k)
    ensures FieldsAt(j, k) == map[] && ElementsAt(j, k) == []
  {
  }

  lemma NothingRead(j: Json)
    requires forall k :: k != KRef ==> At(j, k) == None
    ensures SchemaFrom(j) == NO_SCHEMA.(ref := TextAt(j, KRef))
  {
    hide At, TextAt, TextsOf, ElementsAt, FieldsAt, NumberAt, WholeAt, FlagAt, SchemaFrom;
    FromIs(j);
    TextsBack([]);
    forall k | k != KRef
      ensures TextAt(j, k) == "" && NumberAt(j, k) == 0.0 && WholeAt(j, k) == 0 && !FlagAt(j, k)
      ensures FieldsAt(j, k) == map[] && ElementsAt(j, k) == []
    {
      Absent(j, k);
    }
    assert At(j, KItems) == None;
    assert SchemaFrom(j).properties == map[];
  }

  /** Trimming changes nothing in what is written. */
  lemma {:induction false} SchemaSame(s: Schema)
    ensures SchemaTo(SchemaTrim(s)) == SchemaTo(s)
    decreases s
  {
    hide SchemaRows, ObjectOf;
    if s.ref == "" {
      forall k | k in s.properties ensures SchemaTo(SchemaTrim(s.properties[k])) == SchemaTo(s.properties[k]) {
        SchemaSame(s.properties[k]);
      }
      if s.items.Some? {
        SchemaSame(s.items.value);
      }
      WholeSame(s);
    }
  }

  lemma WholeSame(s: Schema)
    requires s.ref == ""
    requires forall k :: k in s.properties ==> SchemaTo(SchemaTrim(s.properties[k])) == SchemaTo(s.properties[k])
    requires s.items.Some? ==> SchemaTo(SchemaTrim(s.items.value)) == SchemaTo(s.items.value)
    ensures SchemaTo(SchemaTrim(s)) == SchemaTo(s)
  {
    hide SchemaTo, SchemaTrim, ObjectOf, SchemaRows;
    var t := SchemaTrim(s);
    TrimIs(s);
    SchemaToIs(s);
    SchemaToIs(t);
    SameSize(s.properties, t.properties);
    assert PropertiesTo(t) == PropertiesTo(s);
    RowsSame(s, t, PropertiesTo(s), ItemsTo(s));
  }

  lemma RowsSame(s: Schema, t: Schema, p: Fields, i: Option<Json>)
    requires t == s.(properties := t.properties, items := t.items) && |t.properties| == |s.properties|
    ensures SchemaRows(t, p, i) == SchemaRows(s, p, i)
  {
  }

  // ----- the recursion with its loops -----

  /** to_json: the loop over the properties calls it again. */
  method SchemaToJson(s: Schema) returns (j: Json)
    ensures j == SchemaTo(s)
    decreases s
  {
    hide SchemaTo, SchemaRows, ObjectOf;
    if s.ref != "" {
      RefToIs(s);
      return Obj(ObjectOf(RefRows(s)));
    }
    var props: Fields := map[];
    var left := s.properties.Keys;
    while left != {}
      invariant left <= s.properties.Keys && props.Keys == s.properties.Keys - left
      invariant forall k :: k in props ==> props[k] == SchemaTo(s.properties[k])
      decreases |left|
    {
      var key :| key in left;
      var value := SchemaToJson(s.properties[key]);
      props := props[key := value];
      left := left - {key};
    }
    SameValues(props, PropertiesTo(s));
    var items := None;
    if s.items.Some? {
      var value := SchemaToJson(s.items.value);
      items := Some(value);
    }
    SchemaToIs(s);
    j := Obj(ObjectOf(SchemaRows(s, props, items)));
  }

  lemma RefToIs(s: Schema)
    requires s.ref != ""
    ensures SchemaTo(s) == Obj(ObjectOf(RefRows(s)))
  {
  }

  /** The loop over the properties in openapi_schema_from_json_impl. */
  method PropertiesFromJson(j: Json) returns (props: map<string, Schema>)
    ensures props.Keys == FieldsAt(j, KProperties).Keys
    ensures forall k :: k in props ==> props[k] == SchemaFrom(FieldsAt(j, KProperties)[k])
    decreases j, 0
  {
    hide SchemaFrom, FieldsAt;
    var propsObj := FieldsAt(j, KProperties);
    props := map[];
    var left := propsObj.Keys;
    while left != {}
      invariant left <= propsObj.Keys && props.Keys == propsObj.Keys - left
      invariant forall k :: k in props ==> props[k] == SchemaFrom(propsObj[k])
      decreases |left|
    {
      var key :| key in left;
      var value := SchemaFromJson(propsObj[key]);
      props := props[key := value];
      left := left - {key};
    }
  }

  method ItemsFromJson(j: Json) returns (items: Option<Schema>)
    ensures items == if At(j, KItems).Some? then Some(SchemaFrom(At(j, KItems).value)) else None
    decreases j, 0
  {
    hide SchemaFrom, At;
    items := None;
    if At(j, KItems).Some? {
      var value := SchemaFromJson(At(j, KItems).value);
      items := Some(value);
    }
  }

  /** openapi_schema_from_json_impl */
  method SchemaFromJson(j: Json) returns (s: Schema)
    ensures s == SchemaFrom(j)
    decreases j, 1
  {
    hide *;
    var props := PropertiesFromJson(j);
    var enumVals := FillArray(ElementsAt(j, KEnum), TextOf);
    var required := FillArray(ElementsAt(j, KRequired), TextOf);
    var items := ItemsFromJson(j);
    s := Schema(TextAt(j, KType), TextAt(j, KFormat), TextAt(j, KTitle), TextAt(j, KDescription), TextAt(j, KDefault),
                TextAt(j, KExample), enumVals, required, props, items, NumberAt(j, KMinimum), NumberAt(j, KMaximum),
                WholeAt(j, KMinLength), WholeAt(j, KMaxLength), TextAt(j, KPattern), FlagAt(j, KNullable),
                FlagAt(j, KReadOnly), FlagAt(j, KWriteOnly), TextAt(j, KRef));
    FromIs(j);
    TextsOfIs(ElementsAt(j, KEnum));
    TextsOfIs(ElementsAt(j, KRequired));
    SameValues(props, SchemaFrom(j).properties);
  }

  lemma TextsOfIs(a: seq<Json>)
    ensures TextsOf(a) == SeqOver(a, TextOf)
  {
  }
}
