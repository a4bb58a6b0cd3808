/** What is read from any JSON for every OpenAPI record, member by member (openapi.v). */
module OpenApiRead {
  import opened Options
  import opened JsonKeys
  import opened JsonTree
  import opened OpenApi
  import opened OpenApiNames

  function TextUnder(j: Json, name: string): string {
    match Under(j, name)
    case Some(Str(t)) => t
    case _ => ""
  }

  function NumberUnder(j: Json, name: string): real {
    match Under(j, name)
    case Some(Number(x)) => x
    case _ => 0.0
  }

  function WholeUnder(j: Json, name: string): int {
    match Under(j, name)
    case Some(Whole(x)) => x
    case _ => 0
  }

  function FlagUnder(j: Json, name: string): bool {
    match Under(j, name)
    case Some(Flag(b)) => b
    case _ => false
  }

  function FieldsUnder(j: Json, name: string): Fields {
    match Under(j, name)
    case Some(Obj(o)) => o
    case _ => map[]
  }

  function ElementsUnder(j: Json, name: string): seq<Json> {
    match Under(j, name)
    case Some(Arr(a)) => a
    case _ => []
  }

  lemma AtIs(j: Json)
    ensures forall k :: At(j, k) == Under(j, Text(k))
    ensures forall k :: TextAt(j, k) == TextUnder(j, Text(k)) && NumberAt(j, k) == NumberUnder(j, Text(k))
    ensures forall k :: WholeAt(j, k) == WholeUnder(j, Text(k)) && FlagAt(j, k) == FlagUnder(j, Text(k))
    ensures forall k :: FieldsAt(j, k) == FieldsUnder(j, Text(k)) && ElementsAt(j, k) == ElementsUnder(j, Text(k))
  {
    hide Text;
  }

  lemma ContactRead(j: Json)
    ensures var c := ContactFrom(j);
            && c.name == TextUnder(j, "name")
            && c.url == TextUnder(j, "url")
            && c.email == TextUnder(j, "email")
  {
    hide Text, Under, At;
    hide TextAt, NumberAt, WholeAt, FlagAt, FieldsAt, ElementsAt;
    hide TextUnder, NumberUnder, WholeUnder, FlagUnder, FieldsUnder, ElementsUnder;
    Names();
    AtIs(j);
  }

  lemma LicenseRead(j: Json)
    ensures var l := LicenseFrom(j);
            && l.name == TextUnder(j, "name")
            && l.url == TextUnder(j, "url")
  {
    hide Text, Under, At;
    hide TextAt, NumberAt, WholeAt, FlagAt, FieldsAt, ElementsAt;
    hide TextUnder, NumberUnder, WholeUnder, FlagUnder, FieldsUnder, ElementsUnder;
    Names();
    AtIs(j);
  }

  lemma InfoRead(j: Json)
    ensures var i := InfoFrom(j);
            && i.title == TextUnder(j, "title")
            && i.version == TextUnder(j, "version")
            && i.description == TextUnder(j, "description")
            && i.termsOfService == TextUnder(j, "termsOfService")
            && i.contact == (if Under(j, "contact").Some? then ContactFrom(Under(j, "contact").value) else Contact("", "", ""))
            && i.license == (if Under(j, "license").Some? then LicenseFrom(Under(j, "license").value) else License("", ""))
  {
    hide Text, Under, At;
    hide TextAt, NumberAt, WholeAt, FlagAt, FieldsAt, ElementsAt;
    hide TextUnder, NumberUnder, WholeUnder, FlagUnder, FieldsUnder, ElementsUnder;
    hide ContactFrom, LicenseFrom;
    Names();
    AtIs(j);
  }

  lemma LinkRead(j: Json)
    ensures var l := LinkFrom(j);
            && l.url == TextUnder(j, "url")
            && l.description == TextUnder(j, "description")
  {
    hide Text, Under, At;
    hide TextAt, NumberAt, WholeAt, FlagAt, FieldsAt, ElementsAt;
    hide TextUnder, NumberUnder, WholeUnder, FlagUnder, FieldsUnder, ElementsUnder;
    Names();
    AtIs(j);
  }

  lemma TagRead(j: Json)
    ensures var t := TagFrom(j);
            && t.name == TextUnder(j, "name")
            && t.description == TextUnder(j, "description")
            && t.externalDocs == (if Under(j, "externalDocs").Some? then LinkFrom(Under(j, "externalDocs").value) else Link("", ""))
  {
    hide Text, Under, At;
    hide TextAt, NumberAt, WholeAt, FlagAt, FieldsAt, ElementsAt;
    hide TextUnder, NumberUnder, WholeUnder, FlagUnder, FieldsUnder, ElementsUnder;
    hide LinkFrom;
    Names();
    AtIs(j);
  }

  lemma HeaderRead(j: Json)
    ensures var h := HeaderFrom(j);
            && h.description == TextUnder(j, "description")
            && h.required == FlagUnder(j, "required")
            && h.schema == (if Under(j, "schema").Some? then SchemaFrom(Under(j, "schema").value) else NO_SCHEMA)
  {
    hide Text, Under, At;
    hide TextAt, NumberAt, WholeAt, FlagAt, FieldsAt, ElementsAt;
    hide TextUnder, NumberUnder, WholeUnder, FlagUnder, FieldsUnder, ElementsUnder;
    hide SchemaFrom;
    Names();
    AtIs(j);
  }

  lemma MediaTypeRead(j: Json)
    ensures var m := MediaTypeFrom(j);
            && m.schema == (if Under(j, "schema").Some? then SchemaFrom(Under(j, "schema").value) else NO_SCHEMA)
            && m.example == TextUnder(j, "example")
  {
    hide Text, Under, At;
    hide TextAt, NumberAt, WholeAt, FlagAt, FieldsAt, ElementsAt;
    hide TextUnder, NumberUnder, WholeUnder, FlagUnder, FieldsUnder, ElementsUnder;
    hide SchemaFrom;
    Names();
    AtIs(j);
  }

  lemma ResponseRead(j: Json)
    ensures var r := ResponseFrom(j);
            && r.description == TextUnder(j, "description")
            && r.headers == MapOver(FieldsUnder(j, "headers"), HeaderFrom)
            && r.content == MapOver(FieldsUnder(j, "content"), MediaTypeFrom)
  {
    hide Text, Under, At;
    hide TextAt, NumberAt, WholeAt, FlagAt, FieldsAt, ElementsAt;
    hide TextUnder, NumberUnder, WholeUnder, FlagUnder, FieldsUnder, ElementsUnder;
    hide HeaderFrom, MediaTypeFrom, MapOver;
    Names();
    AtIs(j);
  }

  lemma RequestBodyRead(j: Json)
    ensures var b := BodyFrom(j);
            && b.description == TextUnder(j, "description")
            && b.content == MapOver(FieldsUnder(j, "content"), MediaTypeFrom)
            && b.required == FlagUnder(j, "required")
  {
    hide Text, Under, At;
    hide TextAt, NumberAt, WholeAt, FlagAt, FieldsAt, ElementsAt;
    hide TextUnder, NumberUnder, WholeUnder, FlagUnder, FieldsUnder, ElementsUnder;
    hide MediaTypeFrom, MapOver;
    Names();
    AtIs(j);
  }

  lemma ParameterRead(j: Json)
    ensures var p := ParameterFrom(j);
            && p.name == TextUnder(j, "name")
            && p.inLocation == TextUnder(j, "in")
            && p.description == TextUnder(j, "description")
            && p.required == FlagUnder(j, "required")
            && p.deprecated == FlagUnder(j, "deprecated")
            && p.schema == (if Under(j, "schema").Some? then SchemaFrom(Under(j, "schema").value) else NO_SCHEMA)
            && p.example == TextUnder(j, "example")
  {
    hide Text, Under, At;
    hide TextAt, NumberAt, WholeAt, FlagAt, FieldsAt, ElementsAt;
    hide TextUnder, NumberUnder, WholeUnder, FlagUnder, FieldsUnder, ElementsUnder;
    hide SchemaFrom;
    Names();
    AtIs(j);
  }

  lemma OperationRead(j: Json)
    ensures var o := OperationFrom(j);
            && o.summary == TextUnder(j, "summary")
            && o.description == TextUnder(j, "description")
            && o.operationId == TextUnder(j, "operationId")
            && o.tags == TextsOf(ElementsUnder(j, "tags"))
            && o.parameters == SeqOver(ElementsUnder(j, "parameters"), ParameterFrom)
            && o.requestBody == (if Under(j, "requestBody").Some? then BodyFrom(Under(j, "requestBody").value) else NO_BODY)
            && o.responses == MapOver(FieldsUnder(j, "responses"), ResponseFrom)
            && o.deprecated == FlagUnder(j, "deprecated")
            && o.security == SeqOver(ElementsUnder(j, "security"), RequirementFrom)
  {
    hide Text, Under, At;
    hide TextAt, NumberAt, WholeAt, FlagAt, FieldsAt, ElementsAt;
    hide TextUnder, NumberUnder, WholeUnder, FlagUnder, FieldsUnder, ElementsUnder;
    hide ResponseFrom, BodyFrom, ParameterFrom, RequirementFrom, MapOver, SeqOver, TextsOf;
    Names();
    AtIs(j);
  }

  lemma PathItemRead(j: Json)
    ensures var p := PathItemFrom(j);
            && p.summary == TextUnder(j, "summary")
            && p.description == TextUnder(j, "description")
            && p.parameters == SeqOver(ElementsUnder(j, "parameters"), ParameterFrom)
            && p.get == (if Under(j, "get").Some? then OperationFrom(Under(j, "get").value) else NO_OPERATION)
            && p.post == (if Under(j, "post").Some? then OperationFrom(Under(j, "post").value) else NO_OPERATION)
            && p.put == (if Under(j, "put").Some? then OperationFrom(Under(j, "put").value) else NO_OPERATION)
            && p.delete == (if Under(j, "delete").Some? then OperationFrom(Under(j, "delete").value) else NO_OPERATION)
            && p.patch == (if Under(j, "patch").Some? then OperationFrom(Under(j, "patch").value) else NO_OPERATION)
            && p.head == (if Under(j, "head").Some? then OperationFrom(Under(j, "head").value) else NO_OPERATION)
            && p.options == (if Under(j, "options").Some? then OperationFrom(Under(j, "options").value) else NO_OPERATION)
  {
    hide Text, Under, At;
    hide TextAt, NumberAt, WholeAt, FlagAt, FieldsAt, ElementsAt;
    hide TextUnder, NumberUnder, WholeUnder, FlagUnder, FieldsUnder, ElementsUnder;
    hide ParameterFrom, OperationFrom, SeqOver;
    Names();
    AtIs(j);
  }

  lemma SecuritySchemeRead(j: Json)
    ensures var s := SecuritySchemeFrom(j);
            && s.schemeType == TextUnder(j, "type")
            && s.description == TextUnder(j, "description")
            && s.name == TextUnder(j, "name")
            && s.inLocation == TextUnder(j, "in")
            && s.scheme == TextUnder(j, "scheme")
            && s.bearerFormat == TextUnder(j, "bearerFormat")
  {
    hide Text, Under, At;
    hide TextAt, NumberAt, WholeAt, FlagAt, FieldsAt, ElementsAt;
    hide TextUnder, NumberUnder, WholeUnder, FlagUnder, FieldsUnder, ElementsUnder;
    Names();
    AtIs(j);
  }

  lemma ComponentsRead(j: Json)
    ensures var c := ComponentsFrom(j);
            && c.schemas == MapOver(FieldsUnder(j, "schemas"), SchemaFrom)
            && c.responses == MapOver(FieldsUnder(j, "responses"), ResponseFrom)
            && c.parameters == MapOver(FieldsUnder(j, "parameters"), ParameterFrom)
            && c.requestBodies == MapOver(FieldsUnder(j, "requestBodies"), BodyFrom)
            && c.headers == MapOver(FieldsUnder(j, "headers"), HeaderFrom)
            && c.securitySchemes == MapOver(FieldsUnder(j, "securitySchemes"), SecuritySchemeFrom)
  {
    hide Text, Under, At;
    hide TextAt, NumberAt, WholeAt, FlagAt, FieldsAt, ElementsAt;
    hide TextUnder, NumberUnder, WholeUnder, FlagUnder, FieldsUnder, ElementsUnder;
    hide HeaderFrom, ResponseFrom, BodyFrom, ParameterFrom, SecuritySchemeFrom, SchemaFrom, MapOver;
    Names();
    AtIs(j);
  }

  lemma DocumentRead(j: Json)
    ensures var d := DocumentFrom(j);
            && d.openapi == TextUnder(j, "openapi")
            && d.info == (if Under(j, "info").Some? then InfoFrom(Under(j, "info").value) else Info("", "", "", "", Contact("", "", ""), License("", "")))
            && d.servers == SeqOver(ElementsUnder(j, "servers"), LinkFrom)
            && d.paths == MapOver(FieldsUnder(j, "paths"), PathItemFrom)
            && d.components == (if Under(j, "components").Some? then ComponentsFrom(Under(j, "components").value) else NO_COMPONENTS)
            && d.security == SeqOver(ElementsUnder(j, "security"), RequirementFrom)
            && d.tags == SeqOver(ElementsUnder(j, "tags"), TagFrom)
            && d.externalDocs == (if Under(j, "externalDocs").Some? then LinkFrom(Under(j, "externalDocs").value) else Link("", ""))
  {
    hide Text, Under, At;
    hide TextAt, NumberAt, WholeAt, FlagAt, FieldsAt, ElementsAt;
    hide TextUnder, NumberUnder, WholeUnder, FlagUnder, FieldsUnder, ElementsUnder;
    hide InfoFrom, LinkFrom, TagFrom, RequirementFrom, PathItemFrom, ComponentsFrom, MapOver, SeqOver;
    Names();
    AtIs(j);
  }

  lemma SchemaTextsRead(j: Json)
    ensures var s := SchemaFrom(j);
            && s.schemaType == TextUnder(j, "type")
            && s.format == TextUnder(j, "format")
            && s.title == TextUnder(j, "title")
            && s.description == TextUnder(j, "description")
            && s.defaultVal == TextUnder(j, "default")
            && s.example == TextUnder(j, "example")
            && s.pattern == TextUnder(j, "pattern")
            && s.ref == TextUnder(j, "$ref")
  {
    hide Text, Under, At;
    hide TextAt, NumberAt, WholeAt, FlagAt, FieldsAt, ElementsAt;
    hide TextUnder, NumberUnder, WholeUnder, FlagUnder, FieldsUnder, ElementsUnder;
    Names();
    AtIs(j);
  }

  lemma SchemaPartsRead(j: Json)
    ensures var s := SchemaFrom(j);
            && s.enumValues == TextsOf(ElementsUnder(j, "enum"))
            && s.required == TextsOf(ElementsUnder(j, "required"))
            && s.minimum == NumberUnder(j, "minimum")
            && s.maximum == NumberUnder(j, "maximum")
            && s.minLength == WholeUnder(j, "minLength")
            && s.maxLength == WholeUnder(j, "maxLength")
            && s.nullable == FlagUnder(j, "nullable")
            && s.readOnly == FlagUnder(j, "readOnly")
            && s.writeOnly == FlagUnder(j, "writeOnly")
  {
    hide Text, Under, At;
    hide TextAt, NumberAt, WholeAt, FlagAt, FieldsAt, ElementsAt;
    hide TextUnder, NumberUnder, WholeUnder, FlagUnder, FieldsUnder, ElementsUnder;
    hide TextsOf;
    Names();
    AtIs(j);
  }

  lemma SchemaNestedRead(j: Json)
    ensures var s := SchemaFrom(j);
            && s.items == (if Under(j, "items").Some? then Some(SchemaFrom(Under(j, "items").value)) else None)
            && s.properties.Keys == FieldsUnder(j, "properties").Keys
            && forall k :: k in s.properties ==> s.properties[k] == SchemaFrom(FieldsUnder(j, "properties")[k])
  {
    hide Text, Under, At, TextsOf;
    Names();
    AtIs(j);
  }
  lemma RequirementRead(o: Fields, a: seq<Json>)
    ensures RequirementFrom(Obj(o)).Keys == o.Keys
    ensures forall k :: k in o && o[k].Arr? ==> RequirementFrom(Obj(o))[k] == TextsOf(o[k].elements)
    ensures |TextsOf(a)| == |a| && forall i :: 0 <= i < |a| && a[i].Str? ==> TextsOf(a)[i] == a[i].text
  {
    forall i | 0 <= i < |a| && a[i].Str? ensures TextsOf(a)[i] == a[i].text {
      assert TextsOf(a)[i] == TextOf(a[i]);
    }
  }
}
