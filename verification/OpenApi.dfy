/** The OpenAPI records of openapi.v, to and from JSON trees. */
module OpenApi {
  import opened Options
  import opened JsonKeys
  import opened JsonTree

  // ----- schemas -----

  datatype Schema = Schema(
    schemaType: string, format: string, title: string, description: string, defaultVal: string, example: string,
    enumValues: seq<string>, required: seq<string>, properties: map<string, Schema>, items: Option<Schema>,
    minimum: real, maximum: real, minLength: int, maxLength: int, pattern: string,
    nullable: bool, readOnly: bool, writeOnly: bool, ref: string)

  const NO_SCHEMA := Schema("", "", "", "", "", "", [], [], map[], None, 0.0, 0.0, 0, 0, "", false, false, false, "")

  /** The assignments for a schema that is no reference; its parts are already converted. */
  function SchemaRows(s: Schema, properties: Fields, items: Option<Json>): seq<Row> {
    [ Row(KType, s.schemaType != "", Str(s.schemaType)),
      Row(KFormat, s.format != "", Str(s.format)),
      Row(KTitle, s.title != "", Str(s.title)),
      Row(KDescription, s.description != "", Str(s.description)),
      Row(KDefault, s.defaultVal != "", Str(s.defaultVal)),
      Row(KExample, s.example != "", Str(s.example)),
      Row(KEnum, |s.enumValues| != 0, Texts(s.enumValues)),
      Row(KRequired, |s.required| != 0, Texts(s.required)),
      Row(KProperties, |s.properties| != 0, Obj(properties)),
      Row(KItems, items.Some?, if items.Some? then items.value else Str("")),
      Row(KMinimum, s.minimum != 0.0, Number(s.minimum)),
      Row(KMaximum, s.maximum != 0.0, Number(s.maximum)),
      Row(KMinLength, s.minLength != 0, Whole(s.minLength)),
      Row(KMaxLength, s.maxLength != 0, Whole(s.maxLength)),
      Row(KPattern, s.pattern != "", Str(s.pattern)),
      Row(KNullable, s.nullable, Flag(s.nullable)),
      Row(KReadOnly, s.readOnly, Flag(s.readOnly)),
      Row(KWriteOnly, s.writeOnly, Flag(s.writeOnly)) ]
  }

  function RefRows(s: Schema): (rows: seq<Row>)
    ensures DistinctKeys(rows)
  {
    [Row(KRef, true, Str(s.ref))]
  }

  /** A reference is written as nothing but the reference. */
  function SchemaTo(s: Schema): Json {
    if s.ref != "" then Obj(ObjectOf(RefRows(s)))
    else
      var properties := map k | k in s.properties :: SchemaTo(s.properties[k]);
      var items := if s.items.Some? then Some(SchemaTo(s.items.value)) else None;
      Obj(ObjectOf(SchemaRows(s, properties, items)))
  }

  function SchemaFrom(j: Json): Schema {
    var items := At(j, KItems);
    Schema(TextAt(j, KType), TextAt(j, KFormat), TextAt(j, KTitle), TextAt(j, KDescription),
           TextAt(j, KDefault), TextAt(j, KExample),
           TextsOf(ElementsAt(j, KEnum)), TextsOf(ElementsAt(j, KRequired)),
           map k | k in FieldsAt(j, KProperties) :: SchemaFrom(FieldsAt(j, KProperties)[k]),
           if items.Some? then Some(SchemaFrom(items.value)) else None,
           NumberAt(j, KMinimum), NumberAt(j, KMaximum), WholeAt(j, KMinLength), WholeAt(j, KMaxLength),
           TextAt(j, KPattern), FlagAt(j, KNullable), FlagAt(j, KReadOnly), FlagAt(j, KWriteOnly),
           TextAt(j, KRef))
  }

  /** What is left of a schema once written: a reference keeps nothing else, at any depth. */
  function SchemaTrim(s: Schema): Schema {
    if s.ref != "" then NO_SCHEMA.(ref := s.ref)
    else s.(properties := map k | k in s.properties :: SchemaTrim(s.properties[k]),
            items := if s.items.Some? then Some(SchemaTrim(s.items.value)) else None)
  }

  // ----- the other records -----

  datatype Contact = Contact(name: string, url: string, email: string)

  function ContactRows(c: Contact): (rows: seq<Row>)
    ensures DistinctKeys(rows)
  {
    [ Row(KName, c.name != "", Str(c.name)), Row(KUrl, c.url != "", Str(c.url)), Row(KEmail, c.email != "", Str(c.email)) ]
  }

  function ContactTo(c: Contact): Json {
    Obj(ObjectOf(ContactRows(c)))
  }

  function ContactFrom(j: Json): Contact {
    Contact(TextAt(j, KName), TextAt(j, KUrl), TextAt(j, KEmail))
  }

  datatype License = License(name: string, url: string)

  function LicenseRows(l: License): (rows: seq<Row>)
    ensures DistinctKeys(rows)
  {
    [ Row(KName, true, Str(l.name)), Row(KUrl, l.url != "", Str(l.url)) ]
  }

  function LicenseTo(l: License): Json {
    Obj(ObjectOf(LicenseRows(l)))
  }

  function LicenseFrom(j: Json): License {
    License(TextAt(j, KName), TextAt(j, KUrl))
  }

  datatype Info = Info(title: string, version: string, description: string, termsOfService: string, contact: Contact, license: License)

  function InfoRows(i: Info): seq<Row> {
    [ Row(KTitle, true, Str(i.title)),
      Row(KVersion, true, Str(i.version)),
      Row(KDescription, i.description != "", Str(i.description)),
      Row(KTermsOfService, i.termsOfService != "", Str(i.termsOfService)),
      When(KContact, i.contact.name != "" || i.contact.url != "" || i.contact.email != "", ContactTo(i.contact)),
      When(KLicense, i.license.name != "", LicenseTo(i.license)) ]
  }

  function InfoTo(i: Info): Json {
    Obj(ObjectOf(InfoRows(i)))
  }

  function InfoFrom(j: Json): Info {
    var (c, l) := (At(j, KContact), At(j, KLicense));
    Info(TextAt(j, KTitle), TextAt(j, KVersion), TextAt(j, KDescription), TextAt(j, KTermsOfService),
         if c.Some? then ContactFrom(c.value) else Contact("", "", ""),
         if l.Some? then LicenseFrom(l.value) else License("", ""))
  }

  /** A license without a name is not written. */
  function InfoTrim(i: Info): Info {
    if i.license.name == "" then i.(license := License("", "")) else i
  }

  /** A server, and external documentation: a url and a description. */
  datatype Link = Link(url: string, description: string)

  function LinkRows(l: Link): (rows: seq<Row>)
    ensures DistinctKeys(rows)
  {
    [ Row(KUrl, true, Str(l.url)), Row(KDescription, l.description != "", Str(l.description)) ]
  }

  function LinkTo(l: Link): Json {
    Obj(ObjectOf(LinkRows(l)))
  }

  function LinkFrom(j: Json): Link {
    Link(TextAt(j, KUrl), TextAt(j, KDescription))
  }

  /** Documentation without a url is not written. */
  function DocsTrim(d: Link): Link {
    if d.url == "" then Link("", "") else d
  }

  datatype Tag = Tag(name: string, description: string, externalDocs: Link)

  function TagRows(t: Tag): seq<Row> {
    [ Row(KName, true, Str(t.name)),
      Row(KDescription, t.description != "", Str(t.description)),
      When(KExternalDocs, t.externalDocs.url != "", LinkTo(t.externalDocs)) ]
  }

  function TagTo(t: Tag): Json {
    Obj(ObjectOf(TagRows(t)))
  }

  function DocsAt(j: Json): Link {
    var d := At(j, KExternalDocs);
    if d.Some? then LinkFrom(d.value) else Link("", "")
  }

  function TagFrom(j: Json): Tag {
    Tag(TextAt(j, KName), TextAt(j, KDescription), DocsAt(j))
  }

  function TagTrim(t: Tag): Tag {
    t.(externalDocs := DocsTrim(t.externalDocs))
  }

  // A schema inside another record.

  function Typed(s: Schema): bool {
    s.schemaType != "" || s.ref != ""
  }

  function SchemaAt(j: Json): Schema {
    var s := At(j, KSchema);
    if s.Some? then SchemaFrom(s.value) else NO_SCHEMA
  }

  datatype Header = Header(description: string, required: bool, schema: Schema)

  function HeaderRows(h: Header): seq<Row> {
    [ Row(KDescription, h.description != "", Str(h.description)),
      Row(KRequired, h.required, Flag(h.required)),
      When(KSchema, Typed(h.schema), SchemaTo(h.schema)) ]
  }

  function HeaderTo(h: Header): Json {
    Obj(ObjectOf(HeaderRows(h)))
  }

  function HeaderFrom(j: Json): Header {
    Header(TextAt(j, KDescription), FlagAt(j, KRequired), SchemaAt(j))
  }

  /** A header's schema without type and reference is not written. */
  function HeaderTrim(h: Header): Header {
    h.(schema := if Typed(h.schema) then SchemaTrim(h.schema) else NO_SCHEMA)
  }

  datatype MediaType = MediaType(schema: Schema, example: string)

  function Filled(s: Schema): bool {
    Typed(s) || |s.properties| != 0
  }

  function MediaTypeRows(m: MediaType): seq<Row> {
    [ When(KSchema, Filled(m.schema), SchemaTo(m.schema)), Row(KExample, m.example != "", Str(m.example)) ]
  }

  function MediaTypeTo(m: MediaType): Json {
    Obj(ObjectOf(MediaTypeRows(m)))
  }

  function MediaTypeFrom(j: Json): MediaType {
    MediaType(SchemaAt(j), TextAt(j, KExample))
  }

  function MediaTypeTrim(m: MediaType): MediaType {
    m.(schema := if Filled(m.schema) then SchemaTrim(m.schema) else NO_SCHEMA)
  }

  datatype Response = Response(description: string, headers: map<string, Header>, content: map<string, MediaType>)

  function ResponseRows(r: Response): seq<Row> {
    [ Row(KDescription, true, Str(r.description)),
      Row(KHeaders, |r.headers| != 0, Obj(MapOver(r.headers, HeaderTo))),
      Row(KContent, |r.content| != 0, Obj(MapOver(r.content, MediaTypeTo))) ]
  }

  function ResponseTo(r: Response): Json {
    Obj(ObjectOf(ResponseRows(r)))
  }

  function ResponseFrom(j: Json): Response {
    Response(TextAt(j, KDescription), MapOver(FieldsAt(j, KHeaders), HeaderFrom), MapOver(FieldsAt(j, KContent), MediaTypeFrom))
  }

  function ResponseTrim(r: Response): Response {
    r.(headers := MapOver(r.headers, HeaderTrim), content := MapOver(r.content, MediaTypeTrim))
  }

  datatype RequestBody = RequestBody(description: string, content: map<string, MediaType>, required: bool)

  function BodyRows(b: RequestBody): seq<Row> {
    [ Row(KDescription, b.description != "", Str(b.description)),
      Row(KContent, |b.content| != 0, Obj(MapOver(b.content, MediaTypeTo))),
      Row(KRequired, b.required, Flag(b.required)) ]
  }

  function BodyTo(b: RequestBody): Json {
    Obj(ObjectOf(BodyRows(b)))
  }

  function BodyFrom(j: Json): RequestBody {
    RequestBody(TextAt(j, KDescription), MapOver(FieldsAt(j, KContent), MediaTypeFrom), FlagAt(j, KRequired))
  }

  function BodyTrim(b: RequestBody): RequestBody {
    b.(content := MapOver(b.content, MediaTypeTrim))
  }

  datatype Parameter = Parameter(name: string, inLocation: string, description: string, required: bool, deprecated: bool,
                                 schema: Schema, example: string)

  function ParameterRows(p: Parameter): seq<Row> {
    [ Row(KName, true, Str(p.name)),
      Row(KIn, true, Str(p.inLocation)),
      Row(KDescription, p.description != "", Str(p.description)),
      Row(KRequired, p.required, Flag(p.required)),
      Row(KDeprecated, p.deprecated, Flag(p.deprecated)),
      When(KSchema, Typed(p.schema), SchemaTo(p.schema)),
      Row(KExample, p.example != "", Str(p.example)) ]
  }

  function ParameterTo(p: Parameter): Json {
    Obj(ObjectOf(ParameterRows(p)))
  }

  function ParameterFrom(j: Json): Parameter {
    Parameter(TextAt(j, KName), TextAt(j, KIn), TextAt(j, KDescription), FlagAt(j, KRequired),
              FlagAt(j, KDeprecated), SchemaAt(j), TextAt(j, KExample))
  }

  function ParameterTrim(p: Parameter): Parameter {
    p.(schema := if Typed(p.schema) then SchemaTrim(p.schema) else NO_SCHEMA)
  }

  /** One alternative of a security requirement: scopes by scheme. */
  type Requirement = map<string, seq<string>>

  function ScopesOf(j: Json): seq<string> {
    match j
    case Arr(a) => TextsOf(a)
    case _ => []
  }

  function RequirementTo(r: Requirement): Json {
    Obj(MapOver(r, Texts))
  }

  function RequirementFrom(j: Json): Requirement {
    match j
    case Obj(o) => MapOver(o, ScopesOf)
    case _ => map[]
  }

  datatype Operation = Operation(summary: string, description: string, operationId: string, tags: seq<string>,
                                 parameters: seq<Parameter>, requestBody: RequestBody, responses: map<string, Response>,
                                 deprecated: bool, security: seq<Requirement>)

  const NO_BODY := RequestBody("", map[], false)

  const NO_OPERATION := Operation("", "", "", [], [], NO_BODY, map[], false, [])

  function OperationRows(o: Operation): seq<Row> {
    [ Row(KSummary, o.summary != "", Str(o.summary)),
      Row(KDescription, o.description != "", Str(o.description)),
      Row(KOperationId, o.operationId != "", Str(o.operationId)),
      Row(KTags, |o.tags| != 0, Texts(o.tags)),
      Row(KParameters, |o.parameters| != 0, Arr(SeqOver(o.parameters, ParameterTo))),
      When(KRequestBody, |o.requestBody.content| != 0, BodyTo(o.requestBody)),
      Row(KResponses, |o.responses| != 0, Obj(MapOver(o.responses, ResponseTo))),
      Row(KDeprecated, o.deprecated, Flag(o.deprecated)),
      Row(KSecurity, |o.security| != 0, Arr(SeqOver(o.security, RequirementTo))) ]
  }

  function OperationTo(o: Operation): Json {
    Obj(ObjectOf(OperationRows(o)))
  }

  function OperationFrom(j: Json): Operation {
    var b := At(j, KRequestBody);
    Operation(TextAt(j, KSummary), TextAt(j, KDescription), TextAt(j, KOperationId), TextsOf(ElementsAt(j, KTags)),
              SeqOver(ElementsAt(j, KParameters), ParameterFrom),
              if b.Some? then BodyFrom(b.value) else NO_BODY,
              MapOver(FieldsAt(j, KResponses), ResponseFrom), FlagAt(j, KDeprecated),
              SeqOver(ElementsAt(j, KSecurity), RequirementFrom))
  }

  /** A request body without content is not written. */
  function OperationTrim(o: Operation): Operation {
    o.(parameters := SeqOver(o.parameters, ParameterTrim),
       requestBody := if |o.requestBody.content| != 0 then BodyTrim(o.requestBody) else NO_BODY,
       responses := MapOver(o.responses, ResponseTrim))
  }

  datatype PathItem = PathItem(get: Operation, post: Operation, put: Operation, delete: Operation, patch: Operation,
                               head: Operation, options: Operation, summary: string, description: string,
                               parameters: seq<Parameter>)

  function OperationRow(k: Key, o: Operation): Row {
    When(k, |o.responses| != 0, OperationTo(o))
  }

  function PathItemRows(p: PathItem): seq<Row> {
    [ Row(KSummary, p.summary != "", Str(p.summary)),
      Row(KDescription, p.description != "", Str(p.description)),
      Row(KParameters, |p.parameters| != 0, Arr(SeqOver(p.parameters, ParameterTo))),
      OperationRow(KGet, p.get),
      OperationRow(KPost, p.post),
      OperationRow(KPut, p.put),
      OperationRow(KDelete, p.delete),
      OperationRow(KPatch, p.patch),
      OperationRow(KHead, p.head),
      OperationRow(KOptions, p.options) ]
  }

  function PathItemTo(p: PathItem): Json {
    Obj(ObjectOf(PathItemRows(p)))
  }

  function OperationAt(j: Json, k: Key): Operation {
    var o := At(j, k);
    if o.Some? then OperationFrom(o.value) else NO_OPERATION
  }

  function PathItemFrom(j: Json): PathItem {
    PathItem(OperationAt(j, KGet), OperationAt(j, KPost), OperationAt(j, KPut), OperationAt(j, KDelete),
             OperationAt(j, KPatch), OperationAt(j, KHead), OperationAt(j, KOptions),
             TextAt(j, KSummary), TextAt(j, KDescription), SeqOver(ElementsAt(j, KParameters), ParameterFrom))
  }

  /** An operation without responses is not written. */
  function PartTrim(o: Operation): Operation {
    if |o.responses| != 0 then OperationTrim(o) else NO_OPERATION
  }

  function PathItemTrim(p: PathItem): PathItem {
    PathItem(PartTrim(p.get), PartTrim(p.post), PartTrim(p.put), PartTrim(p.delete), PartTrim(p.patch), PartTrim(p.head),
             PartTrim(p.options), p.summary, p.description, SeqOver(p.parameters, ParameterTrim))
  }

  datatype SecurityScheme = SecurityScheme(schemeType: string, description: string, name: string, inLocation: string,
                                           scheme: string, bearerFormat: string)

  function SecuritySchemeRows(s: SecurityScheme): (rows: seq<Row>)
    ensures DistinctKeys(rows)
  {
    [ Row(KType, s.schemeType != "", Str(s.schemeType)),
      Row(KDescription, s.description != "", Str(s.description)),
      Row(KName, s.name != "", Str(s.name)),
      Row(KIn, s.inLocation != "", Str(s.inLocation)),
      Row(KScheme, s.scheme != "", Str(s.scheme)),
      Row(KBearerFormat, s.bearerFormat != "", Str(s.bearerFormat)) ]
  }

  function SecuritySchemeTo(s: SecurityScheme): Json {
    Obj(ObjectOf(SecuritySchemeRows(s)))
  }

  function SecuritySchemeFrom(j: Json): SecurityScheme {
    SecurityScheme(TextAt(j, KType), TextAt(j, KDescription), TextAt(j, KName), TextAt(j, KIn),
                   TextAt(j, KScheme), TextAt(j, KBearerFormat))
  }

  datatype Components = Components(schemas: map<string, Schema>, responses: map<string, Response>,
                                   parameters: map<string, Parameter>, requestBodies: map<string, RequestBody>,
                                   headers: map<string, Header>, securitySchemes: map<string, SecurityScheme>)

  const NO_COMPONENTS := Components(map[], map[], map[], map[], map[], map[])

  function ComponentsRows(c: Components): seq<Row> {
    [ Row(KSchemas, |c.schemas| != 0, Obj(MapOver(c.schemas, SchemaTo))),
      Row(KResponses, |c.responses| != 0, Obj(MapOver(c.responses, ResponseTo))),
      Row(KParameters, |c.parameters| != 0, Obj(MapOver(c.parameters, ParameterTo))),
      Row(KRequestBodies, |c.requestBodies| != 0, Obj(MapOver(c.requestBodies, BodyTo))),
      Row(KHeaders, |c.headers| != 0, Obj(MapOver(c.headers, HeaderTo))),
      Row(KSecuritySchemes, |c.securitySchemes| != 0, Obj(MapOver(c.securitySchemes, SecuritySchemeTo))) ]
  }

  function ComponentsTo(c: Components): Json {
    Obj(ObjectOf(ComponentsRows(c)))
  }

  function ComponentsFrom(j: Json): Components {
    Components(MapOver(FieldsAt(j, KSchemas), SchemaFrom), MapOver(FieldsAt(j, KResponses), ResponseFrom),
               MapOver(FieldsAt(j, KParameters), ParameterFrom), MapOver(FieldsAt(j, KRequestBodies), BodyFrom),
               MapOver(FieldsAt(j, KHeaders), HeaderFrom), MapOver(FieldsAt(j, KSecuritySchemes), SecuritySchemeFrom))
  }

  function ComponentsTrim(c: Components): Components {
    Components(MapOver(c.schemas, SchemaTrim), MapOver(c.responses, ResponseTrim), MapOver(c.parameters, ParameterTrim),
               MapOver(c.requestBodies, BodyTrim), MapOver(c.headers, HeaderTrim), c.securitySchemes)
  }

  function IsComponentsEmpty(c: Components): bool {
    |c.schemas| == 0 && |c.responses| == 0 && |c.parameters| == 0 && |c.requestBodies| == 0 && |c.headers| == 0 && |c.securitySchemes| == 0
  }

  datatype Document = Document(openapi: string, info: Info, servers: seq<Link>, paths: map<string, PathItem>,
                               components: Components, security: seq<Requirement>, tags: seq<Tag>, externalDocs: Link)

  function DocumentRows(d: Document): seq<Row> {
    [ Row(KOpenapi, true, Str(d.openapi)),
      Row(KInfo, true, InfoTo(d.info)),
      Row(KServers, |d.servers| != 0, Arr(SeqOver(d.servers, LinkTo))),
      Row(KPaths, true, Obj(MapOver(d.paths, PathItemTo))),
      When(KComponents, !IsComponentsEmpty(d.components), ComponentsTo(d.components)),
      Row(KSecurity, |d.security| != 0, Arr(SeqOver(d.security, RequirementTo))),
      Row(KTags, |d.tags| != 0, Arr(SeqOver(d.tags, TagTo))),
      When(KExternalDocs, d.externalDocs.url != "", LinkTo(d.externalDocs)) ]
  }

  function DocumentTo(d: Document): Json {
    Obj(ObjectOf(DocumentRows(d)))
  }

  function DocumentFrom(j: Json): Document {
    var (i, c) := (At(j, KInfo), At(j, KComponents));
    Document(TextAt(j, KOpenapi),
             if i.Some? then InfoFrom(i.value) else Info("", "", "", "", Contact("", "", ""), License("", "")),
             SeqOver(ElementsAt(j, KServers), LinkFrom), MapOver(FieldsAt(j, KPaths), PathItemFrom),
             if c.Some? then ComponentsFrom(c.value) else NO_COMPONENTS,
             SeqOver(ElementsAt(j, KSecurity), RequirementFrom), SeqOver(ElementsAt(j, KTags), TagFrom), DocsAt(j))
  }

  function DocumentTrim(d: Document): Document {
    d.(info := InfoTrim(d.info), paths := MapOver(d.paths, PathItemTrim), components := ComponentsTrim(d.components),
       tags := SeqOver(d.tags, TagTrim), externalDocs := DocsTrim(d.externalDocs))
  }
}
