/** What is written for every OpenAPI record, member by member (openapi.v). */
module OpenApiWritten {
  import opened Options
  import opened JsonKeys
  import opened JsonTree
  import opened OpenApi
  import opened OpenApiProof
  import opened OpenApiDocument
  import opened OpenApiNames

  lemma ContactWritten(c: Contact)
    ensures var j := ContactTo(c);
            && Under(j, "name") == If(c.name != "", Str(c.name))
            && Under(j, "url") == If(c.url != "", Str(c.url))
            && Under(j, "email") == If(c.email != "", Str(c.email))
            && Only(j, ["name", "url", "email"])
  {
    hide Text, Under, Only, ObjectOf, DistinctKeys;
    Names();
    var rows := ContactRows(c);
    RowUnder(rows, 0, "name");
    RowUnder(rows, 1, "url");
    RowUnder(rows, 2, "email");
    OnlyRows(rows, ["name", "url", "email"]);
  }

  lemma LicenseWritten(l: License)
    ensures var j := LicenseTo(l);
            && Under(j, "name") == Some(Str(l.name))
            && Under(j, "url") == If(l.url != "", Str(l.url))
            && Only(j, ["name", "url"])
  {
    hide Text, Under, Only, ObjectOf, DistinctKeys;
    Names();
    var rows := LicenseRows(l);
    RowUnder(rows, 0, "name");
    RowUnder(rows, 1, "url");
    OnlyRows(rows, ["name", "url"]);
  }

  lemma InfoWritten(i: Info)
    ensures var j := InfoTo(i);
            && Under(j, "title") == Some(Str(i.title))
            && Under(j, "version") == Some(Str(i.version))
            && Under(j, "description") == If(i.description != "", Str(i.description))
            && Under(j, "termsOfService") == If(i.termsOfService != "", Str(i.termsOfService))
            && Under(j, "contact") == If(i.contact.name != "" || i.contact.url != "" || i.contact.email != "", ContactTo(i.contact))
            && Under(j, "license") == If(i.license.name != "", LicenseTo(i.license))
            && Only(j, ["title", "version", "description", "termsOfService", "contact", "license"])
  {
    hide Text, Under, Only, ObjectOf, DistinctKeys, ContactTo, LicenseTo;
    Names();
    InfoDistinct(i);
    var rows := InfoRows(i);
    RowUnder(rows, 0, "title");
    RowUnder(rows, 1, "version");
    RowUnder(rows, 2, "description");
    RowUnder(rows, 3, "termsOfService");
    RowUnder(rows, 4, "contact");
    RowUnder(rows, 5, "license");
    OnlyRows(rows, ["title", "version", "description", "termsOfService", "contact", "license"]);
  }

  lemma LinkWritten(l: Link)
    ensures var j := LinkTo(l);
            && Under(j, "url") == Some(Str(l.url))
            && Under(j, "description") == If(l.description != "", Str(l.description))
            && Only(j, ["url", "description"])
  {
    hide Text, Under, Only, ObjectOf, DistinctKeys;
    Names();
    var rows := LinkRows(l);
    RowUnder(rows, 0, "url");
    RowUnder(rows, 1, "description");
    OnlyRows(rows, ["url", "description"]);
  }

  lemma TagWritten(t: Tag)
    ensures var j := TagTo(t);
            && Under(j, "name") == Some(Str(t.name))
            && Under(j, "description") == If(t.description != "", Str(t.description))
            && Under(j, "externalDocs") == If(t.externalDocs.url != "", LinkTo(t.externalDocs))
            && Only(j, ["name", "description", "externalDocs"])
  {
    hide Text, Under, Only, ObjectOf, DistinctKeys, LinkTo;
    Names();
    TagDistinct(t);
    var rows := TagRows(t);
    RowUnder(rows, 0, "name");
    RowUnder(rows, 1, "description");
    RowUnder(rows, 2, "externalDocs");
    OnlyRows(rows, ["name", "description", "externalDocs"]);
  }

  lemma HeaderWritten(h: Header)
    ensures var j := HeaderTo(h);
            && Under(j, "description") == If(h.description != "", Str(h.description))
            && Under(j, "required") == If(h.required, Flag(h.required))
            && Under(j, "schema") == If(h.schema.schemaType != "" || h.schema.ref != "", SchemaTo(h.schema))
            && Only(j, ["description", "required", "schema"])
  {
    hide Text, Under, Only, ObjectOf, DistinctKeys, SchemaTo;
    Names();
    HeaderDistinct(h);
    var rows := HeaderRows(h);
    RowUnder(rows, 0, "description");
    RowUnder(rows, 1, "required");
    RowUnder(rows, 2, "schema");
    OnlyRows(rows, ["description", "required", "schema"]);
  }

  lemma MediaTypeWritten(m: MediaType)
    ensures var j := MediaTypeTo(m);
            && Under(j, "schema") == If(m.schema.schemaType != "" || m.schema.ref != "" || |m.schema.properties| != 0, SchemaTo(m.schema))
            && Under(j, "example") == If(m.example != "", Str(m.example))
            && Only(j, ["schema", "example"])
  {
    hide Text, Under, Only, ObjectOf, DistinctKeys, SchemaTo;
    Names();
    MediaTypeDistinct(m);
    var rows := MediaTypeRows(m);
    RowUnder(rows, 0, "schema");
    RowUnder(rows, 1, "example");
    OnlyRows(rows, ["schema", "example"]);
  }

  lemma ResponseWritten(r: Response)
    ensures var j := ResponseTo(r);
            && Under(j, "description") == Some(Str(r.description))
            && Under(j, "headers") == If(|r.headers| != 0, Obj(MapOver(r.headers, HeaderTo)))
            && Under(j, "content") == If(|r.content| != 0, Obj(MapOver(r.content, MediaTypeTo)))
            && Only(j, ["description", "headers", "content"])
  {
    hide Text, Under, Only, ObjectOf, DistinctKeys, MapOver;
    Names();
    ResponseDistinct(r);
    var rows := ResponseRows(r);
    RowUnder(rows, 0, "description");
    RowUnder(rows, 1, "headers");
    RowUnder(rows, 2, "content");
    OnlyRows(rows, ["description", "headers", "content"]);
  }

  lemma RequestBodyWritten(b: RequestBody)
    ensures var j := BodyTo(b);
            && Under(j, "description") == If(b.description != "", Str(b.description))
            && Under(j, "content") == If(|b.content| != 0, Obj(MapOver(b.content, MediaTypeTo)))
            && Under(j, "required") == If(b.required, Flag(b.required))
            && Only(j, ["description", "content", "required"])
  {
    hide Text, Under, Only, ObjectOf, DistinctKeys, MapOver;
    Names();
    BodyDistinct(b);
    var rows := BodyRows(b);
    RowUnder(rows, 0, "description");
    RowUnder(rows, 1, "content");
    RowUnder(rows, 2, "required");
    OnlyRows(rows, ["description", "content", "required"]);
  }

  lemma ParameterWritten(p: Parameter)
    ensures var j := ParameterTo(p);
            && Under(j, "name") == Some(Str(p.name))
            && Under(j, "in") == Some(Str(p.inLocation))
            && Under(j, "description") == If(p.description != "", Str(p.description))
            && Under(j, "required") == If(p.required, Flag(p.required))
            && Under(j, "deprecated") == If(p.deprecated, Flag(p.deprecated))
            && Under(j, "schema") == If(p.schema.schemaType != "" || p.schema.ref != "", SchemaTo(p.schema))
            && Under(j, "example") == If(p.example != "", Str(p.example))
            && Only(j, ["name", "in", "description", "required", "deprecated", "schema", "example"])
  {
    hide Text, Under, Only, ObjectOf, DistinctKeys, SchemaTo;
    Names();
    ParameterDistinct(p);
    var rows := ParameterRows(p);
    RowUnder(rows, 0, "name");
    RowUnder(rows, 1, "in");
    RowUnder(rows, 2, "description");
    RowUnder(rows, 3, "required");
    RowUnder(rows, 4, "deprecated");
    RowUnder(rows, 5, "schema");
    RowUnder(rows, 6, "example");
    OnlyRows(rows, ["name", "in", "description", "required", "deprecated", "schema", "example"]);
  }

  lemma OperationWritten(o: Operation)
    ensures var j := OperationTo(o);
            && Under(j, "summary") == If(o.summary != "", Str(o.summary))
            && Under(j, "description") == If(o.description != "", Str(o.description))
            && Under(j, "operationId") == If(o.operationId != "", Str(o.operationId))
            && Under(j, "tags") == If(|o.tags| != 0, Texts(o.tags))
            && Under(j, "parameters") == If(|o.parameters| != 0, Arr(SeqOver(o.parameters, ParameterTo)))
            && Under(j, "requestBody") == If(|o.requestBody.content| != 0, BodyTo(o.requestBody))
            && Under(j, "responses") == If(|o.responses| != 0, Obj(MapOver(o.responses, ResponseTo)))
            && Under(j, "deprecated") == If(o.deprecated, Flag(o.deprecated))
            && Under(j, "security") == If(|o.security| != 0, Arr(SeqOver(o.security, RequirementTo)))
            && Only(j, ["summary", "description", "operationId", "tags", "parameters", "requestBody", "responses",
                          "deprecated", "security"])
  {
    hide Text, Under, Only, ObjectOf, DistinctKeys, BodyTo, MapOver, SeqOver, Texts;
    Names();
    OperationDistinct(o);
    var rows := OperationRows(o);
    RowUnder(rows, 0, "summary");
    RowUnder(rows, 1, "description");
    RowUnder(rows, 2, "operationId");
    RowUnder(rows, 3, "tags");
    RowUnder(rows, 4, "parameters");
    RowUnder(rows, 5, "requestBody");
    RowUnder(rows, 6, "responses");
    RowUnder(rows, 7, "deprecated");
    RowUnder(rows, 8, "security");
    OnlyRows(rows, ["summary", "description", "operationId", "tags", "parameters", "requestBody", "responses", "deprecated",
                    "security"]);
  }

  lemma PathItemWritten(p: PathItem)
    ensures var j := PathItemTo(p);
            && Under(j, "summary") == If(p.summary != "", Str(p.summary))
            && Under(j, "description") == If(p.description != "", Str(p.description))
            && Under(j, "parameters") == If(|p.parameters| != 0, Arr(SeqOver(p.parameters, ParameterTo)))
            && Only(j, ["summary", "description", "parameters", "get", "post", "put", "delete", "patch", "head", "options"])
  {
    hide Text, Under, Only, ObjectOf, DistinctKeys, ParameterTo, OperationTo, SeqOver;
    Names();
    PathItemDistinct(p);
    var rows := PathItemRows(p);
    RowUnder(rows, 0, "summary");
    RowUnder(rows, 1, "description");
    RowUnder(rows, 2, "parameters");
    OnlyRows(rows, ["summary", "description", "parameters", "get", "post", "put", "delete", "patch", "head", "options"]);
  }

  /** An operation is written under the name of its method, if it has responses. */
  lemma OperationsWritten(p: PathItem)
    ensures var j := PathItemTo(p);
            && Under(j, "get") == If(|p.get.responses| != 0, OperationTo(p.get))
            && Under(j, "post") == If(|p.post.responses| != 0, OperationTo(p.post))
            && Under(j, "put") == If(|p.put.responses| != 0, OperationTo(p.put))
            && Under(j, "delete") == If(|p.delete.responses| != 0, OperationTo(p.delete))
            && Under(j, "patch") == If(|p.patch.responses| != 0, OperationTo(p.patch))
            && Under(j, "head") == If(|p.head.responses| != 0, OperationTo(p.head))
            && Under(j, "options") == If(|p.options.responses| != 0, OperationTo(p.options))
  {
    hide Text, Under, ObjectOf, DistinctKeys, ParameterTo, OperationTo, SeqOver;
    Names();
    PathItemDistinct(p);
    var rows := PathItemRows(p);
    RowUnder(rows, 3, "get");
    RowUnder(rows, 4, "post");
    RowUnder(rows, 5, "put");
    RowUnder(rows, 6, "delete");
    RowUnder(rows, 7, "patch");
    RowUnder(rows, 8, "head");
    RowUnder(rows, 9, "options");
  }

  lemma SecuritySchemeWritten(s: SecurityScheme)
    ensures var j := SecuritySchemeTo(s);
            && Under(j, "type") == If(s.schemeType != "", Str(s.schemeType))
            && Under(j, "description") == If(s.description != "", Str(s.description))
            && Under(j, "name") == If(s.name != "", Str(s.name))
            && Under(j, "in") == If(s.inLocation != "", Str(s.inLocation))
            && Under(j, "scheme") == If(s.scheme != "", Str(s.scheme))
            && Under(j, "bearerFormat") == If(s.bearerFormat != "", Str(s.bearerFormat))
            && Only(j, ["type", "description", "name", "in", "scheme", "bearerFormat"])
  {
    hide Text, Under, Only, ObjectOf, DistinctKeys;
    Names();
    var rows := SecuritySchemeRows(s);
    RowUnder(rows, 0, "type");
    RowUnder(rows, 1, "description");
    RowUnder(rows, 2, "name");
    RowUnder(rows, 3, "in");
    RowUnder(rows, 4, "scheme");
    RowUnder(rows, 5, "bearerFormat");
    OnlyRows(rows, ["type", "description", "name", "in", "scheme", "bearerFormat"]);
  }

  lemma ComponentsWritten(c: Components)
    ensures var j := ComponentsTo(c);
            && Under(j, "schemas") == If(|c.schemas| != 0, Obj(MapOver(c.schemas, SchemaTo)))
            && Under(j, "responses") == If(|c.responses| != 0, Obj(MapOver(c.responses, ResponseTo)))
            && Under(j, "parameters") == If(|c.parameters| != 0, Obj(MapOver(c.parameters, ParameterTo)))
            && Under(j, "requestBodies") == If(|c.requestBodies| != 0, Obj(MapOver(c.requestBodies, BodyTo)))
            && Under(j, "headers") == If(|c.headers| != 0, Obj(MapOver(c.headers, HeaderTo)))
            && Under(j, "securitySchemes") == If(|c.securitySchemes| != 0, Obj(MapOver(c.securitySchemes, SecuritySchemeTo)))
            && Only(j, ["schemas", "responses", "parameters", "requestBodies", "headers", "securitySchemes"])
  {
    hide Text, Under, Only, ObjectOf, DistinctKeys, MapOver;
    Names();
    ComponentsDistinct(c);
    var rows := ComponentsRows(c);
    RowUnder(rows, 0, "schemas");
    RowUnder(rows, 1, "responses");
    RowUnder(rows, 2, "parameters");
    RowUnder(rows, 3, "requestBodies");
    RowUnder(rows, 4, "headers");
    RowUnder(rows, 5, "securitySchemes");
    OnlyRows(rows, ["schemas", "responses", "parameters", "requestBodies", "headers", "securitySchemes"]);
  }

  lemma DocumentWritten(d: Document)
    ensures var j := DocumentTo(d);
            && Under(j, "openapi") == Some(Str(d.openapi))
            && Under(j, "info") == Some(InfoTo(d.info))
            && Under(j, "servers") == If(|d.servers| != 0, Arr(SeqOver(d.servers, LinkTo)))
            && Under(j, "paths") == Some(Obj(MapOver(d.paths, PathItemTo)))
            && Under(j, "components") == If(|d.components.schemas| != 0 || |d.components.responses| != 0 || |d.components.parameters| != 0
                                            || |d.components.requestBodies| != 0 || |d.components.headers| != 0
                                            || |d.components.securitySchemes| != 0,
                                            ComponentsTo(d.components))
            && Under(j, "security") == If(|d.security| != 0, Arr(SeqOver(d.security, RequirementTo)))
            && Under(j, "tags") == If(|d.tags| != 0, Arr(SeqOver(d.tags, TagTo)))
            && Under(j, "externalDocs") == If(d.externalDocs.url != "", LinkTo(d.externalDocs))
            && Only(j, ["openapi", "info", "servers", "paths", "components", "security", "tags", "externalDocs"])
  {
    hide Text, Under, Only, ObjectOf, DistinctKeys, InfoTo, LinkTo, ComponentsTo, MapOver, SeqOver;
    Names();
    DocumentDistinct(d);
    var rows := DocumentRows(d);
    RowUnder(rows, 0, "openapi");
    RowUnder(rows, 1, "info");
    RowUnder(rows, 2, "servers");
    RowUnder(rows, 3, "paths");
    RowUnder(rows, 4, "components");
    RowUnder(rows, 5, "security");
    RowUnder(rows, 6, "tags");
    RowUnder(rows, 7, "externalDocs");
    OnlyRows(rows, ["openapi", "info", "servers", "paths", "components", "security", "tags", "externalDocs"]);
  }
  /** A reference is written as nothing but the reference. */
  lemma ReferenceWritten(s: Schema)
    requires s.ref != ""
    ensures Under(SchemaTo(s), "$ref") == Some(Str(s.ref)) && Only(SchemaTo(s), ["$ref"])
  {
    hide Text, Under, Only, ObjectOf, DistinctKeys;
    Names();
    var rows := RefRows(s);
    RowUnder(rows, 0, "$ref");
    OnlyRows(rows, ["$ref"]);
    SchemaToRef(s);
  }

  lemma SchemaToRef(s: Schema)
    requires s.ref != ""
    ensures SchemaTo(s) == Obj(ObjectOf(RefRows(s)))
  {
    hide ObjectOf, RefRows;
  }

  lemma SchemaTextsWritten(s: Schema)
    requires s.ref == ""
    ensures var j := SchemaTo(s);
            && Under(j, "type") == If(s.schemaType != "", Str(s.schemaType))
            && Under(j, "format") == If(s.format != "", Str(s.format))
            && Under(j, "title") == If(s.title != "", Str(s.title))
            && Under(j, "description") == If(s.description != "", Str(s.description))
            && Under(j, "default") == If(s.defaultVal != "", Str(s.defaultVal))
            && Under(j, "example") == If(s.example != "", Str(s.example))
  {
    hide Text, Under, ObjectOf, DistinctKeys, SchemaTo, PropertiesTo, ItemsTo, Texts;
    Names();
    SchemaToIs(s);
    SchemaDistinct(s, PropertiesTo(s), ItemsTo(s));
    var rows := SchemaRows(s, PropertiesTo(s), ItemsTo(s));
    RowUnder(rows, 0, "type");
    RowUnder(rows, 1, "format");
    RowUnder(rows, 2, "title");
    RowUnder(rows, 3, "description");
    RowUnder(rows, 4, "default");
    RowUnder(rows, 5, "example");
  }

  lemma SchemaPartsWritten(s: Schema)
    requires s.ref == ""
    ensures var j := SchemaTo(s);
            && Under(j, "enum") == If(|s.enumValues| != 0, Texts(s.enumValues))
            && Under(j, "required") == If(|s.required| != 0, Texts(s.required))
            && (Under(j, "properties").Some? <==> |s.properties| != 0)
            && (|s.properties| != 0 ==>
                  var o := Under(j, "properties").value;
                  o.Obj? && o.fields.Keys == s.properties.Keys
                  && forall k :: k in s.properties ==> o.fields[k] == SchemaTo(s.properties[k]))
            && Under(j, "items") == (if s.items.Some? then Some(SchemaTo(s.items.value)) else None)
            && Under(j, "minimum") == If(s.minimum != 0.0, Number(s.minimum))
            && Under(j, "maximum") == If(s.maximum != 0.0, Number(s.maximum))
  {
    hide Text, Under, ObjectOf, DistinctKeys, SchemaTo, Texts;
    Names();
    SchemaToIs(s);
    SchemaDistinct(s, PropertiesTo(s), ItemsTo(s));
    var rows := SchemaRows(s, PropertiesTo(s), ItemsTo(s));
    RowUnder(rows, 6, "enum");
    RowUnder(rows, 7, "required");
    RowUnder(rows, 8, "properties");
    RowUnder(rows, 9, "items");
    RowUnder(rows, 10, "minimum");
    RowUnder(rows, 11, "maximum");
  }

  lemma SchemaFlagsWritten(s: Schema)
    requires s.ref == ""
    ensures var j := SchemaTo(s);
            && Under(j, "minLength") == If(s.minLength != 0, Whole(s.minLength))
            && Under(j, "maxLength") == If(s.maxLength != 0, Whole(s.maxLength))
            && Under(j, "pattern") == If(s.pattern != "", Str(s.pattern))
            && Under(j, "nullable") == If(s.nullable, Flag(s.nullable))
            && Under(j, "readOnly") == If(s.readOnly, Flag(s.readOnly))
            && Under(j, "writeOnly") == If(s.writeOnly, Flag(s.writeOnly))
  {
    hide Text, Under, ObjectOf, DistinctKeys, SchemaTo, PropertiesTo, ItemsTo, Texts;
    Names();
    SchemaToIs(s);
    SchemaDistinct(s, PropertiesTo(s), ItemsTo(s));
    var rows := SchemaRows(s, PropertiesTo(s), ItemsTo(s));
    RowUnder(rows, 12, "minLength");
    RowUnder(rows, 13, "maxLength");
    RowUnder(rows, 14, "pattern");
    RowUnder(rows, 15, "nullable");
    RowUnder(rows, 16, "readOnly");
    RowUnder(rows, 17, "writeOnly");
  }

  lemma SchemaOnly(s: Schema)
    requires s.ref == ""
    ensures Only(SchemaTo(s), ["type", "format", "title", "description", "default", "example", "enum", "required", "properties",
                               "items", "minimum", "maximum", "minLength", "maxLength", "pattern", "nullable", "readOnly", "writeOnly"])
  {
    hide Text, Under, Only, ObjectOf, DistinctKeys, SchemaTo, PropertiesTo, ItemsTo, Texts;
    Names();
    SchemaToIs(s);
    OnlyRows(SchemaRows(s, PropertiesTo(s), ItemsTo(s)),
             ["type", "format", "title", "description", "default", "example", "enum", "required", "properties",
              "items", "minimum", "maximum", "minLength", "maxLength", "pattern", "nullable", "readOnly", "writeOnly"]);
  }

  /** Security requirements: scopes by the name of the scheme. */
  lemma RequirementWritten(r: Requirement)
    ensures var j := RequirementTo(r);
            j.Obj? && j.fields.Keys == r.Keys && forall k :: k in r ==> j.fields[k] == Texts(r[k])
  {
  }

  /** Maps are written value by value, under the same names; arrays and texts one by one, in order. */
  lemma CollectionsAre<V, W>(m: map<string, V>, f: V -> W, s: seq<V>, t: seq<string>)
    ensures MapOver(m, f).Keys == m.Keys && forall k :: k in m ==> MapOver(m, f)[k] == f(m[k])
    ensures |SeqOver(s, f)| == |s| && forall i :: 0 <= i < |s| ==> SeqOver(s, f)[i] == f(s[i])
    ensures Texts(t).Arr? && |Texts(t).elements| == |t| && forall i :: 0 <= i < |t| ==> Texts(t).elements[i] == Str(t[i])
  {
  }
}
