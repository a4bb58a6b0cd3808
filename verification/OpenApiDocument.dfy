/** Writing and reading whole OpenAPI documents. */
module OpenApiDocument {
  import opened Options
  import opened JsonKeys
  import opened JsonTree
  import opened OpenApi
  import opened OpenApiProof

  // For every record X: XBack, reading what was written gives the trimmed record; XSame, trimming changes
  // nothing in what is written.

  lemma ContactBack(c: Contact)
    ensures ContactFrom(ContactTo(c)) == c
  {
    hide ObjectOf, At, DistinctKeys;
    var rows := ContactRows(c);
    RowAt(rows, 0);
    RowAt(rows, 1);
    RowAt(rows, 2);
  }

  lemma LicenseBack(l: License)
    ensures LicenseFrom(LicenseTo(l)) == l
  {
    hide ObjectOf, At, DistinctKeys;
    var rows := LicenseRows(l);
    RowAt(rows, 0);
    RowAt(rows, 1);
  }

  lemma InfoDistinct(i: Info)
    ensures DistinctKeys(InfoRows(i))
  {
    hide ContactTo, LicenseTo;
  }

  lemma InfoBack(i: Info)
    ensures InfoFrom(InfoTo(i)) == InfoTrim(i)
  {
    hide ObjectOf, At, DistinctKeys, ContactTo, ContactFrom, LicenseTo, LicenseFrom;
    ContactBack(i.contact);
    LicenseBack(i.license);
    var rows := InfoRows(i);
    InfoDistinct(i);
    RowAt(rows, 0);
    RowAt(rows, 1);
    RowAt(rows, 2);
    RowAt(rows, 3);
    RowAt(rows, 4);
    RowAt(rows, 5);
  }

  lemma InfoSame(i: Info)
    ensures InfoTo(InfoTrim(i)) == InfoTo(i)
  {
    hide ObjectOf, ContactTo, LicenseTo;
  }

  lemma LinkBack(l: Link)
    ensures LinkFrom(LinkTo(l)) == l
  {
    hide ObjectOf, At, DistinctKeys;
    var rows := LinkRows(l);
    RowAt(rows, 0);
    RowAt(rows, 1);
  }

  lemma TagDistinct(t: Tag)
    ensures DistinctKeys(TagRows(t))
  {
    hide LinkTo;
  }

  lemma TagBack(t: Tag)
    ensures TagFrom(TagTo(t)) == TagTrim(t)
  {
    hide ObjectOf, At, DistinctKeys, LinkTo, LinkFrom;
    LinkBack(t.externalDocs);
    var rows := TagRows(t);
    TagDistinct(t);
    RowAt(rows, 0);
    RowAt(rows, 1);
    RowAt(rows, 2);
  }

  lemma TagSame(t: Tag)
    ensures TagTo(TagTrim(t)) == TagTo(t)
  {
    hide ObjectOf, LinkTo;
  }

  lemma HeaderDistinct(h: Header)
    ensures DistinctKeys(HeaderRows(h))
  {
    hide SchemaTo, Typed;
  }

  lemma HeaderBack(h: Header)
    ensures HeaderFrom(HeaderTo(h)) == HeaderTrim(h)
  {
    hide ObjectOf, At, DistinctKeys, SchemaTo, SchemaFrom, SchemaTrim;
    SchemaBack(h.schema);
    var rows := HeaderRows(h);
    HeaderDistinct(h);
    RowAt(rows, 0);
    RowAt(rows, 1);
    RowAt(rows, 2);
  }

  lemma TrimTyped(s: Schema)
    ensures Typed(SchemaTrim(s)) == Typed(s) && Filled(SchemaTrim(s)) == Filled(s) && !Filled(NO_SCHEMA)
  {
    if s.ref == "" {
      SameSize(s.properties, SchemaTrim(s).properties);
    }
  }

  lemma HeaderSame(h: Header)
    ensures HeaderTo(HeaderTrim(h)) == HeaderTo(h)
  {
    hide ObjectOf, SchemaTo, SchemaTrim;
    SchemaSame(h.schema);
    TrimTyped(h.schema);
  }

  lemma MediaTypeDistinct(m: MediaType)
    ensures DistinctKeys(MediaTypeRows(m))
  {
    hide SchemaTo, Filled;
  }

  lemma MediaTypeBack(m: MediaType)
    ensures MediaTypeFrom(MediaTypeTo(m)) == MediaTypeTrim(m)
  {
    hide ObjectOf, At, DistinctKeys, SchemaTo, SchemaFrom, SchemaTrim;
    SchemaBack(m.schema);
    var rows := MediaTypeRows(m);
    MediaTypeDistinct(m);
    RowAt(rows, 0);
    RowAt(rows, 1);
  }

  lemma MediaTypeSame(m: MediaType)
    ensures MediaTypeTo(MediaTypeTrim(m)) == MediaTypeTo(m)
  {
    hide ObjectOf, SchemaTo, SchemaTrim;
    SchemaSame(m.schema);
    TrimTyped(m.schema);
  }

  // ----- maps and arrays of records -----

  lemma MapSame<V, W>(m: map<string, V>, trim: V -> V, to: V -> W)
    requires forall k :: k in m ==> to(trim(m[k])) == to(m[k])
    ensures MapOver(MapOver(m, trim), to) == MapOver(m, to) && |MapOver(m, trim)| == |m|
  {
    SameSize(m, MapOver(m, trim));
  }

  lemma SeqSame<V, W>(s: seq<V>, trim: V -> V, to: V -> W)
    requires forall i :: 0 <= i < |s| ==> to(trim(s[i])) == to(s[i])
    ensures SeqOver(SeqOver(s, trim), to) == SeqOver(s, to)
  {
  }

  /** A map member: written unless empty, and read back. */
  lemma MapMember<V, W>(j: Json, k: Key, m: map<string, V>, to: V -> Json, back: Json -> W, trim: V -> W)
    requires At(j, k) == if |m| != 0 then Some(Obj(MapOver(m, to))) else None
    requires forall n :: n in m ==> back(to(m[n])) == trim(m[n])
    ensures MapOver(FieldsAt(j, k), back) == MapOver(m, trim)
  {
    hide At;
    MapBack(m, to, back, trim);
    if |m| == 0 {
      assert m == map[];
      assert MapOver(map[], back) == MapOver(m, trim);
    }
  }

  /** The same for an array. */
  lemma ArrayMember<V, W>(j: Json, k: Key, s: seq<V>, to: V -> Json, back: Json -> W, trim: V -> W)
    requires At(j, k) == if |s| != 0 then Some(Arr(SeqOver(s, to))) else None
    requires forall i :: 0 <= i < |s| ==> back(to(s[i])) == trim(s[i])
    ensures SeqOver(ElementsAt(j, k), back) == SeqOver(s, trim)
  {
    hide At;
    SeqBack(s, to, back, trim);
  }

  lemma ResponseDistinct(r: Response)
    ensures DistinctKeys(ResponseRows(r))
  {
    hide MapOver;
  }

  lemma ResponseBack(r: Response)
    ensures ResponseFrom(ResponseTo(r)) == ResponseTrim(r)
  {
    hide ObjectOf, At, DistinctKeys, MapOver, FieldsAt, HeaderTo, HeaderFrom, HeaderTrim, MediaTypeTo, MediaTypeFrom, MediaTypeTrim;
    var j := ResponseTo(r);
    var rows := ResponseRows(r);
    ResponseDistinct(r);
    RowAt(rows, 0);
    RowAt(rows, 1);
    RowAt(rows, 2);
    forall k | k in r.headers ensures HeaderFrom(HeaderTo(r.headers[k])) == HeaderTrim(r.headers[k]) {
      HeaderBack(r.headers[k]);
    }
    MapMember(j, KHeaders, r.headers, HeaderTo, HeaderFrom, HeaderTrim);
    ContentBack(j, r.content);
  }

  lemma ContentBack(j: Json, m: map<string, MediaType>)
    requires At(j, KContent) == if |m| != 0 then Some(Obj(MapOver(m, MediaTypeTo))) else None
    ensures MapOver(FieldsAt(j, KContent), MediaTypeFrom) == MapOver(m, MediaTypeTrim)
  {
    hide At, MapOver, FieldsAt, MediaTypeTo, MediaTypeFrom, MediaTypeTrim;
    forall k | k in m ensures MediaTypeFrom(MediaTypeTo(m[k])) == MediaTypeTrim(m[k]) {
      MediaTypeBack(m[k]);
    }
    MapMember(j, KContent, m, MediaTypeTo, MediaTypeFrom, MediaTypeTrim);
  }

  lemma HeadersSame(m: map<string, Header>)
    ensures MapOver(MapOver(m, HeaderTrim), HeaderTo) == MapOver(m, HeaderTo) && |MapOver(m, HeaderTrim)| == |m|
  {
    hide HeaderTo, HeaderTrim;
    forall k | k in m ensures HeaderTo(HeaderTrim(m[k])) == HeaderTo(m[k]) {
      HeaderSame(m[k]);
    }
    MapSame(m, HeaderTrim, HeaderTo);
  }

  lemma ContentSame(m: map<string, MediaType>)
    ensures MapOver(MapOver(m, MediaTypeTrim), MediaTypeTo) == MapOver(m, MediaTypeTo) && |MapOver(m, MediaTypeTrim)| == |m|
  {
    hide MediaTypeTo, MediaTypeTrim;
    forall k | k in m ensures MediaTypeTo(MediaTypeTrim(m[k])) == MediaTypeTo(m[k]) {
      MediaTypeSame(m[k]);
    }
    MapSame(m, MediaTypeTrim, MediaTypeTo);
  }

  lemma ResponseSame(r: Response)
    ensures ResponseTo(ResponseTrim(r)) == ResponseTo(r)
  {
    hide ObjectOf, MapOver;
    HeadersSame(r.headers);
    ContentSame(r.content);
  }

  /** The loops of to_json over headers and content. */
  method ResponseToJson(r: Response) returns (j: Json)
    ensures j == ResponseTo(r)
  {
    hide HeaderTo, MediaTypeTo, ObjectOf;
    var headers := FillMap(r.headers, HeaderTo);
    var content := FillMap(r.content, MediaTypeTo);
    j := Obj(ObjectOf([ Row(KDescription, true, Str(r.description)),
                        Row(KHeaders, |r.headers| != 0, Obj(headers)),
                        Row(KContent, |r.content| != 0, Obj(content)) ]));
  }

  /** And those of from_json. */
  method ResponseFromJson(j: Json) returns (r: Response)
    ensures r == ResponseFrom(j)
  {
    hide HeaderFrom, MediaTypeFrom, At;
    var headers := FillMap(FieldsAt(j, KHeaders), HeaderFrom);
    var content := FillMap(FieldsAt(j, KContent), MediaTypeFrom);
    r := Response(TextAt(j, KDescription), headers, content);
  }

  lemma BodyDistinct(b: RequestBody)
    ensures DistinctKeys(BodyRows(b))
  {
    hide MapOver;
  }

  lemma BodyBack(b: RequestBody)
    ensures BodyFrom(BodyTo(b)) == BodyTrim(b)
  {
    hide ObjectOf, At, DistinctKeys, MapOver, FieldsAt, MediaTypeTo, MediaTypeFrom, MediaTypeTrim;
    var rows := BodyRows(b);
    BodyDistinct(b);
    RowAt(rows, 0);
    RowAt(rows, 1);
    RowAt(rows, 2);
    ContentBack(BodyTo(b), b.content);
  }

  lemma BodySame(b: RequestBody)
    ensures BodyTo(BodyTrim(b)) == BodyTo(b)
  {
    hide ObjectOf, MapOver;
    ContentSame(b.content);
  }

  lemma ParameterDistinct(p: Parameter)
    ensures DistinctKeys(ParameterRows(p))
  {
    hide SchemaTo, Typed;
  }

  lemma ParameterBack(p: Parameter)
    ensures ParameterFrom(ParameterTo(p)) == ParameterTrim(p)
  {
    hide ObjectOf, At, DistinctKeys, SchemaTo, SchemaFrom, SchemaTrim;
    SchemaBack(p.schema);
    var rows := ParameterRows(p);
    ParameterDistinct(p);
    RowAt(rows, 0);
    RowAt(rows, 1);
    RowAt(rows, 2);
    RowAt(rows, 3);
    RowAt(rows, 4);
    RowAt(rows, 5);
    RowAt(rows, 6);
  }

  lemma ParameterSame(p: Parameter)
    ensures ParameterTo(ParameterTrim(p)) == ParameterTo(p)
  {
    hide ObjectOf, SchemaTo, SchemaTrim;
    SchemaSame(p.schema);
    TrimTyped(p.schema);
  }

  function Same<V>(v: V): V {
    v
  }

  lemma ScopesBack(s: seq<string>)
    ensures ScopesOf(Texts(s)) == s
  {
    TextsBack(s);
  }

  lemma RequirementBack(r: Requirement)
    ensures RequirementFrom(RequirementTo(r)) == r
  {
    hide Texts, ScopesOf;
    forall k | k in r ensures ScopesOf(Texts(r[k])) == Same(r[k]) {
      ScopesBack(r[k]);
    }
    MapBack(r, Texts, ScopesOf, Same);
    assert MapOver(r, Same) == r;
  }

  lemma SecurityBack(j: Json, s: seq<Requirement>)
    requires At(j, KSecurity) == if |s| != 0 then Some(Arr(SeqOver(s, RequirementTo))) else None
    ensures SeqOver(ElementsAt(j, KSecurity), RequirementFrom) == s
  {
    hide At, ElementsAt, RequirementTo, RequirementFrom;
    forall i | 0 <= i < |s| ensures RequirementFrom(RequirementTo(s[i])) == Same(s[i]) {
      RequirementBack(s[i]);
    }
    ArrayMember(j, KSecurity, s, RequirementTo, RequirementFrom, Same);
    assert SeqOver(s, Same) == s;
  }

  lemma ParametersBack(j: Json, s: seq<Parameter>)
    requires At(j, KParameters) == if |s| != 0 then Some(Arr(SeqOver(s, ParameterTo))) else None
    ensures SeqOver(ElementsAt(j, KParameters), ParameterFrom) == SeqOver(s, ParameterTrim)
  {
    hide At, ElementsAt, SeqOver, ParameterTo, ParameterFrom, ParameterTrim;
    forall i | 0 <= i < |s| ensures ParameterFrom(ParameterTo(s[i])) == ParameterTrim(s[i]) {
      ParameterBack(s[i]);
    }
    ArrayMember(j, KParameters, s, ParameterTo, ParameterFrom, ParameterTrim);
  }

  lemma ParametersSame(s: seq<Parameter>)
    ensures SeqOver(SeqOver(s, ParameterTrim), ParameterTo) == SeqOver(s, ParameterTo) && |SeqOver(s, ParameterTrim)| == |s|
  {
    hide ParameterTo, ParameterTrim;
    forall i | 0 <= i < |s| ensures ParameterTo(ParameterTrim(s[i])) == ParameterTo(s[i]) {
      ParameterSame(s[i]);
    }
    SeqSame(s, ParameterTrim, ParameterTo);
  }

  lemma ResponsesBack(j: Json, m: map<string, Response>)
    requires At(j, KResponses) == if |m| != 0 then Some(Obj(MapOver(m, ResponseTo))) else None
    ensures MapOver(FieldsAt(j, KResponses), ResponseFrom) == MapOver(m, ResponseTrim)
  {
    hide At, MapOver, FieldsAt, ResponseTo, ResponseFrom, ResponseTrim;
    forall k | k in m ensures ResponseFrom(ResponseTo(m[k])) == ResponseTrim(m[k]) {
      ResponseBack(m[k]);
    }
    MapMember(j, KResponses, m, ResponseTo, ResponseFrom, ResponseTrim);
  }

  lemma ResponsesSame(m: map<string, Response>)
    ensures MapOver(MapOver(m, ResponseTrim), ResponseTo) == MapOver(m, ResponseTo) && |MapOver(m, ResponseTrim)| == |m|
  {
    hide ResponseTo, ResponseTrim;
    forall k | k in m ensures ResponseTo(ResponseTrim(m[k])) == ResponseTo(m[k]) {
      ResponseSame(m[k]);
    }
    MapSame(m, ResponseTrim, ResponseTo);
  }

  lemma OperationDistinct(o: Operation)
    ensures DistinctKeys(OperationRows(o))
  {
    hide Texts, SeqOver, MapOver, BodyTo;
  }

  lemma OperationBack(o: Operation)
    ensures OperationFrom(OperationTo(o)) == OperationTrim(o)
  {
    hide ObjectOf, At, DistinctKeys, MapOver, SeqOver, ElementsAt, FieldsAt, Texts, TextsOf, ParameterTo, ParameterFrom, ParameterTrim,
      BodyTo, BodyFrom, BodyTrim, ResponseTo, ResponseFrom, ResponseTrim, RequirementTo, RequirementFrom;
    var j := OperationTo(o);
    var rows := OperationRows(o);
    OperationDistinct(o);
    RowAt(rows, 0);
    RowAt(rows, 1);
    RowAt(rows, 2);
    RowAt(rows, 3);
    RowAt(rows, 4);
    RowAt(rows, 5);
    RowAt(rows, 6);
    RowAt(rows, 7);
    RowAt(rows, 8);
    TagsBack(j, o.tags);
    ParametersBack(j, o.parameters);
    BodyBack(o.requestBody);
    ResponsesBack(j, o.responses);
    SecurityBack(j, o.security);
  }

  lemma TagsBack(j: Json, s: seq<string>)
    requires At(j, KTags) == if |s| != 0 then Some(Texts(s)) else None
    ensures TextsOf(ElementsAt(j, KTags)) == s
  {
    hide At, Texts, TextsOf;
    TextsBack(s);
  }

  lemma OperationSame(o: Operation)
    ensures OperationTo(OperationTrim(o)) == OperationTo(o) && |OperationTrim(o).responses| == |o.responses|
  {
    hide ObjectOf, MapOver, SeqOver, BodyTo, ParameterTo, ParameterTrim, ResponseTo, ResponseTrim, MediaTypeTrim;
    ParametersSame(o.parameters);
    BodySame(o.requestBody);
    ContentSame(o.requestBody.content);
    ResponsesSame(o.responses);
  }

  lemma PartBack(j: Json, k: Key, o: Operation)
    requires At(j, k) == if |o.responses| != 0 then Some(OperationTo(o)) else None
    ensures OperationAt(j, k) == PartTrim(o)
  {
    hide At, OperationTo, OperationFrom, OperationTrim;
    OperationBack(o);
  }

  lemma PathItemDistinct(p: PathItem)
    ensures DistinctKeys(PathItemRows(p))
  {
    hide SeqOver, OperationTo;
  }

  lemma PathItemBack(p: PathItem)
    ensures PathItemFrom(PathItemTo(p)) == PathItemTrim(p)
  {
    hide ObjectOf, At, DistinctKeys, SeqOver, ElementsAt, ParameterTo, ParameterFrom, ParameterTrim, OperationTo, OperationAt, PartTrim;
    var j := PathItemTo(p);
    var rows := PathItemRows(p);
    PathItemDistinct(p);
    RowAt(rows, 0);
    RowAt(rows, 1);
    RowAt(rows, 2);
    RowAt(rows, 3);
    RowAt(rows, 4);
    RowAt(rows, 5);
    RowAt(rows, 6);
    RowAt(rows, 7);
    RowAt(rows, 8);
    RowAt(rows, 9);
    ParametersBack(j, p.parameters);
    PartBack(j, KGet, p.get);
    PartBack(j, KPost, p.post);
    PartBack(j, KPut, p.put);
    PartBack(j, KDelete, p.delete);
    PartBack(j, KPatch, p.patch);
    PartBack(j, KHead, p.head);
    PartBack(j, KOptions, p.options);
  }

  lemma PartSame(k: Key, o: Operation)
    ensures OperationRow(k, PartTrim(o)) == OperationRow(k, o)
  {
    hide OperationTo, OperationTrim;
    OperationSame(o);
  }

  lemma PathItemSame(p: PathItem)
    ensures PathItemTo(PathItemTrim(p)) == PathItemTo(p)
  {
    hide ObjectOf, SeqOver, ParameterTo, ParameterTrim, OperationRow, PartTrim;
    ParametersSame(p.parameters);
    PartSame(KGet, p.get);
    PartSame(KPost, p.post);
    PartSame(KPut, p.put);
    PartSame(KDelete, p.delete);
    PartSame(KPatch, p.patch);
    PartSame(KHead, p.head);
    PartSame(KOptions, p.options);
  }

  lemma SecuritySchemeBack(s: SecurityScheme)
    ensures SecuritySchemeFrom(SecuritySchemeTo(s)) == s
  {
    hide ObjectOf, At, DistinctKeys;
    var rows := SecuritySchemeRows(s);
    RowAt(rows, 0);
    RowAt(rows, 1);
    RowAt(rows, 2);
    RowAt(rows, 3);
    RowAt(rows, 4);
    RowAt(rows, 5);
  }

  // ----- components -----

  lemma SchemasBack(j: Json, m: map<string, Schema>)
    requires At(j, KSchemas) == if |m| != 0 then Some(Obj(MapOver(m, SchemaTo))) else None
    ensures MapOver(FieldsAt(j, KSchemas), SchemaFrom) == MapOver(m, SchemaTrim)
  {
    hide At, MapOver, FieldsAt, SchemaTo, SchemaFrom, SchemaTrim;
    forall k | k in m ensures SchemaFrom(SchemaTo(m[k])) == SchemaTrim(m[k]) {
      SchemaBack(m[k]);
    }
    MapMember(j, KSchemas, m, SchemaTo, SchemaFrom, SchemaTrim);
  }

  lemma SchemasSame(m: map<string, Schema>)
    ensures MapOver(MapOver(m, SchemaTrim), SchemaTo) == MapOver(m, SchemaTo) && |MapOver(m, SchemaTrim)| == |m|
  {
    hide SchemaTo, SchemaTrim;
    forall k | k in m ensures SchemaTo(SchemaTrim(m[k])) == SchemaTo(m[k]) {
      SchemaSame(m[k]);
    }
    MapSame(m, SchemaTrim, SchemaTo);
  }

  lemma NamedParametersBack(j: Json, m: map<string, Parameter>)
    requires At(j, KParameters) == if |m| != 0 then Some(Obj(MapOver(m, ParameterTo))) else None
    ensures MapOver(FieldsAt(j, KParameters), ParameterFrom) == MapOver(m, ParameterTrim)
  {
    hide At, MapOver, FieldsAt, ParameterTo, ParameterFrom, ParameterTrim;
    forall k | k in m ensures ParameterFrom(ParameterTo(m[k])) == ParameterTrim(m[k]) {
      ParameterBack(m[k]);
    }
    MapMember(j, KParameters, m, ParameterTo, ParameterFrom, ParameterTrim);
  }

  lemma NamedParametersSame(m: map<string, Parameter>)
    ensures MapOver(MapOver(m, ParameterTrim), ParameterTo) == MapOver(m, ParameterTo) && |MapOver(m, ParameterTrim)| == |m|
  {
    hide ParameterTo, ParameterTrim;
    forall k | k in m ensures ParameterTo(ParameterTrim(m[k])) == ParameterTo(m[k]) {
      ParameterSame(m[k]);
    }
    MapSame(m, ParameterTrim, ParameterTo);
  }

  lemma BodiesBack(j: Json, m: map<string, RequestBody>)
    requires At(j, KRequestBodies) == if |m| != 0 then Some(Obj(MapOver(m, BodyTo))) else None
    ensures MapOver(FieldsAt(j, KRequestBodies), BodyFrom) == MapOver(m, BodyTrim)
  {
    hide At, MapOver, FieldsAt, BodyTo, BodyFrom, BodyTrim;
    forall k | k in m ensures BodyFrom(BodyTo(m[k])) == BodyTrim(m[k]) {
      BodyBack(m[k]);
    }
    MapMember(j, KRequestBodies, m, BodyTo, BodyFrom, BodyTrim);
  }

  lemma BodiesSame(m: map<string, RequestBody>)
    ensures MapOver(MapOver(m, BodyTrim), BodyTo) == MapOver(m, BodyTo) && |MapOver(m, BodyTrim)| == |m|
  {
    hide BodyTo, BodyTrim;
    forall k | k in m ensures BodyTo(BodyTrim(m[k])) == BodyTo(m[k]) {
      BodySame(m[k]);
    }
    MapSame(m, BodyTrim, BodyTo);
  }

  lemma HeadersBack(j: Json, m: map<string, Header>)
    requires At(j, KHeaders) == if |m| != 0 then Some(Obj(MapOver(m, HeaderTo))) else None
    ensures MapOver(FieldsAt(j, KHeaders), HeaderFrom) == MapOver(m, HeaderTrim)
  {
    hide At, MapOver, FieldsAt, HeaderTo, HeaderFrom, HeaderTrim;
    forall k | k in m ensures HeaderFrom(HeaderTo(m[k])) == HeaderTrim(m[k]) {
      HeaderBack(m[k]);
    }
    MapMember(j, KHeaders, m, HeaderTo, HeaderFrom, HeaderTrim);
  }

  lemma SchemesBack(j: Json, m: map<string, SecurityScheme>)
    requires At(j, KSecuritySchemes) == if |m| != 0 then Some(Obj(MapOver(m, SecuritySchemeTo))) else None
    ensures MapOver(FieldsAt(j, KSecuritySchemes), SecuritySchemeFrom) == m
  {
    hide At, FieldsAt, SecuritySchemeTo, SecuritySchemeFrom;
    forall k | k in m ensures SecuritySchemeFrom(SecuritySchemeTo(m[k])) == Same(m[k]) {
      SecuritySchemeBack(m[k]);
    }
    MapMember(j, KSecuritySchemes, m, SecuritySchemeTo, SecuritySchemeFrom, Same);
    assert MapOver(m, Same) == m;
  }

  lemma ComponentsDistinct(c: Components)
    ensures DistinctKeys(ComponentsRows(c))
  {
    hide MapOver;
  }

  lemma ComponentsBack(c: Components)
    ensures ComponentsFrom(ComponentsTo(c)) == ComponentsTrim(c)
  {
    hide ObjectOf, At, DistinctKeys, MapOver, FieldsAt, SchemaTo, SchemaFrom, SchemaTrim, ResponseTo, ResponseFrom, ResponseTrim,
      ParameterTo, ParameterFrom, ParameterTrim, BodyTo, BodyFrom, BodyTrim, HeaderTo, HeaderFrom, HeaderTrim,
      SecuritySchemeTo, SecuritySchemeFrom;
    var j := ComponentsTo(c);
    var rows := ComponentsRows(c);
    ComponentsDistinct(c);
    RowAt(rows, 0);
    RowAt(rows, 1);
    RowAt(rows, 2);
    RowAt(rows, 3);
    RowAt(rows, 4);
    RowAt(rows, 5);
    SchemasBack(j, c.schemas);
    ResponsesBack(j, c.responses);
    NamedParametersBack(j, c.parameters);
    BodiesBack(j, c.requestBodies);
    HeadersBack(j, c.headers);
    SchemesBack(j, c.securitySchemes);
  }

  lemma ComponentsSame(c: Components)
    ensures ComponentsTo(ComponentsTrim(c)) == ComponentsTo(c) && IsComponentsEmpty(ComponentsTrim(c)) == IsComponentsEmpty(c)
    ensures IsComponentsEmpty(c) ==> ComponentsTrim(c) == NO_COMPONENTS
  {
    hide ObjectOf, MapOver, SchemaTo, SchemaTrim, ResponseTo, ResponseTrim, ParameterTo, ParameterTrim, BodyTo, BodyTrim,
      HeaderTo, HeaderTrim, SecuritySchemeTo;
    SchemasSame(c.schemas);
    ResponsesSame(c.responses);
    NamedParametersSame(c.parameters);
    BodiesSame(c.requestBodies);
    HeadersSame(c.headers);
  }

  // ----- documents -----

  lemma DocsBack(j: Json, d: Link)
    requires At(j, KExternalDocs) == if d.url != "" then Some(LinkTo(d)) else None
    ensures DocsAt(j) == DocsTrim(d)
  {
    hide At, LinkTo, LinkFrom;
    LinkBack(d);
  }

  lemma ServersBack(j: Json, s: seq<Link>)
    requires At(j, KServers) == if |s| != 0 then Some(Arr(SeqOver(s, LinkTo))) else None
    ensures SeqOver(ElementsAt(j, KServers), LinkFrom) == s
  {
    hide At, ElementsAt, LinkTo, LinkFrom;
    forall i | 0 <= i < |s| ensures LinkFrom(LinkTo(s[i])) == Same(s[i]) {
      LinkBack(s[i]);
    }
    ArrayMember(j, KServers, s, LinkTo, LinkFrom, Same);
    assert SeqOver(s, Same) == s;
  }

  lemma TagListBack(j: Json, s: seq<Tag>)
    requires At(j, KTags) == if |s| != 0 then Some(Arr(SeqOver(s, TagTo))) else None
    ensures SeqOver(ElementsAt(j, KTags), TagFrom) == SeqOver(s, TagTrim)
  {
    hide At, ElementsAt, SeqOver, TagTo, TagFrom, TagTrim;
    forall i | 0 <= i < |s| ensures TagFrom(TagTo(s[i])) == TagTrim(s[i]) {
      TagBack(s[i]);
    }
    ArrayMember(j, KTags, s, TagTo, TagFrom, TagTrim);
  }

  lemma TagListSame(s: seq<Tag>)
    ensures SeqOver(SeqOver(s, TagTrim), TagTo) == SeqOver(s, TagTo) && |SeqOver(s, TagTrim)| == |s|
  {
    hide TagTo, TagTrim;
    forall i | 0 <= i < |s| ensures TagTo(TagTrim(s[i])) == TagTo(s[i]) {
      TagSame(s[i]);
    }
    SeqSame(s, TagTrim, TagTo);
  }

  lemma PathsBack(j: Json, m: map<string, PathItem>)
    requires At(j, KPaths) == Some(Obj(MapOver(m, PathItemTo)))
    ensures MapOver(FieldsAt(j, KPaths), PathItemFrom) == MapOver(m, PathItemTrim)
  {
    hide At, MapOver, PathItemTo, PathItemFrom, PathItemTrim;
    forall k | k in m ensures PathItemFrom(PathItemTo(m[k])) == PathItemTrim(m[k]) {
      PathItemBack(m[k]);
    }
    MapBack(m, PathItemTo, PathItemFrom, PathItemTrim);
  }

  lemma PathsSame(m: map<string, PathItem>)
    ensures MapOver(MapOver(m, PathItemTrim), PathItemTo) == MapOver(m, PathItemTo)
  {
    hide PathItemTo, PathItemTrim;
    forall k | k in m ensures PathItemTo(PathItemTrim(m[k])) == PathItemTo(m[k]) {
      PathItemSame(m[k]);
    }
    MapSame(m, PathItemTrim, PathItemTo);
  }

  lemma DocumentDistinct(d: Document)
    ensures DistinctKeys(DocumentRows(d))
  {
    hide InfoTo, SeqOver, MapOver, ComponentsTo, LinkTo, IsComponentsEmpty;
  }

  lemma ComponentsMember(j: Json, c: Components)
    requires At(j, KComponents) == if IsComponentsEmpty(c) then None else Some(ComponentsTo(c))
    ensures var m := At(j, KComponents); (if m.Some? then ComponentsFrom(m.value) else NO_COMPONENTS) == ComponentsTrim(c)
  {
    hide At, ComponentsTo, ComponentsFrom, ComponentsTrim, IsComponentsEmpty;
    ComponentsBack(c);
    ComponentsSame(c);
  }

  /** Reading a document that was written gives its trimmed form. */
  lemma DocumentBack(d: Document)
    ensures DocumentFrom(DocumentTo(d)) == DocumentTrim(d)
  {
    hide ObjectOf, At, DistinctKeys, MapOver, SeqOver, FieldsAt, ElementsAt, InfoTo, InfoFrom, InfoTrim, LinkTo, LinkFrom, DocsAt, DocsTrim,
      PathItemTo, PathItemFrom, PathItemTrim, ComponentsTo, ComponentsFrom, ComponentsTrim, IsComponentsEmpty,
      RequirementTo, RequirementFrom, TagTo, TagFrom, TagTrim;
    var j := DocumentTo(d);
    var rows := DocumentRows(d);
    DocumentDistinct(d);
    RowAt(rows, 0);
    RowAt(rows, 1);
    RowAt(rows, 2);
    RowAt(rows, 3);
    RowAt(rows, 4);
    RowAt(rows, 5);
    RowAt(rows, 6);
    RowAt(rows, 7);
    InfoBack(d.info);
    ServersBack(j, d.servers);
    PathsBack(j, d.paths);
    ComponentsMember(j, d.components);
    SecurityBack(j, d.security);
    TagListBack(j, d.tags);
    DocsBack(j, d.externalDocs);
  }

  /** Trimming changes nothing in what is written. */
  lemma DocumentSame(d: Document)
    ensures DocumentTo(DocumentTrim(d)) == DocumentTo(d)
  {
    hide ObjectOf, MapOver, SeqOver, InfoTo, InfoTrim, LinkTo, PathItemTo, PathItemTrim, ComponentsTo, ComponentsTrim, IsComponentsEmpty,
      RequirementTo, TagTo, TagTrim;
    InfoSame(d.info);
    PathsSame(d.paths);
    ComponentsSame(d.components);
    TagListSame(d.tags);
  }

  /** Writing what was read from a written document gives the same JSON again. */
  lemma DocumentRetraction(d: Document)
    ensures DocumentTo(DocumentFrom(DocumentTo(d))) == DocumentTo(d)
  {
    hide DocumentTo, DocumentFrom, DocumentTrim;
    DocumentBack(d);
    DocumentSame(d);
  }

  /** Exactly the documents with nothing to trim come back as they were. */
  lemma DocumentRoundTrip(d: Document)
    ensures DocumentFrom(DocumentTo(d)) == d <==> DocumentTrim(d) == d
  {
    hide DocumentTo, DocumentFrom, DocumentTrim;
    DocumentBack(d);
  }
}
