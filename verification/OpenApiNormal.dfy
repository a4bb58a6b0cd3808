/** The normal form of OpenAPI documents: what the omissions of the writer leave room for. */
module OpenApiNormal {
  import opened JsonTree
  import opened OpenApi
  import opened OpenApiProof
  import opened OpenApiDocument

  /** A reference holds nothing else, at any depth. */
  ghost predicate NormalSchema(s: Schema) {
    if s.ref != "" then s == NO_SCHEMA.(ref := s.ref)
    else
      && (forall k :: k in s.properties ==> NormalSchema(s.properties[k]))
      && (s.items.Some? ==> NormalSchema(s.items.value))
  }

  /** A license without a name has no url. */
  ghost predicate NormalInfo(i: Info) {
    i.license.name == "" ==> i.license.url == ""
  }

  /** Documentation without a url has no description. */
  ghost predicate NormalDocs(d: Link) {
    d.url == "" ==> d.description == ""
  }

  ghost predicate NormalTag(t: Tag) {
    NormalDocs(t.externalDocs)
  }

  /** A header's schema has a type or a reference, or is none. */
  ghost predicate NormalHeader(h: Header) {
    if Typed(h.schema) then NormalSchema(h.schema) else h.schema == NO_SCHEMA
  }

  ghost predicate NormalMediaType(m: MediaType) {
    if Filled(m.schema) then NormalSchema(m.schema) else m.schema == NO_SCHEMA
  }

  ghost predicate NormalResponse(r: Response) {
    && (forall k :: k in r.headers ==> NormalHeader(r.headers[k]))
    && (forall k :: k in r.content ==> NormalMediaType(r.content[k]))
  }

  ghost predicate NormalBody(b: RequestBody) {
    forall k :: k in b.content ==> NormalMediaType(b.content[k])
  }

  ghost predicate NormalParameter(p: Parameter) {
    if Typed(p.schema) then NormalSchema(p.schema) else p.schema == NO_SCHEMA
  }

  /** A request body without content is none. */
  ghost predicate NormalOperation(o: Operation) {
    && (forall i :: 0 <= i < |o.parameters| ==> NormalParameter(o.parameters[i]))
    && (if |o.requestBody.content| != 0 then NormalBody(o.requestBody) else o.requestBody == NO_BODY)
    && (forall k :: k in o.responses ==> NormalResponse(o.responses[k]))
  }

  /** An operation without responses is none. */
  ghost predicate NormalPart(o: Operation) {
    if |o.responses| != 0 then NormalOperation(o) else o == NO_OPERATION
  }

  ghost predicate NormalPathItem(p: PathItem) {
    && NormalPart(p.get) && NormalPart(p.post) && NormalPart(p.put) && NormalPart(p.delete) && NormalPart(p.patch)
    && NormalPart(p.head) && NormalPart(p.options)
    && forall i :: 0 <= i < |p.parameters| ==> NormalParameter(p.parameters[i])
  }

  ghost predicate NormalComponents(c: Components) {
    && (forall k :: k in c.schemas ==> NormalSchema(c.schemas[k]))
    && (forall k :: k in c.responses ==> NormalResponse(c.responses[k]))
    && (forall k :: k in c.parameters ==> NormalParameter(c.parameters[k]))
    && (forall k :: k in c.requestBodies ==> NormalBody(c.requestBodies[k]))
    && (forall k :: k in c.headers ==> NormalHeader(c.headers[k]))
  }

  ghost predicate NormalDocument(d: Document) {
    && NormalInfo(d.info) && NormalComponents(d.components) && NormalDocs(d.externalDocs)
    && (forall k :: k in d.paths ==> NormalPathItem(d.paths[k]))
    && (forall i :: 0 <= i < |d.tags| ==> NormalTag(d.tags[i]))
  }

  // ----- normal is what trimming leaves alone -----

  lemma {:induction false} SchemaNormal(s: Schema)
    ensures SchemaTrim(s) == s <==> NormalSchema(s)
    decreases s
  {
    if s.ref == "" {
      forall k | k in s.properties ensures SchemaTrim(s.properties[k]) == s.properties[k] <==> NormalSchema(s.properties[k]) {
        SchemaNormal(s.properties[k]);
      }
      if s.items.Some? {
        SchemaNormal(s.items.value);
      }
      WholeNormal(s);
    }
  }

  lemma NormalIs(s: Schema)
    requires s.ref == ""
    ensures NormalSchema(s) <==> (forall k :: k in s.properties ==> NormalSchema(s.properties[k]))
                                 && (s.items.Some? ==> NormalSchema(s.items.value))
  {
  }

  lemma WholeNormal(s: Schema)
    requires s.ref == ""
    requires forall k :: k in s.properties ==> (SchemaTrim(s.properties[k]) == s.properties[k] <==> NormalSchema(s.properties[k]))
    requires s.items.Some? ==> (SchemaTrim(s.items.value) == s.items.value <==> NormalSchema(s.items.value))
    ensures SchemaTrim(s) == s <==> NormalSchema(s)
  {
    hide SchemaTrim, NormalSchema;
    var t := SchemaTrim(s);
    TrimIs(s);
    NormalIs(s);
    if NormalSchema(s) {
      SameValues(t.properties, s.properties);
      SameSchema(s, t, s);
    }
  }

  lemma MapNormal<V>(m: map<string, V>, trim: V -> V, normal: V -> bool)
    requires forall k :: k in m ==> (trim(m[k]) == m[k] <==> normal(m[k]))
    ensures MapOver(m, trim) == m <==> forall k :: k in m ==> normal(m[k])
  {
    if MapOver(m, trim) == m {
      forall k | k in m ensures normal(m[k]) {
        assert MapOver(m, trim)[k] == trim(m[k]);
      }
    }
  }

  lemma SeqNormal<V>(s: seq<V>, trim: V -> V, normal: V -> bool)
    requires forall i :: 0 <= i < |s| ==> (trim(s[i]) == s[i] <==> normal(s[i]))
    ensures SeqOver(s, trim) == s <==> forall i :: 0 <= i < |s| ==> normal(s[i])
  {
    if SeqOver(s, trim) == s {
      forall i | 0 <= i < |s| ensures normal(s[i]) {
        assert SeqOver(s, trim)[i] == trim(s[i]);
      }
    }
  }

  lemma HeaderNormal(h: Header)
    ensures HeaderTrim(h) == h <==> NormalHeader(h)
  {
    hide SchemaTrim, NormalSchema;
    SchemaNormal(h.schema);
  }

  lemma MediaTypeNormal(m: MediaType)
    ensures MediaTypeTrim(m) == m <==> NormalMediaType(m)
  {
    hide SchemaTrim, NormalSchema;
    SchemaNormal(m.schema);
  }

  lemma ParameterNormal(p: Parameter)
    ensures ParameterTrim(p) == p <==> NormalParameter(p)
  {
    hide SchemaTrim, NormalSchema;
    SchemaNormal(p.schema);
  }

  lemma HeadersNormal(m: map<string, Header>)
    ensures MapOver(m, HeaderTrim) == m <==> forall k :: k in m ==> NormalHeader(m[k])
  {
    hide HeaderTrim, NormalHeader;
    forall k | k in m ensures HeaderTrim(m[k]) == m[k] <==> NormalHeader(m[k]) {
      HeaderNormal(m[k]);
    }
    MapNormal(m, HeaderTrim, NormalHeader);
  }

  lemma ContentNormal(m: map<string, MediaType>)
    ensures MapOver(m, MediaTypeTrim) == m <==> forall k :: k in m ==> NormalMediaType(m[k])
  {
    hide MediaTypeTrim, NormalMediaType;
    forall k | k in m ensures MediaTypeTrim(m[k]) == m[k] <==> NormalMediaType(m[k]) {
      MediaTypeNormal(m[k]);
    }
    MapNormal(m, MediaTypeTrim, NormalMediaType);
  }

  lemma ResponseNormal(r: Response)
    ensures ResponseTrim(r) == r <==> NormalResponse(r)
  {
    hide MapOver, NormalHeader, NormalMediaType;
    HeadersNormal(r.headers);
    ContentNormal(r.content);
  }

  lemma BodyNormal(b: RequestBody)
    ensures BodyTrim(b) == b <==> NormalBody(b)
  {
    hide MapOver, NormalMediaType;
    ContentNormal(b.content);
  }

  lemma ResponsesNormal(m: map<string, Response>)
    ensures MapOver(m, ResponseTrim) == m <==> forall k :: k in m ==> NormalResponse(m[k])
  {
    hide ResponseTrim, NormalResponse;
    forall k | k in m ensures ResponseTrim(m[k]) == m[k] <==> NormalResponse(m[k]) {
      ResponseNormal(m[k]);
    }
    MapNormal(m, ResponseTrim, NormalResponse);
  }

  lemma ParametersNormal(s: seq<Parameter>)
    ensures SeqOver(s, ParameterTrim) == s <==> forall i :: 0 <= i < |s| ==> NormalParameter(s[i])
  {
    hide ParameterTrim, NormalParameter;
    forall i | 0 <= i < |s| ensures ParameterTrim(s[i]) == s[i] <==> NormalParameter(s[i]) {
      ParameterNormal(s[i]);
    }
    SeqNormal(s, ParameterTrim, NormalParameter);
  }

  lemma OperationNormal(o: Operation)
    ensures OperationTrim(o) == o <==> NormalOperation(o)
  {
    hide MapOver, SeqOver, BodyTrim, NormalBody, NormalResponse, NormalParameter;
    ParametersNormal(o.parameters);
    BodyNormal(o.requestBody);
    ResponsesNormal(o.responses);
  }

  lemma PartNormal(o: Operation)
    ensures PartTrim(o) == o <==> NormalPart(o)
  {
    hide OperationTrim, NormalOperation;
    OperationNormal(o);
  }

  lemma PathItemNormal(p: PathItem)
    ensures PathItemTrim(p) == p <==> NormalPathItem(p)
  {
    hide SeqOver, PartTrim, NormalPart, NormalParameter;
    PartNormal(p.get);
    PartNormal(p.post);
    PartNormal(p.put);
    PartNormal(p.delete);
    PartNormal(p.patch);
    PartNormal(p.head);
    PartNormal(p.options);
    ParametersNormal(p.parameters);
  }

  lemma ComponentsNormal(c: Components)
    ensures ComponentsTrim(c) == c <==> NormalComponents(c)
  {
    hide SchemaTrim, NormalSchema, ParameterTrim, NormalParameter, BodyTrim, NormalBody, NormalHeader, NormalResponse;
    forall k | k in c.schemas ensures SchemaTrim(c.schemas[k]) == c.schemas[k] <==> NormalSchema(c.schemas[k]) {
      SchemaNormal(c.schemas[k]);
    }
    MapNormal(c.schemas, SchemaTrim, NormalSchema);
    ResponsesNormal(c.responses);
    forall k | k in c.parameters ensures ParameterTrim(c.parameters[k]) == c.parameters[k] <==> NormalParameter(c.parameters[k]) {
      ParameterNormal(c.parameters[k]);
    }
    MapNormal(c.parameters, ParameterTrim, NormalParameter);
    forall k | k in c.requestBodies ensures BodyTrim(c.requestBodies[k]) == c.requestBodies[k] <==> NormalBody(c.requestBodies[k]) {
      BodyNormal(c.requestBodies[k]);
    }
    MapNormal(c.requestBodies, BodyTrim, NormalBody);
    HeadersNormal(c.headers);
    hide MapOver;
  }

  lemma DocumentNormal(d: Document)
    ensures DocumentTrim(d) == d <==> NormalDocument(d)
  {
    hide PathItemTrim, NormalPathItem, ComponentsTrim, NormalComponents;
    forall k | k in d.paths ensures PathItemTrim(d.paths[k]) == d.paths[k] <==> NormalPathItem(d.paths[k]) {
      PathItemNormal(d.paths[k]);
    }
    MapNormal(d.paths, PathItemTrim, NormalPathItem);
    ComponentsNormal(d.components);
    forall i | 0 <= i < |d.tags| ensures TagTrim(d.tags[i]) == d.tags[i] <==> NormalTag(d.tags[i]) {
      TagNormal(d.tags[i]);
    }
    SeqNormal(d.tags, TagTrim, NormalTag);
    hide MapOver, SeqOver, TagTrim, NormalTag;
  }

  lemma TagNormal(t: Tag)
    ensures TagTrim(t) == t <==> NormalTag(t)
  {
  }

  /** Exactly the documents in normal form come back from writing and reading as they were. */
  lemma NormalRoundTrip(d: Document)
    ensures DocumentFrom(DocumentTo(d)) == d <==> NormalDocument(d)
  {
    hide DocumentTo, DocumentFrom, DocumentTrim, NormalDocument;
    DocumentRoundTrip(d);
    DocumentNormal(d);
  }
}
