/** The names of the members of OpenAPI objects (openapi.v). */
module JsonKeys {

  datatype Key =
    KName | KUrl | KEmail | KTitle | KVersion | KDescription | KTermsOfService | KContact | KLicense | KExternalDocs | KRef |
    KType | KFormat | KDefault | KExample | KEnum | KRequired | KProperties | KItems | KMinimum | KMaximum | KMinLength |
    KMaxLength | KPattern | KNullable | KReadOnly | KWriteOnly | KSchema | KHeaders | KContent | KIn | KDeprecated | KSummary |
    KOperationId | KTags | KParameters | KRequestBody | KResponses | KSecurity | KGet | KPost | KPut | KDelete | KPatch | KHead |
    KOptions | KScheme | KBearerFormat | KSchemas | KRequestBodies | KSecuritySchemes | KOpenapi | KInfo | KServers | KPaths |
    KComponents

  function Text(k: Key): string {
    match k
    case KName => "name"
    case KUrl => "url"
    case KEmail => "email"
    case KTitle => "title"
    case KVersion => "version"
    case KDescription => "description"
    case KTermsOfService => "termsOfService"
    case KContact => "contact"
    case KLicense => "license"
    case KExternalDocs => "externalDocs"
    case KRef => "$ref"
    case KType => "type"
    case KFormat => "format"
    case KDefault => "default"
    case KExample => "example"
    case KEnum => "enum"
    case KRequired => "required"
    case KProperties => "properties"
    case KItems => "items"
    case KMinimum => "minimum"
    case KMaximum => "maximum"
    case KMinLength => "minLength"
    case KMaxLength => "maxLength"
    case KPattern => "pattern"
    case KNullable => "nullable"
    case KReadOnly => "readOnly"
    case KWriteOnly => "writeOnly"
    case KSchema => "schema"
    case KHeaders => "headers"
    case KContent => "content"
    case KIn => "in"
    case KDeprecated => "deprecated"
    case KSummary => "summary"
    case KOperationId => "operationId"
    case KTags => "tags"
    case KParameters => "parameters"
    case KRequestBody => "requestBody"
    case KResponses => "responses"
    case KSecurity => "security"
    case KGet => "get"
    case KPost => "post"
    case KPut => "put"
    case KDelete => "delete"
    case KPatch => "patch"
    case KHead => "head"
    case KOptions => "options"
    case KScheme => "scheme"
    case KBearerFormat => "bearerFormat"
    case KSchemas => "schemas"
    case KRequestBodies => "requestBodies"
    case KSecuritySchemes => "securitySchemes"
    case KOpenapi => "openapi"
    case KInfo => "info"
    case KServers => "servers"
    case KPaths => "paths"
    case KComponents => "components"
  }

  /** The only key that a name can belong to: a few letters tell it. */
  ghost function KeyOf(s: string): Key {
    match |s|
    case 2 => KIn
    case 3 => if s[0] == 'u' then KUrl else if s[0] == 'g' then KGet else KPut
    case 4 =>
      if s[2] == 'm' then KName else if s[2] == 'e' then KRef else if s[2] == 'p' then KType
      else if s[2] == 'u' then KEnum else if s[2] == 'g' then KTags else if s[2] == 's' then KPost
      else if s[2] == 'a' then KHead else KInfo
    case 5 =>
      if s[3] == 'i' then KEmail else if s[3] == 'l' then KTitle else if s[3] == 'm' then KItems
      else if s[3] == 'c' then KPatch else KPaths
    case 6 =>
      if s[0] == 'f' then KFormat else if s[0] == 's' then (if s[5] == 'a' then KSchema else KScheme) else KDelete
    case 7 =>
      if s[0] == 'v' then KVersion else if s[0] == 'c' then (if s[4] == 'a' then KContact else KContent)
      else if s[0] == 'l' then KLicense else if s[0] == 'd' then KDefault else if s[0] == 'e' then KExample
      else if s[0] == 'm' then (if s[1] == 'i' then KMinimum else KMaximum) else if s[0] == 'p' then KPattern
      else if s[0] == 'h' then KHeaders else if s[0] == 's' then (if s[1] == 'u' then KSummary
      else if s[1] == 'c' then KSchemas else KServers) else (if s[2] == 't' then KOptions else KOpenapi)
    case 8 =>
      if s[2] == 'q' then KRequired else if s[2] == 'l' then KNullable else if s[2] == 'a' then KReadOnly
      else KSecurity
    case 9 =>
      if s[1] == 'i' then KMinLength else if s[1] == 'a' then KMaxLength else if s[1] == 'r' then KWriteOnly
      else KResponses
    case 10 =>
      if s[1] == 'r' then KProperties else if s[1] == 'e' then KDeprecated else if s[1] == 'a' then KParameters
      else KComponents
    case 11 => if s[0] == 'd' then KDescription else if s[0] == 'o' then KOperationId else KRequestBody
    case 12 => if s[0] == 'e' then KExternalDocs else KBearerFormat
    case 13 => KRequestBodies
    case 14 => KTermsOfService
    case 15 => KSecuritySchemes
    case _ => KComponents
  }

  lemma KeyOfText(k: Key)
    ensures KeyOf(Text(k)) == k
  {
    match k {
      case KName => assert KeyOf("name") == KName;
      case KUrl => assert KeyOf("url") == KUrl;
      case KEmail => assert KeyOf("email") == KEmail;
      case KTitle => assert KeyOf("title") == KTitle;
      case KVersion => assert KeyOf("version") == KVersion;
      case KDescription => assert KeyOf("description") == KDescription;
      case KTermsOfService => assert KeyOf("termsOfService") == KTermsOfService;
      case KContact => assert KeyOf("contact") == KContact;
      case KLicense => assert KeyOf("license") == KLicense;
      case KExternalDocs => assert KeyOf("externalDocs") == KExternalDocs;
      case KRef => assert KeyOf("$ref") == KRef;
      case KType => assert KeyOf("type") == KType;
      case KFormat => assert KeyOf("format") == KFormat;
      case KDefault => assert KeyOf("default") == KDefault;
      case KExample => assert KeyOf("example") == KExample;
      case KEnum => assert KeyOf("enum") == KEnum;
      case KRequired => assert KeyOf("required") == KRequired;
      case KProperties => assert KeyOf("properties") == KProperties;
      case KItems => assert KeyOf("items") == KItems;
      case KMinimum => assert KeyOf("minimum") == KMinimum;
      case KMaximum => assert KeyOf("maximum") == KMaximum;
      case KMinLength => assert KeyOf("minLength") == KMinLength;
      case KMaxLength => assert KeyOf("maxLength") == KMaxLength;
      case KPattern => assert KeyOf("pattern") == KPattern;
      case KNullable => assert KeyOf("nullable") == KNullable;
      case KReadOnly => assert KeyOf("readOnly") == KReadOnly;
      case KWriteOnly => assert KeyOf("writeOnly") == KWriteOnly;
      case KSchema => assert KeyOf("schema") == KSchema;
      case KHeaders => assert KeyOf("headers") == KHeaders;
      case KContent => assert KeyOf("content") == KContent;
      case KIn => assert KeyOf("in") == KIn;
      case KDeprecated => assert KeyOf("deprecated") == KDeprecated;
      case KSummary => assert KeyOf("summary") == KSummary;
      case KOperationId => assert KeyOf("operationId") == KOperationId;
      case KTags => assert KeyOf("tags") == KTags;
      case KParameters => assert KeyOf("parameters") == KParameters;
      case KRequestBody => assert KeyOf("requestBody") == KRequestBody;
      case KResponses => assert KeyOf("responses") == KResponses;
      case KSecurity => assert KeyOf("security") == KSecurity;
      case KGet => assert KeyOf("get") == KGet;
      case KPost => assert KeyOf("post") == KPost;
      case KPut => assert KeyOf("put") == KPut;
      case KDelete => assert KeyOf("delete") == KDelete;
      case KPatch => assert KeyOf("patch") == KPatch;
      case KHead => assert KeyOf("head") == KHead;
      case KOptions => assert KeyOf("options") == KOptions;
      case KScheme => assert KeyOf("scheme") == KScheme;
      case KBearerFormat => assert KeyOf("bearerFormat") == KBearerFormat;
      case KSchemas => assert KeyOf("schemas") == KSchemas;
      case KRequestBodies => assert KeyOf("requestBodies") == KRequestBodies;
      case KSecuritySchemes => assert KeyOf("securitySchemes") == KSecuritySchemes;
      case KOpenapi => assert KeyOf("openapi") == KOpenapi;
      case KInfo => assert KeyOf("info") == KInfo;
      case KServers => assert KeyOf("servers") == KServers;
      case KPaths => assert KeyOf("paths") == KPaths;
      case KComponents => assert KeyOf("components") == KComponents;
    }
  }

  /** No two members have the same name. */
  lemma NamesDiffer(a: Key, b: Key)
    ensures Text(a) == Text(b) <==> a == b
  {
    hide *;
    KeyOfText(a);
    KeyOfText(b);
  }
}
