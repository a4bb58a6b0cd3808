/** Members of OpenAPI objects by their names written out (openapi.v). */
module OpenApiNames {
  import opened Options
  import opened JsonKeys
  import opened JsonTree

  /** What stands under a name. */
  function Under(j: Json, name: string): Option<Json> {
    if j.Obj? && name in j.fields then Some(j.fields[name]) else None
  }

  /** There is a value under the name only on this condition. */
  function If(kept: bool, value: Json): Option<Json> {
    if kept then Some(value) else None
  }

  /** There are no other members. */
  ghost predicate Only(j: Json, names: seq<string>) {
    j.Obj? && forall n :: n in j.fields ==> n in names
  }

  lemma Names()
    ensures Text(KName) == "name" && Text(KUrl) == "url" && Text(KEmail) == "email" && Text(KTitle) == "title"
    ensures Text(KVersion) == "version" && Text(KDescription) == "description" &&
            Text(KTermsOfService) == "termsOfService" && Text(KContact) == "contact"
    ensures Text(KLicense) == "license" && Text(KExternalDocs) == "externalDocs" && Text(KRef) == "$ref" &&
            Text(KType) == "type"
    ensures Text(KFormat) == "format" && Text(KDefault) == "default" && Text(KExample) == "example" && Text(KEnum) == "enum"
    ensures Text(KRequired) == "required" && Text(KProperties) == "properties" && Text(KItems) == "items" &&
            Text(KMinimum) == "minimum"
    ensures Text(KMaximum) == "maximum" && Text(KMinLength) == "minLength" && Text(KMaxLength) == "maxLength" &&
            Text(KPattern) == "pattern"
    ensures Text(KNullable) == "nullable" && Text(KReadOnly) == "readOnly" && Text(KWriteOnly) == "writeOnly" &&
            Text(KSchema) == "schema"
    ensures Text(KHeaders) == "headers" && Text(KContent) == "content" && Text(KIn) == "in" &&
            Text(KDeprecated) == "deprecated"
    ensures Text(KSummary) == "summary" && Text(KOperationId) == "operationId" && Text(KTags) == "tags" &&
            Text(KParameters) == "parameters"
    ensures Text(KRequestBody) == "requestBody" && Text(KResponses) == "responses" && Text(KSecurity) == "security" &&
            Text(KGet) == "get"
    ensures Text(KPost) == "post" && Text(KPut) == "put" && Text(KDelete) == "delete" && Text(KPatch) == "patch"
    ensures Text(KHead) == "head" && Text(KOptions) == "options" && Text(KScheme) == "scheme" &&
            Text(KBearerFormat) == "bearerFormat"
    ensures Text(KSchemas) == "schemas" && Text(KRequestBodies) == "requestBodies" &&
            Text(KSecuritySchemes) == "securitySchemes" && Text(KOpenapi) == "openapi"
    ensures Text(KInfo) == "info" && Text(KServers) == "servers" && Text(KPaths) == "paths" &&
            Text(KComponents) == "components"
  {
    hide Text;
    Names1();
    Names2();
    Names3();
    Names4();
    Names5();
    Names6();
    Names7();
    Names8();
    Names9();
    Names10();
    Names11();
    Names12();
    Names13();
    Names14();
  }

  lemma Names1()
    ensures Text(KName) == "name" && Text(KUrl) == "url" && Text(KEmail) == "email" && Text(KTitle) == "title"
  {
  }

  lemma Names2()
    ensures Text(KVersion) == "version" && Text(KDescription) == "description" &&
            Text(KTermsOfService) == "termsOfService" && Text(KContact) == "contact"
  {
  }

  lemma Names3()
    ensures Text(KLicense) == "license" && Text(KExternalDocs) == "externalDocs" && Text(KRef) == "$ref" &&
            Text(KType) == "type"
  {
  }

  lemma Names4()
    ensures Text(KFormat) == "format" && Text(KDefault) == "default" && Text(KExample) == "example" && Text(KEnum) == "enum"
  {
  }

  lemma Names5()
    ensures Text(KRequired) == "required" && Text(KProperties) == "properties" && Text(KItems) == "items" &&
            Text(KMinimum) == "minimum"
  {
  }

  lemma Names6()
    ensures Text(KMaximum) == "maximum" && Text(KMinLength) == "minLength" && Text(KMaxLength) == "maxLength" &&
            Text(KPattern) == "pattern"
  {
  }

  lemma Names7()
    ensures Text(KNullable) == "nullable" && Text(KReadOnly) == "readOnly" && Text(KWriteOnly) == "writeOnly" &&
            Text(KSchema) == "schema"
  {
  }

  lemma Names8()
    ensures Text(KHeaders) == "headers" && Text(KContent) == "content" && Text(KIn) == "in" &&
            Text(KDeprecated) == "deprecated"
  {
  }

  lemma Names9()
    ensures Text(KSummary) == "summary" && Text(KOperationId) == "operationId" && Text(KTags) == "tags" &&
            Text(KParameters) == "parameters"
  {
  }

  lemma Names10()
    ensures Text(KRequestBody) == "requestBody" && Text(KResponses) == "responses" && Text(KSecurity) == "security" &&
            Text(KGet) == "get"
  {
  }

  lemma Names11()
    ensures Text(KPost) == "post" && Text(KPut) == "put" && Text(KDelete) == "delete" && Text(KPatch) == "patch"
  {
  }

  lemma Names12()
    ensures Text(KHead) == "head" && Text(KOptions) == "options" && Text(KScheme) == "scheme" &&
            Text(KBearerFormat) == "bearerFormat"
  {
  }

  lemma Names13()
    ensures Text(KSchemas) == "schemas" && Text(KRequestBodies) == "requestBodies" &&
            Text(KSecuritySchemes) == "securitySchemes" && Text(KOpenapi) == "openapi"
  {
  }

  lemma Names14()
    ensures Text(KInfo) == "info" && Text(KServers) == "servers" && Text(KPaths) == "paths" &&
            Text(KComponents) == "components"
  {
  }


  lemma RowUnder(rows: seq<Row>, i: nat, name: string)
    requires DistinctKeys(rows) && i < |rows| && Text(rows[i].key) == name
    ensures Under(Obj(ObjectOf(rows)), name) == If(rows[i].kept, rows[i].value)
  {
    hide ObjectOf, Text, DistinctKeys;
    RowAt(rows, i);
  }

  lemma {:induction false} OnlyRows(rows: seq<Row>, names: seq<string>)
    requires |names| == |rows| && forall i :: 0 <= i < |rows| ==> Text(rows[i].key) == names[i]
    ensures Only(Obj(ObjectOf(rows)), names)
  {
    hide Text;
    if rows != [] {
      OnlyRows(rows[..|rows| - 1], names[..|rows| - 1]);
      assert names == names[..|rows| - 1] + [names[|rows| - 1]];
    }
  }
}
