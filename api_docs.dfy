/**
 * `ApiDocs`: the document the `OpenApi` derive assembles. Only its registry and
 * its security requirements are modelled: the base registry holds the two
 * request/response schemas and no security scheme, the document requires
 * `My-Api-Key`, and the `SecuritySchemas` modifier runs last.
 */
module ApiDocs {
  import opened Wrappers
  import opened OpenApiModel
  import SecuritySchemas

  const BASE_SCHEMAS: set<string> := {"CcRequest", "CcResponse"}

  /** `ApiDocs::openapi()`: assemble the base document, then apply the modifier. */
  method OpenApiDocument() returns (doc: OpenApi)
    ensures fresh(doc)
    ensures doc.components.Some?
    ensures doc.components.value.schemas == BASE_SCHEMAS
    ensures doc.components.value.securitySchemes == map[SecuritySchemas.API_KEY_NAME := SecuritySchemas.CustomScheme()]
    ensures doc.security == [SecuritySchemas.API_KEY_NAME]
    ensures RequirementsDeclared(doc.security, doc.components.value)
  {
    var base := Components(BASE_SCHEMAS, map[]);
    doc := new OpenApi(Some(base), [SecuritySchemas.API_KEY_NAME]);
    SecuritySchemas.Modify(doc);
    SecuritySchemas.ModifiedDeclaresApiKey(doc.security, base);
  }

  /** The assembled registry holds exactly one scheme: the `My-Api-Key` header key. */
  lemma AssembledRegistryHasOneScheme()
    ensures var c := SecuritySchemas.Modified(Components(BASE_SCHEMAS, map[]));
      && c.securitySchemes.Keys == {"My-Api-Key"}
      && c.securitySchemes["My-Api-Key"].ApiKeyScheme?
      && c.securitySchemes["My-Api-Key"].apiKey.Header?
      && c.securitySchemes["My-Api-Key"].apiKey.value.name == "My-Api-Key"
  {
  }
}
