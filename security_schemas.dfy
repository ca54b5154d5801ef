/**
 * The `SecuritySchemas` modifier: run on the assembled document, it registers
 * the custom API-key header scheme.
 */
module SecuritySchemas {
  import opened Wrappers
  import opened OpenApiModel

  const API_KEY_NAME := "My-Api-Key"
  const API_KEY_DESCRIPTION := "Custom authentication header"

  /** The scheme the modifier registers: an API key carried in the `My-Api-Key` header. */
  function CustomScheme(): (r: SecurityScheme)
    ensures r.ApiKeyScheme? && r.apiKey.Header?
    ensures r.apiKey.value.name == "My-Api-Key"
    ensures r.apiKey.value.description == Some("Custom authentication header")
  {
    ApiKeyScheme(Header(WithDescription(API_KEY_NAME, API_KEY_DESCRIPTION)))
  }

  /** The registry after the modifier has run on `c`. */
  function Modified(c: Components): (r: Components)
    ensures r.schemas == c.schemas
    ensures r.securitySchemes.Keys == c.securitySchemes.Keys + {"My-Api-Key"}
    ensures r.securitySchemes["My-Api-Key"]
         == ApiKeyScheme(Header(ApiKeyValue("My-Api-Key", Some("Custom authentication header"))))
    ensures forall k :: k in c.securitySchemes && k != "My-Api-Key" ==> r.securitySchemes[k] == c.securitySchemes[k]
  {
    AddSecurityScheme(c, API_KEY_NAME, CustomScheme())
  }

  /** Running the modifier a second time changes nothing. */
  lemma ModifiedIdempotent(c: Components)
    ensures Modified(Modified(c)) == Modified(c)
  {
  }

  /** A registry that already has exactly this scheme is left as it is. */
  lemma ModifiedFixesRegistered(c: Components)
    requires API_KEY_NAME in c.securitySchemes && c.securitySchemes[API_KEY_NAME] == CustomScheme()
    ensures Modified(c) == c
  {
  }

  /** After the modifier, a requirement on `My-Api-Key` names a declared scheme. */
  lemma ModifiedDeclaresApiKey(security: seq<string>, c: Components)
    requires forall i :: 0 <= i < |security| ==> security[i] in c.securitySchemes || security[i] == API_KEY_NAME
    ensures RequirementsDeclared(security, Modified(c))
  {
  }

  /**
   * `Modify::modify`. The registry must exist (the source unwraps it and
   * panics otherwise); the rest of the document is left alone.
   */
  method Modify(openapi: OpenApi)
    requires openapi.components.Some?
    modifies openapi
    ensures openapi.components == Some(Modified(old(openapi.components.value)))
    ensures openapi.security == old(openapi.security)
    ensures Modified(openapi.components.value) == openapi.components.value
  {
    var components := openapi.components.value;
    var scheme := CustomScheme();
    openapi.components := Some(AddSecurityScheme(components, API_KEY_NAME, scheme));
    ModifiedIdempotent(components);
  }
}
