/**
 * The part of an OpenAPI document that the security-scheme modifier touches:
 * the component registry with its name-to-scheme map, and the document that
 * holds the registry as an optional field and can be changed in place.
 */
module OpenApiModel {
  import opened Wrappers

  /** Where an API key is looked for (its header, query or cookie name) and what it is for. */
  datatype ApiKeyValue = ApiKeyValue(name: string, description: Option<string>)

  /** `ApiKeyValue::with_description`. */
  function WithDescription(name: string, description: string): (v: ApiKeyValue)
    ensures v.name == name && v.description == Some(description)
  {
    ApiKeyValue(name, Some(description))
  }

  /** How an API key travels with a request. */
  datatype ApiKey = Header(value: ApiKeyValue) | Query(value: ApiKeyValue) | Cookie(value: ApiKeyValue)

  /** A security scheme; every kind other than an API key is kept abstract. */
  datatype SecurityScheme = ApiKeyScheme(apiKey: ApiKey) | OtherScheme(kind: string)

  /** The component registry: names of the registered schemas, and the security schemes by name. */
  datatype Components = Components(schemas: set<string>, securitySchemes: map<string, SecurityScheme>)

  /** `Components::add_security_scheme`: an insertion that overwrites any scheme of that name. */
  function AddSecurityScheme(c: Components, name: string, scheme: SecurityScheme): (r: Components)
    ensures r.schemas == c.schemas
    ensures r.securitySchemes.Keys == c.securitySchemes.Keys + {name}
    ensures r.securitySchemes[name] == scheme
    ensures forall k :: k in c.securitySchemes && k != name ==> r.securitySchemes[k] == c.securitySchemes[k]
  {
    c.(securitySchemes := c.securitySchemes[name := scheme])
  }

  /** Every security requirement of a document names a scheme in its registry. */
  predicate RequirementsDeclared(security: seq<string>, c: Components) {
    forall i :: 0 <= i < |security| ==> security[i] in c.securitySchemes
  }

  /** An OpenAPI document, reduced to its registry and its top-level security requirements. */
  class OpenApi {
    var components: Option<Components>
    var security: seq<string>

    constructor (components: Option<Components>, security: seq<string>)
      ensures this.components == components && this.security == security
    {
      this.components := components;
      this.security := security;
    }
  }
}
