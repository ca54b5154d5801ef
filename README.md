# Credential Check API: a Dafny model

This project models the core of a small credential-check web service. The service has one endpoint, `POST /check_credentials`. A client sends the short `prefix` of a hashed e-mail address together with a blinded credential token. Its documentation says it answers with a double-blinded echo of the token and the breach-corpus entries that share the prefix. Its code answers with fixed placeholders. The service also publishes an OpenAPI document that declares a custom API-key header as its security scheme.

The model covers:

- **The handler** (`CredentialCheck.CheckCredentials`). It takes the byte length of `prefix`. Above 6 it rejects with `PrefixTooLong { len }`. Otherwise, below 4, it rejects with `PrefixTooShort { len }`. Otherwise it returns the fixed placeholder response `credentials = "placeholder"`, `matches = ["placeholder"]`. The request's strings are modelled as their UTF-8 bytes (`Utf8.Encode`), because Rust's `String::len()` counts bytes.
- **The error messages** (`CredentialCheck.Message`). Each message is a fixed text with the length written in decimal (`Decimal.FromNat`). A parser (`CredentialCheck.ParseMessage`) reads a message back. The two are proved to be inverse to each other, so a message identifies its error exactly.
- **The HTTP shaping of errors** (`StatusCodeOf`, `ErrorResponse`). Every error becomes a 400 response with a `text/plain` body holding its message.
- **The security-scheme modifier** (`SecuritySchemas.Modify`). It changes an `OpenApiModel.OpenApi` document in place. It needs the component registry to be present. It inserts, with overwrite, the header API key `My-Api-Key` with the description "Custom authentication header". It leaves every other entry and the rest of the document unchanged. Applying it a second time changes nothing.
- **The document's assembly** (`ApiDocs.OpenApiDocument`), reduced to the registry and the security requirements. It starts from a base registry with the two body schemas and no security scheme, then runs the modifier. The result holds exactly one scheme, and it is the one the document's security requirement names.

What the source's own documentation says and what its code does are not the same in two places. The model follows the code:

- The endpoint's doc comment (src/lib.rs:97) and the field comments of `CcResponse` (src/lib.rs:63-70) describe a breach check: a double-blinded echo of the credentials, and the corpus entries associated with the prefix. The handler's body (src/lib.rs:127-130) looks nothing up. It returns `"placeholder"` and `["placeholder"]` for every accepted request, whatever its credentials and prefix.
- The schema attribute `min_length = 4, max_length = 6` on `prefix` (src/lib.rs:52) bounds the length in characters, as JSON Schema counts it. The handler bounds the UTF-8 byte count (src/lib.rs:119). For every ASCII prefix the two agree (`HandlerAgreesWithSchema`), and so for every prefix in the declared base64 format (`Base64IsAscii`). On non-ASCII text they can diverge (`HandlerCountsBytesNotCharacters`): "éé" (2 characters, 4 bytes) is accepted, and "€€€€" (4 characters, 12 bytes) is rejected as too long. Base64 text is ASCII, so this is recorded as an observation rather than a defect.

Module layout: `Wrappers` (Option, Result), `Utf8` (the bytes of a `String`), `Decimal` (decimal text of a `usize`), `CredentialCheck` (handler, errors, responses), `OpenApiModel` (registry, schemes, document), `SecuritySchemas` (the modifier), `ApiDocs` (assembly).

## Model

| member | source | states |
|---|---|---|
| `Utf8.EncodeChar` | src/lib.rs:119 | A character takes 1 to 4 bytes: 1 exactly for ASCII, 2, 3 or 4 by code-point range. Only the first byte is not a continuation byte. |
| `Utf8.Encode` | src/lib.rs:119 | A string's byte length is exactly `Width(s)`: the sum over its characters of 1, 2, 3 or 4 bytes by code-point range, which is what `String::len()` returns. It therefore lies between the character count and four times it. It equals the character count exactly when the string is ASCII, and then the bytes are the characters' codes. |
| `Utf8.EncodeAppend` | src/lib.rs:119 | Encoding works character by character: the bytes of `s + t` are the bytes of `s` followed by the bytes of `t`. |
| `Utf8.WidthAppend` | src/lib.rs:119 | The byte length of a concatenation is the sum of the byte lengths of its parts. |
| `Decimal.FromNat` | src/lib.rs:76-79 | The decimal text of a length is non-empty digits with no leading zero. It is one digit exactly when the number is below 10. |
| `Decimal.ToNatFromNat` | src/lib.rs:76-79 | Reading back the decimal text of `n` gives `n`. |
| `Decimal.FromNatToNat` | src/lib.rs:76-79 | Every canonical digit string is the text of the number it denotes, so the format is a bijection. |
| `Decimal.FromNatInjective` | src/lib.rs:76-79 | Different lengths are written differently. |
| `CredentialCheck.CheckCredentials` | src/lib.rs:118-131 | The result is Ok iff 4 <= byte length <= 6. An error carries that byte length. It is `PrefixTooLong` iff the length is above 6, and `PrefixTooShort` iff below 4. Ok is `credentials = "placeholder"`, `matches = ["placeholder"]`. |
| `CredentialCheck.CheckDependsOnlyOnPrefixLength` | src/lib.rs:118-131 | Two requests whose prefixes have the same byte length get the same result, whatever their credentials. |
| `CredentialCheck.AcceptedHasMatches` | src/lib.rs:127-130 | An accepted request's response has exactly one match, so `matches` is non-empty. |
| `CredentialCheck.Message` | src/lib.rs:76-79 | The `#[error]` text of an error. It starts with "Prefix has a length of " and ends with ", but the minimum is 4" for too-short or ", but the maximum is 6" for too-long. Between them is canonical decimal text that reads back as the error's length. The round-trip lemmas `ParseMessageOfMessage` and `MessageOfParseMessage` and the two documented examples pin it down completely. |
| `CredentialCheck.MessageTailsNameBounds` | src/lib.rs:76-79 | The bounds written into the two messages are the decimal texts of the bounds the handler checks (4 and 6). |
| `CredentialCheck.ParseMessageOfMessage` | src/lib.rs:76-79 | Parsing an error's message gives back that error: its variant and its length. |
| `CredentialCheck.MessageOfParseMessage` | src/lib.rs:76-79 | Any text that parses as an error is exactly that error's message. |
| `CredentialCheck.MessageInjective` | src/lib.rs:74-80 | Different errors have different messages. |
| `CredentialCheck.DocumentedTooShortExample` | src/lib.rs:108-110 | The message for `PrefixTooShort { len: 3 }` is the documented "TooShort" example text. |
| `CredentialCheck.DocumentedTooLongExample` | src/lib.rs:111-113 | The message for `PrefixTooLong { len: 7 }` is the documented "TooLong" example text. |
| `CredentialCheck.StatusCodeOf` | src/lib.rs:84-89 | Every error maps to status 400, a client error. |
| `CredentialCheck.ErrorResponse` | src/lib.rs:90-94 | An error's response has the error's status and content type `text/plain`. Its body is the error's message, which parses back to the error. |
| `CredentialCheck.RejectionReportsLength` | src/lib.rs:118-125 | A rejected request gets a 400 whose body is the too-short or too-long message with the prefix's byte length. |
| `CredentialCheck.ScenarioTooShort` | src/lib.rs:123-125 | Prefix "abc" gives `PrefixTooShort { len: 3 }` with body "Prefix has a length of 3, but the minimum is 4". |
| `CredentialCheck.ScenarioTooLong` | src/lib.rs:120-122 | Prefix "abcdefg" gives `PrefixTooLong { len: 7 }` with body "Prefix has a length of 7, but the maximum is 6". |
| `CredentialCheck.ScenarioAccepted` | src/lib.rs:127-130 | Prefix "cri4" is accepted, whatever the credentials. |
| `CredentialCheck.Base64IsAscii` | src/lib.rs:52 | Text in the declared base64 format is ASCII, so the agreement covers every base64 prefix. |
| `CredentialCheck.HandlerAgreesWithSchema` | src/lib.rs:52 | For an ASCII prefix, the handler accepts iff the declared schema (4..6 characters) admits it. |
| `CredentialCheck.SchemaExampleAccepted` | src/lib.rs:52 | The schema's example prefix "cri4" is admitted by the schema and accepted by the handler. |
| `CredentialCheck.HandlerCountsBytesNotCharacters` | src/lib.rs:52 | Outside ASCII the handler and the schema can disagree, in each direction. |
| `OpenApiModel.WithDescription` | src/lib.rs:42 | `ApiKeyValue::with_description` keeps the given name and sets the given text as the description. |
| `OpenApiModel.AddSecurityScheme` | src/lib.rs:44 | Insertion with overwrite. The new name maps to the new scheme, every other entry is kept, the key set grows by that name only, and the schemas are unchanged. |
| `SecuritySchemas.CustomScheme` | src/lib.rs:42-43 | The scheme the modifier builds is an API key carried in a header named "My-Api-Key", with description "Custom authentication header". |
| `SecuritySchemas.Modified` | src/lib.rs:40-45 | The registry after the modifier maps "My-Api-Key" to a header API key named "My-Api-Key" with description "Custom authentication header". Every other entry and the schemas are unchanged, and no other key is added. |
| `SecuritySchemas.ModifiedIdempotent` | src/lib.rs:40-45 | Applying the modifier twice gives the same registry as applying it once. |
| `SecuritySchemas.ModifiedFixesRegistered` | src/lib.rs:42-44 | A registry that already holds exactly this scheme is left unchanged. |
| `SecuritySchemas.ModifiedDeclaresApiKey` | src/lib.rs:40-45 | After the modifier, security requirements that name known schemes or "My-Api-Key" all name declared schemes. |
| `SecuritySchemas.Modify` | src/lib.rs:40-45 | It requires the registry to be present. It replaces the registry by its modified value, leaves the security requirements alone, and leaves a registry that a second run does not change. |
| `ApiDocs.OpenApiDocument` | src/lib.rs:8-25 | The assembled document's registry has the two body schemas and exactly the `My-Api-Key` scheme. Its security requirement is `My-Api-Key`, which names a declared scheme. |
| `ApiDocs.AssembledRegistryHasOneScheme` | src/lib.rs:21-25 | The assembled registry has exactly one scheme: a header-carried API key named "My-Api-Key". |

## Left out

- actix-web plumbing: the `#[post]` route, `Json` extraction and serialisation, and the internals of the `HttpResponse` builder (src/lib.rs:91-93, 117-118). A response is a plain record of status, content type and body. The success response's 200 and JSON body are not modelled.
- serde and the JSON (de)serialisation of `CcRequest`/`CcResponse`. These are foreign library code. The model does not require the request's bytes to be valid UTF-8, and the handler does not read them as text.
- utoipa's derive macros, and `ApiDocs::generate` with `to_yaml()` (src/lib.rs:8-34). The library's output format cannot be seen. `ApiDocs.OpenApiDocument` keeps only the registry and the security requirements. Info, servers, paths and schema bodies are not modelled. Security schemes other than API keys are one abstract variant.
- The `generated_docs_are_up_to_date` test (src/lib.rs:133-148). It is file I/O against `openapi.yml`.
- src/bin/server.rs: server bootstrap, port binding, Swagger UI hosting, the async runtime and concurrency.
- The breach lookup and the double-blinding. The code returns fixed placeholders, and the model does the same.
- `usize`: lengths are unbounded naturals. A `String`'s length always fits in `usize`, so no wrap-around can occur.
