/**
 * The `check_credentials` endpoint: the prefix-length validation, the
 * placeholder success response, the `ApiError` variants with their messages,
 * and the way an `ApiError` becomes an HTTP response.
 */
module CredentialCheck {
  import opened Wrappers
  import Utf8
  import Decimal

  /** The bounds on the byte length of `prefix` that the handler enforces. */
  const MIN_PREFIX_LENGTH: nat := 4
  const MAX_PREFIX_LENGTH: nat := 6

  /** The request body. Each field holds the UTF-8 bytes of a Rust `String`. */
  datatype CcRequest = CcRequest(prefix: seq<Utf8.byte>, credentials: seq<Utf8.byte>)

  /** The response body. */
  datatype CcResponse = CcResponse(credentials: string, matches: seq<string>)

  /** Errors that can occur when checking credentials; `len` is a byte count. */
  datatype ApiError = PrefixTooShort(len: nat) | PrefixTooLong(len: nat)

  /** The fixed value the handler answers with in place of a breach lookup. */
  const PLACEHOLDER := "placeholder"

  /**
   * The handler. The too-long test comes first; the two rejections cannot
   * both apply, so the order changes nothing. The credentials are never read.
   */
  function CheckCredentials(body: CcRequest): (r: Result<CcResponse, ApiError>)
    ensures r.Ok? <==> MIN_PREFIX_LENGTH <= |body.prefix| <= MAX_PREFIX_LENGTH
    ensures r.Err? ==> r.error.len == |body.prefix|
    ensures r.Err? ==> (r.error.PrefixTooLong? <==> |body.prefix| > MAX_PREFIX_LENGTH)
    ensures r.Err? ==> (r.error.PrefixTooShort? <==> |body.prefix| < MIN_PREFIX_LENGTH)
    ensures r.Ok? ==> r.value.credentials == PLACEHOLDER && r.value.matches == [PLACEHOLDER]
  {
    var len := |body.prefix|;
    if len > MAX_PREFIX_LENGTH then
      Err(PrefixTooLong(len))
    else if len < MIN_PREFIX_LENGTH then
      Err(PrefixTooShort(len))
    else
      Ok(CcResponse(PLACEHOLDER, [PLACEHOLDER]))
  }

  /** The outcome is decided by the prefix's byte length alone. */
  lemma CheckDependsOnlyOnPrefixLength(a: CcRequest, b: CcRequest)
    requires |a.prefix| == |b.prefix|
    ensures CheckCredentials(a) == CheckCredentials(b)
  {
  }

  /** An accepted request always gets a response with at least one match. */
  lemma AcceptedHasMatches(body: CcRequest)
    requires CheckCredentials(body).Ok?
    ensures |CheckCredentials(body).value.matches| == 1
  {
  }

  // ---------------------------------------------------------------------
  // Messages (`#[error]` / `Display`)

  const MESSAGE_HEAD := "Prefix has a length of "
  const MINIMUM_TAIL := ", but the minimum is 4"
  const MAXIMUM_TAIL := ", but the maximum is 6"

  /**
   * The text `to_string()` gives for an error: the fixed head, the length in
   * decimal, and the tail naming the bound that was broken.
   */
  function Message(e: ApiError): (s: string)
    ensures |s| > |MESSAGE_HEAD| + |MINIMUM_TAIL|
    ensures s[..|MESSAGE_HEAD|] == MESSAGE_HEAD
    ensures s[|s| - |MINIMUM_TAIL|..] == if e.PrefixTooShort? then MINIMUM_TAIL else MAXIMUM_TAIL
    ensures Decimal.IsCanonical(s[|MESSAGE_HEAD|..|s| - |MINIMUM_TAIL|])
    ensures Decimal.ToNat(s[|MESSAGE_HEAD|..|s| - |MINIMUM_TAIL|]) == e.len
  {
    var d := Decimal.FromNat(e.len);
    var tail := if e.PrefixTooShort? then MINIMUM_TAIL else MAXIMUM_TAIL;
    var s := MESSAGE_HEAD + d + tail;
    assert s[|MESSAGE_HEAD|..|s| - |MINIMUM_TAIL|] == d;
    Decimal.ToNatFromNat(e.len);
    s
  }

  /** The bounds written into the messages are the bounds the handler checks. */
  lemma MessageTailsNameBounds()
    ensures MINIMUM_TAIL == ", but the minimum is " + Decimal.FromNat(MIN_PREFIX_LENGTH)
    ensures MAXIMUM_TAIL == ", but the maximum is " + Decimal.FromNat(MAX_PREFIX_LENGTH)
  {
  }

  /** Reads an error back from a message; `None` for any other text. */
  function ParseMessage(s: string): Option<ApiError> {
    var h, t := |MESSAGE_HEAD|, |MINIMUM_TAIL|;
    if |s| < h + t || s[..h] != MESSAGE_HEAD then
      None
    else
      var digits, tail := s[h..|s| - t], s[|s| - t..];
      if !Decimal.IsCanonical(digits) then None
      else if tail == MINIMUM_TAIL then Some(PrefixTooShort(Decimal.ToNat(digits)))
      else if tail == MAXIMUM_TAIL then Some(PrefixTooLong(Decimal.ToNat(digits)))
      else None
  }

  /** A message names its variant and the offending length, so it can be read back. */
  lemma {:induction false} ParseMessageOfMessage(e: ApiError)
    ensures ParseMessage(Message(e)) == Some(e)
  {
    // Message's contract gives the head, the canonical digits reading back as
    // `e.len` and the tail; the tails differ, so the tail picks the variant.
    assert MINIMUM_TAIL != MAXIMUM_TAIL by { assert MINIMUM_TAIL[11] != MAXIMUM_TAIL[11]; }
  }

  /** The only texts that read back as an error are that error's message. */
  lemma {:induction false} MessageOfParseMessage(s: string, e: ApiError)
    requires ParseMessage(s) == Some(e)
    ensures Message(e) == s
  {
    var h, t := |MESSAGE_HEAD|, |MINIMUM_TAIL|;
    var digits := s[h..|s| - t];
    Decimal.FromNatToNat(digits);
    assert s == s[..h] + digits + s[|s| - t..];
  }

  /** Different errors have different messages. */
  lemma MessageInjective(e1: ApiError, e2: ApiError)
    requires Message(e1) == Message(e2)
    ensures e1 == e2
  {
    ParseMessageOfMessage(e1);
    ParseMessageOfMessage(e2);
  }

  /** The message shown as the "TooShort" example of the 400 response. */
  lemma DocumentedTooShortExample()
    ensures Message(PrefixTooShort(3)) == "Prefix has a length of 3, but the minimum is 4"
  {
    assert Decimal.FromNat(3) == "3";
    assert MESSAGE_HEAD + "3" + MINIMUM_TAIL == "Prefix has a length of 3, but the minimum is 4";
  }

  /** The message shown as the "TooLong" example of the 400 response. */
  lemma DocumentedTooLongExample()
    ensures Message(PrefixTooLong(7)) == "Prefix has a length of 7, but the maximum is 6"
  {
    assert Decimal.FromNat(7) == "7";
    assert MESSAGE_HEAD + "7" + MAXIMUM_TAIL == "Prefix has a length of 7, but the maximum is 6";
  }

  // ---------------------------------------------------------------------
  // HTTP responses (`ResponseError for ApiError`)

  datatype StatusCode = StatusCode(code: nat) {
    predicate IsClientError() {
      400 <= code < 500
    }
  }

  const BAD_REQUEST := StatusCode(400)

  /** The status of the response for an error: 400 for every variant. */
  function StatusCodeOf(e: ApiError): (c: StatusCode)
    ensures c == BAD_REQUEST && c.IsClientError()
  {
    match e
    case PrefixTooShort(_) => BAD_REQUEST
    case PrefixTooLong(_) => BAD_REQUEST
  }

  /** An HTTP response, reduced to what `error_response` sets. */
  datatype HttpResponse = HttpResponse(status: StatusCode, contentType: string, body: string)

  /** The response for an error: its status, plain text, and its message as the body. */
  function ErrorResponse(e: ApiError): (r: HttpResponse)
    ensures r.status == StatusCodeOf(e) && r.status.IsClientError()
    ensures r.contentType == "text/plain"
    ensures r.body == Message(e)
    ensures ParseMessage(r.body) == Some(e)
  {
    ParseMessageOfMessage(e);
    HttpResponse(StatusCodeOf(e), "text/plain", Message(e))
  }

  /** A rejected request gets a 400 whose body states the prefix's byte length and the bound it broke. */
  lemma RejectionReportsLength(body: CcRequest)
    requires CheckCredentials(body).Err?
    ensures var r := ErrorResponse(CheckCredentials(body).error);
      && r.status == BAD_REQUEST
      && ParseMessage(r.body) == Some(CheckCredentials(body).error)
      && (|body.prefix| < MIN_PREFIX_LENGTH ==> r.body == Message(PrefixTooShort(|body.prefix|)))
      && (|body.prefix| > MAX_PREFIX_LENGTH ==> r.body == Message(PrefixTooLong(|body.prefix|)))
  {
  }

  // ---------------------------------------------------------------------
  // The scenarios of the endpoint's documentation

  lemma ScenarioTooShort(credentials: seq<Utf8.byte>)
    ensures CheckCredentials(CcRequest(Utf8.Encode("abc"), credentials)) == Err(PrefixTooShort(3))
    ensures ErrorResponse(PrefixTooShort(3)).body == "Prefix has a length of 3, but the minimum is 4"
  {
    DocumentedTooShortExample();
  }

  lemma ScenarioTooLong(credentials: seq<Utf8.byte>)
    ensures CheckCredentials(CcRequest(Utf8.Encode("abcdefg"), credentials)) == Err(PrefixTooLong(7))
    ensures ErrorResponse(PrefixTooLong(7)).body == "Prefix has a length of 7, but the maximum is 6"
  {
    DocumentedTooLongExample();
  }

  lemma ScenarioAccepted(credentials: seq<Utf8.byte>)
    ensures CheckCredentials(CcRequest(Utf8.Encode("cri4"), credentials)).Ok?
  {
  }

  // ---------------------------------------------------------------------
  // The schema declared for `prefix` and what the handler checks

  /** The attributes of a string field in the published schema. */
  datatype StringSchema = StringSchema(format: string, example: string, minLength: nat, maxLength: nat)

  /** `#[schema(format = "base64", example = "cri4", min_length = 4, max_length = 6)]` */
  const PREFIX_SCHEMA := StringSchema("base64", "cri4", 4, 6)

  /** A schema's length bounds count characters. */
  predicate Admits(schema: StringSchema, s: string) {
    schema.minLength <= |s| <= schema.maxLength
  }

  predicate IsBase64Char(c: char) {
    'A' <= c <= 'Z' || 'a' <= c <= 'z' || '0' <= c <= '9' || c == '+' || c == '/' || c == '='
  }

  predicate IsBase64(s: string) {
    forall i :: 0 <= i < |s| ==> IsBase64Char(s[i])
  }

  /** Base64 text is ASCII. */
  lemma Base64IsAscii(s: string)
    requires IsBase64(s)
    ensures Utf8.AllAscii(s)
  {
    forall i | 0 <= i < |s| ensures Utf8.IsAscii(s[i]) {
      assert IsBase64Char(s[i]);
    }
  }

  /**
   * On ASCII prefixes, and so on every prefix in the declared base64 format,
   * the handler accepts exactly what the schema admits.
   */
  lemma HandlerAgreesWithSchema(prefix: string, credentials: seq<Utf8.byte>)
    requires Utf8.AllAscii(prefix)
    ensures CheckCredentials(CcRequest(Utf8.Encode(prefix), credentials)).Ok? <==> Admits(PREFIX_SCHEMA, prefix)
  {
  }

  /** The schema's example value is accepted. */
  lemma SchemaExampleAccepted(credentials: seq<Utf8.byte>)
    ensures Admits(PREFIX_SCHEMA, PREFIX_SCHEMA.example)
    ensures CheckCredentials(CcRequest(Utf8.Encode(PREFIX_SCHEMA.example), credentials)).Ok?
  {
  }

  /** Outside ASCII the two can disagree, in each direction, because the handler counts bytes. */
  lemma HandlerCountsBytesNotCharacters(credentials: seq<Utf8.byte>)
    ensures var s := "\U{E9}\U{E9}";
      !Admits(PREFIX_SCHEMA, s) && CheckCredentials(CcRequest(Utf8.Encode(s), credentials)).Ok?
    ensures var s := "\U{20AC}\U{20AC}\U{20AC}\U{20AC}";
      Admits(PREFIX_SCHEMA, s) && CheckCredentials(CcRequest(Utf8.Encode(s), credentials)) == Err(PrefixTooLong(12))
  {
  }
}
