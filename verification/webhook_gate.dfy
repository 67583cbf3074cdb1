/**
 * What the two blog webhooks (`supabase/functions/blog-webhook/index.ts` and
 * `supabase/functions/delete-blog-webhook/index.ts`) share: the values a JSON
 * payload field can hold, the response shapes, and the gate every request
 * passes first (CORS preflight, POST only, Bearer token).
 */
module WebhookGate {
  import opened Wrappers

  /** A payload field as JavaScript sees it. `Other` stands for booleans, numbers,
      arrays and objects, with their JavaScript truthiness. */
  datatype Value = Undefined | Null | Text(s: string) | Other(truthy: bool)

  predicate Truthy(v: Value) {
    match v
    case Undefined => false
    case Null => false
    case Text(s) => s != ""
    case Other(t) => t
  }

  /** A field passes `!v || typeof v !== "string"` exactly when it is a non-empty string. */
  predicate IsNonEmptyText(v: Value) {
    v.Text? && v.s != ""
  }

  /** `v || null`. */
  function OrNull(v: Value): (r: Value)
    ensures Truthy(v) ==> r == v
    ensures !Truthy(v) ==> r == Null
    ensures Truthy(r) || r == Null
  {
    if Truthy(v) then v else Null
  }

  /** A row of the `blogs` table as the database returns it. */
  datatype BlogRecord = BlogRecord(id: string, authorName: string, title: string, body: string, imageUrl: Value)

  /** The extra field of an error body: nothing, the database's message
      (`details`), the title asked for (`title`), or the runtime's message for an
      exception, whose text is not modelled. */
  datatype Detail = NoDetail | Details(message: string) | EchoedTitle(title: string) | RuntimeMessage

  /** What a webhook answers: the bare preflight response, an error with its
      status, or a success with its status, message and the row concerned. */
  datatype Response =
    | Preflight
    | Failure(status: nat, error: string, detail: Detail)
    | Success(status: nat, message: string, record: BlogRecord)

  /** The answer to an exception thrown inside the handler's `try`. */
  const InternalError := Failure(500, "Internal server error", RuntimeMessage)

  const Bearer := "Bearer "

  /** `s.replace(pat, rep)` with a string pattern: only the first occurrence. */
  function ReplaceFirst(s: string, pat: string, rep: string): (r: string)
    requires |pat| > 0
    ensures pat <= s ==> r == rep + s[|pat|..]
    decreases |s|
  {
    if |s| < |pat| then s
    else if s[..|pat|] == pat then rep + s[|pat|..]
    else [s[0]] + ReplaceFirst(s[1..], pat, rep)
  }

  /** The token a header carries: the header without its first `"Bearer "`. */
  function ProvidedToken(header: string): string {
    ReplaceFirst(header, Bearer, "")
  }

  datatype Auth = Authorized | MissingHeader | InvalidToken

  /** The token check. `header` is the `Authorization` header (None when absent)
      and `expected` the configured token (None when unset). */
  function Authorize(header: Option<string>, expected: Option<string>): (r: Auth)
    ensures r.MissingHeader? <==> header.None? || !(Bearer <= header.value)
    ensures r.Authorized? <==> header.Some? && expected.Some? && header.value == Bearer + expected.value
  {
    if header.None? || header.value == "" || !(Bearer <= header.value) then MissingHeader
    else if expected.None? || ProvidedToken(header.value) != expected.value then InvalidToken
    else
      assert header.value == Bearer + header.value[|Bearer|..];
      Authorized
  }

  /** An unset token rejects every request. */
  lemma UnsetTokenRejectsAll(header: Option<string>)
    ensures !Authorize(header, None).Authorized?
  {
  }

  /** Only the first `"Bearer "` is removed: a token that itself begins with
      `"Bearer "` must be sent with the prefix twice. */
  lemma DoubledPrefixToken(token: string)
    ensures Authorize(Some(Bearer + Bearer + token), Some(Bearer + token)).Authorized?
    ensures !Authorize(Some(Bearer + token), Some(Bearer + token)).Authorized?
  {
    assert Bearer + Bearer + token == Bearer + (Bearer + token);
    assert |Bearer + token| < |Bearer + (Bearer + token)|;
  }

  /** The steps before the body is read. None lets the request through. */
  function Gate(verb: string, header: Option<string>, expected: Option<string>): (r: Option<Response>)
    ensures verb == "OPTIONS" ==> r == Some(Preflight)
    ensures verb != "OPTIONS" && verb != "POST" ==> r == Some(Failure(405, "Method not allowed", NoDetail))
    ensures r.None? <==> verb == "POST" && header.Some? && expected.Some? && header.value == Bearer + expected.value
    ensures verb == "POST" && r.Some? ==> r.value.Failure? && r.value.status == 401
  {
    if verb == "OPTIONS" then Some(Preflight)
    else if verb != "POST" then Some(Failure(405, "Method not allowed", NoDetail))
    else
      match Authorize(header, expected)
      case MissingHeader =>
        Some(Failure(401, "Unauthorized - Missing or invalid Authorization header", NoDetail))
      case InvalidToken => Some(Failure(401, "Unauthorized - Invalid token", NoDetail))
      case Authorized => None
  }
}
