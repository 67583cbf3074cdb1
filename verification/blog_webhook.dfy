/**
 * The blog-creation webhook (`supabase/functions/blog-webhook/index.ts`): after
 * the shared gate, it reads a JSON payload, checks the three required fields in
 * order and the author against an allow-list, and only then inserts the post.
 * The database insert is a parameter.
 */
module BlogWebhook {
  import opened Wrappers
  import opened Text
  import opened WebhookGate

  const ValidAuthors: seq<string> := ["Hakim Cisse", "Yassine Diallo", "Yunus Kounkourou"]

  datatype Payload = Payload(authorName: Value, title: Value, body: Value, imageUrl: Value)

  /** The request body: not JSON (`req.json()` throws), the JSON `null` (reading a
      field of it throws), or a parsed value. A JSON value that is not an object
      is a payload whose fields are all `Undefined`. */
  datatype Body = Unparsable | NullPayload | Parsed(payload: Payload)

  /** The row handed to the insert. */
  datatype Row = Row(authorName: string, title: string, body: string, imageUrl: Value)

  datatype InsertResult = InsertFailed(message: string) | Inserted(record: BlogRecord)

  /** The response, and the row the handler asked the database to insert, if any. */
  datatype Outcome = Outcome(response: Response, inserted: Option<Row>)

  /** The first required field, in the order author_name, title, body, that is
      missing, empty or not a string. */
  function MissingField(p: Payload): (r: Option<string>)
    ensures r.None? <==> IsNonEmptyText(p.authorName) && IsNonEmptyText(p.title) && IsNonEmptyText(p.body)
    ensures r == Some("author_name") <==> !IsNonEmptyText(p.authorName)
    ensures r == Some("title") <==> IsNonEmptyText(p.authorName) && !IsNonEmptyText(p.title)
    ensures r == Some("body") <==>
      IsNonEmptyText(p.authorName) && IsNonEmptyText(p.title) && !IsNonEmptyText(p.body)
  {
    if !IsNonEmptyText(p.authorName) then Some("author_name")
    else if !IsNonEmptyText(p.title) then Some("title")
    else if !IsNonEmptyText(p.body) then Some("body")
    else None
  }

  const InvalidAuthorError := "Invalid author_name. Must be one of: " + Join(ValidAuthors, ", ")

  /** The row stored for a payload that passed every check; a falsy image URL
      becomes `null`. */
  function RowOf(p: Payload): (r: Row)
    requires MissingField(p).None?
    ensures r.authorName == p.authorName.s && r.title == p.title.s && r.body == p.body.s
    ensures r.imageUrl == if Truthy(p.imageUrl) then p.imageUrl else Null
  {
    Row(p.authorName.s, p.title.s, p.body.s, OrNull(p.imageUrl))
  }

  /** The checks on the payload; None lets it through to the insert. */
  function CheckPayload(body: Body): (r: Option<Response>)
    ensures r.None? <==> body.Parsed? && MissingField(body.payload).None? && body.payload.authorName.s in ValidAuthors
    ensures !body.Parsed? ==> r == Some(InternalError)
    ensures body.Parsed? && MissingField(body.payload).Some? ==>
      r == Some(Failure(400, "Missing or invalid field: " + MissingField(body.payload).value, NoDetail))
    ensures body.Parsed? && MissingField(body.payload).None? && body.payload.authorName.s !in ValidAuthors ==>
      r == Some(Failure(400, InvalidAuthorError, NoDetail))
  {
    match body
    case Unparsable => Some(InternalError)
    case NullPayload => Some(InternalError)
    case Parsed(p) =>
      match MissingField(p)
      case Some(field) => Some(Failure(400, "Missing or invalid field: " + field, NoDetail))
      case None =>
        if p.authorName.s !in ValidAuthors then Some(Failure(400, InvalidAuthorError, NoDetail))
        else None
  }

  /** The handler. `expected` is the configured token and `insert` the database. */
  function Handle(verb: string, header: Option<string>, expected: Option<string>, body: Body,
                  insert: Row -> InsertResult): (r: Outcome)
    ensures Gate(verb, header, expected).Some? ==> r == Outcome(Gate(verb, header, expected).value, None)
    ensures Gate(verb, header, expected).None? && CheckPayload(body).Some? ==>
      r == Outcome(CheckPayload(body).value, None)
    ensures r.inserted.Some? <==> Gate(verb, header, expected).None? && CheckPayload(body).None?
    ensures r.inserted.Some? ==>
      && r.inserted.value == RowOf(body.payload)
      && match insert(r.inserted.value)
         case InsertFailed(m) => r.response == Failure(500, "Failed to create blog post", Details(m))
         case Inserted(record) => r.response == Success(201, "Blog post created successfully", record)
  {
    match Gate(verb, header, expected)
    case Some(response) => Outcome(response, None)
    case None =>
      match CheckPayload(body)
      case Some(response) => Outcome(response, None)
      case None =>
        var row := RowOf(body.payload);
        match insert(row)
        case InsertFailed(m) => Outcome(Failure(500, "Failed to create blog post", Details(m)), Some(row))
        case Inserted(record) => Outcome(Success(201, "Blog post created successfully", record), Some(row))
  }

  /** Nothing is inserted unless the request is a POST with the configured
      token, a payload with all three fields as non-empty strings, and an
      allowed author. */
  lemma InsertOnlyWhenValid(verb: string, header: Option<string>, expected: Option<string>, body: Body,
                            insert: Row -> InsertResult)
    requires Handle(verb, header, expected, body, insert).inserted.Some?
    ensures verb == "POST" && expected.Some? && header == Some(Bearer + expected.value)
    ensures body.Parsed?
    ensures var p := body.payload;
      IsNonEmptyText(p.authorName) && IsNonEmptyText(p.title) && IsNonEmptyText(p.body)
      && p.authorName.s in ValidAuthors
  {
  }

  /** Every success is a 201 answering an insert of exactly the payload's fields. */
  lemma CreatedIsInserted(verb: string, header: Option<string>, expected: Option<string>, body: Body,
                          insert: Row -> InsertResult)
    requires Handle(verb, header, expected, body, insert).response.Success?
    ensures var r := Handle(verb, header, expected, body, insert);
      && r.response.status == 201
      && r.inserted.Some?
      && insert(r.inserted.value) == Inserted(r.response.record)
      && r.inserted.value.authorName == body.payload.authorName.s
      && r.inserted.value.title == body.payload.title.s
      && r.inserted.value.body == body.payload.body.s
  {
  }

  /** The allow-list message names the three authors. */
  lemma InvalidAuthorMessage()
    ensures InvalidAuthorError ==
      "Invalid author_name. Must be one of: " + "Hakim Cisse, Yassine Diallo, Yunus Kounkourou"
  {
    JoinThree(ValidAuthors[0], ValidAuthors[1], ValidAuthors[2], ", ");
    assert ValidAuthors == [ValidAuthors[0], ValidAuthors[1], ValidAuthors[2]];
  }

  lemma JoinThree(a: string, b: string, c: string, sep: string)
    ensures Join([a, b, c], sep) == a + sep + (b + sep + c)
  {
    assert [a, b, c][1..] == [b, c];
    assert [b, c][1..] == [c];
    assert Join([c], sep) == c;
    assert Join([b, c], sep) == b + sep + c;
  }

  /** A correctly authorised request from an allowed author with an empty image
      URL inserts the post with a `null` image. */
  lemma EmptyImageStoredAsNull(token: string, title: string, text: string, insert: Row -> InsertResult)
    requires title != "" && text != ""
    ensures var r := Handle("POST", Some(Bearer + token), Some(token),
                            Parsed(Payload(Text("Hakim Cisse"), Text(title), Text(text), Text(""))), insert);
      r.inserted == Some(Row("Hakim Cisse", title, text, Null))
  {
  }
}
