/**
 * The blog-deletion webhook (`supabase/functions/delete-blog-webhook/index.ts`):
 * after the shared gate, it reads the title to delete, deletes every post with
 * that title and reports the first deleted row, or 404 when none matched. The
 * database delete is a parameter.
 */
module DeleteBlogWebhook {
  import opened Wrappers
  import opened WebhookGate

  /** The request body: not JSON, the JSON `null`, or a parsed value whose `title`
      field is given (`Undefined` for a JSON value that is not an object). */
  datatype Body = Unparsable | NullPayload | Parsed(title: Value)

  /** What the delete returns: an error, or the deleted rows (None for `null`). */
  datatype DeleteResult = DeleteFailed(message: string) | DeletedRows(rows: Option<seq<BlogRecord>>)

  /** The response, and the title the handler asked the database to delete, if any. */
  datatype Outcome = Outcome(response: Response, deletedTitle: Option<string>)

  /** The answer once the delete has run. */
  function DeleteResponse(title: string, result: DeleteResult): (r: Response)
    ensures result.DeleteFailed? ==> r == Failure(500, "Failed to delete blog post", Details(result.message))
    ensures r.Failure? && r.status == 404 <==> result.DeletedRows? && (result.rows.None? || result.rows.value == [])
    ensures r.Failure? && r.status == 404 ==> r == Failure(404, "Blog post not found", EchoedTitle(title))
    ensures r.Success? <==> result.DeletedRows? && result.rows.Some? && |result.rows.value| > 0
    ensures r.Success? ==> r == Success(200, "Blog post deleted successfully", result.rows.value[0])
  {
    match result
    case DeleteFailed(m) => Failure(500, "Failed to delete blog post", Details(m))
    case DeletedRows(rows) =>
      if rows.None? || |rows.value| == 0 then Failure(404, "Blog post not found", EchoedTitle(title))
      else Success(200, "Blog post deleted successfully", rows.value[0])
  }

  /** The handler. `expected` is the configured token and `delete` the database. */
  function Handle(verb: string, header: Option<string>, expected: Option<string>, body: Body,
                  delete: string -> DeleteResult): (r: Outcome)
    ensures Gate(verb, header, expected).Some? ==> r == Outcome(Gate(verb, header, expected).value, None)
    ensures Gate(verb, header, expected).None? && !body.Parsed? ==> r == Outcome(InternalError, None)
    ensures Gate(verb, header, expected).None? && body.Parsed? && !IsNonEmptyText(body.title) ==>
      r == Outcome(Failure(400, "Missing or invalid field: title", NoDetail), None)
    ensures r.deletedTitle.Some? <==>
      Gate(verb, header, expected).None? && body.Parsed? && IsNonEmptyText(body.title)
    ensures r.deletedTitle.Some? ==>
      r.deletedTitle.value == body.title.s
      && r.response == DeleteResponse(body.title.s, delete(body.title.s))
  {
    match Gate(verb, header, expected)
    case Some(response) => Outcome(response, None)
    case None =>
      match body
      case Unparsable => Outcome(InternalError, None)
      case NullPayload => Outcome(InternalError, None)
      case Parsed(title) =>
        if !IsNonEmptyText(title) then Outcome(Failure(400, "Missing or invalid field: title", NoDetail), None)
        else Outcome(DeleteResponse(title.s, delete(title.s)), Some(title.s))
  }

  /** No delete runs unless the request is a POST with the configured token and
      a non-empty string title. */
  lemma DeleteOnlyWhenValid(verb: string, header: Option<string>, expected: Option<string>, body: Body,
                            delete: string -> DeleteResult)
    requires Handle(verb, header, expected, body, delete).deletedTitle.Some?
    ensures verb == "POST" && expected.Some? && header == Some(Bearer + expected.value)
    ensures body.Parsed? && body.title.Text? && body.title.s != ""
  {
  }

  /** A 404 happens exactly when a valid request deleted nothing, and it echoes
      the title asked for. */
  lemma NotFoundEchoesTitle(verb: string, header: Option<string>, expected: Option<string>, body: Body,
                            delete: string -> DeleteResult)
    ensures var r := Handle(verb, header, expected, body, delete);
      r.response.Failure? && r.response.status == 404 <==>
        && r.deletedTitle.Some?
        && delete(r.deletedTitle.value).DeletedRows?
        && (delete(r.deletedTitle.value).rows.None? || delete(r.deletedTitle.value).rows.value == [])
    ensures var r := Handle(verb, header, expected, body, delete);
      r.response.Failure? && r.response.status == 404 ==> r.response.detail == EchoedTitle(body.title.s)
  {
  }

  /** Every success reports the first row the delete returned. */
  lemma DeletedReportsFirstRow(verb: string, header: Option<string>, expected: Option<string>, body: Body,
                               delete: string -> DeleteResult)
    requires Handle(verb, header, expected, body, delete).response.Success?
    ensures var r := Handle(verb, header, expected, body, delete);
      && r.deletedTitle == Some(body.title.s)
      && r.response.status == 200
      && var rows := delete(body.title.s).rows.value;
         |rows| > 0 && r.response.record == rows[0]
  {
  }
}
