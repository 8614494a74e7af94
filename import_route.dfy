/**
 * The HTTP endpoint the browser extension posts to: a shared-key check,
 * then the records handed to the ingestion sink, and the sink's counts
 * returned as JSON.
 */
module ImportRoute {
  import opened Wrappers
  import opened AlumniStore
  import opened AlumniSync

  /** The request carries the key when the header equals the server's service key; an absent header or key never matches. */
  predicate Authorized(header: Option<string>, serverKey: Option<string>) {
    header.Some? && serverKey.Some? && header.value == serverKey.value
  }

  /** What `req.json()` and the destructuring of `data` give: an exception, or the records. */
  datatype RequestBody = Malformed(message: string) | Payload(data: seq<AlumniData>)

  datatype ResponseBody = ErrorBody(error: string) | Counts(success: bool, count: nat, errors: nat)

  datatype Response = Response(status: nat, body: ResponseBody)

  const UNAUTHORIZED: Response := Response(401, ErrorBody("Non autorisé"))

  /**
   * `POST`: refuse with 401 unless the key matches; otherwise hand the
   * records, as posted, to the sink and answer with its counts, or with 500
   * and the message when the body or the sink throws.
   */
  method Post(header: Option<string>, serverKey: Option<string>, body: RequestBody,
              store: Store, replies: seq<UpsertReply>)
      returns (response: Response, store': Store)
    requires body.Payload? ==> |replies| == |body.data|
    ensures !Authorized(header, serverKey) ==> response == UNAUTHORIZED && store' == store
    ensures Authorized(header, serverKey) && body.Malformed? ==>
      response == Response(500, ErrorBody(body.message)) && store' == store
    ensures Authorized(header, serverKey) && body.Payload? ==>
      var data := body.data;
      var n := Reached(replies);
      store' == ApplyProfiles(store, Writes(data[..n], replies[..n])) &&
      (n < |data| ==> response == Response(500, ErrorBody(replies[n].message))) &&
      (n == |data| ==> response == Response(200, Counts(true, |data| - Failures(replies), Failures(replies))))
    ensures response.status == 401 <==> !Authorized(header, serverKey)
  {
    if !Authorized(header, serverKey) {
      return UNAUTHORIZED, store;
    }
    if body.Malformed? {
      return Response(500, ErrorBody(body.message)), store;
    }
    var outcome;
    outcome, store' := SyncAlumniData(store, body.data, replies);
    match outcome
    case SyncThrew(message) =>
      response := Response(500, ErrorBody(message));
    case Synced(result) =>
      response := Response(200, Counts(true, result.successCount, result.errorCount));
  }
}
