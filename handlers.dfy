/** The three request handlers of the service, from the decoded request
    parameters to the status code and JSON body they answer with. The
    tables and the credential table are passed in; nothing is mutated. */
module Handlers {
  import opened Wrappers
  import opened Tables
  import opened Credentials
  import opened IntParse
  import opened Sampling

  const Ok := 200
  const BadRequest := 400
  const Forbidden := 403
  const NotFound := 404
  const ServerError := 500

  /** Rows drawn by the random-records endpoint. */
  const SampleSize := 50

  const MissingCredentialsMessage := "Please provide both username and password parameters"
  const InvalidCredentialsMessage := "Invalid username or password"
  const ProcessingErrorMessage := "An error occurred while processing the request"
  const MissingIdMessage := "Please provide id parameter"
  const IdNotFoundMessage := "ID not found in the dataset"
  const ExpectedListMessage := "Invalid JSON format: Expected a list"

  /** One entry of the batch answer: the projected text table, or an
      error object. */
  datatype Entry = TextRecords(records: seq<TextRecord>) | EntryError(message: string)

  /** The JSON body of a response. */
  datatype Body =
    | ResultRows(rows: seq<ResultRow>)
    | Predictions(records: seq<PredictionRecord>)
    | Entries(entries: seq<Entry>)
    | ErrorBody(message: string)

  datatype Response = Response(status: int, body: Body)

  /** A query parameter that Python's `not` treats as missing: absent, or
      present but empty. */
  predicate MissingOrEmpty(p: Option<string>)
    ensures !MissingOrEmpty(p) <==> p.Some? && |p.value| > 0
  {
    p.None? || p.value == ""
  }

  /** GET /get_random_records. A missing or empty credential is a client
      error whatever the credential table holds; a pair that is not an
      entry of the table is forbidden; a valid pair receives fifty distinct
      rows of the results table, unless the table is too small to draw
      them, which is a server error. `picks` are the drawn row positions. */
  method GetRandomRecords(users: Users, username: Option<string>, password: Option<string>,
                          table: seq<ResultRow>)
    returns (resp: Response, ghost picks: seq<nat>)
    ensures MissingOrEmpty(username) || MissingOrEmpty(password)
            ==> resp == Response(BadRequest, ErrorBody(MissingCredentialsMessage))
    ensures !MissingOrEmpty(username) && !MissingOrEmpty(password)
            && !Authenticates(users, username, password)
            ==> resp == Response(Forbidden, ErrorBody(InvalidCredentialsMessage))
    ensures !MissingOrEmpty(username) && !MissingOrEmpty(password)
            && Authenticates(users, username, password) && |table| < SampleSize
            ==> resp == Response(ServerError, ErrorBody(ProcessingErrorMessage))
    ensures resp.status == Ok
            <==> !MissingOrEmpty(username) && !MissingOrEmpty(password)
                 && Authenticates(users, username, password) && |table| >= SampleSize
    ensures resp.status == Ok
            ==> && |picks| == SampleSize
                && DistinctIndices(picks, |table|)
                && resp.body == ResultRows(Pick(table, picks))
                && multiset(resp.body.rows) <= multiset(table)
  {
    picks := [];
    if MissingOrEmpty(username) || MissingOrEmpty(password) {
      return Response(BadRequest, ErrorBody(MissingCredentialsMessage)), picks;
    }
    if Authenticates(users, username, password) {
      var sample := SampleIndices(|table|, SampleSize);
      match sample
      case None =>
        resp := Response(ServerError, ErrorBody(ProcessingErrorMessage));
      case Some(drawn) =>
        picks := drawn;
        PickIsSubMultiset(table, drawn);
        resp := Response(Ok, ResultRows(Pick(table, drawn)));
    } else {
      resp := Response(Forbidden, ErrorBody(InvalidCredentialsMessage));
    }
  }

  /** GET /get_prediction. Only an absent `id` is a client error; a value
      that does not read as an integer (the empty string included) is a
      server error; an integer no row carries is not found; otherwise the
      answer is every row with that `id`, in table order, cut down to the
      eight prediction columns. */
  function GetPrediction(id: Option<string>, table: seq<ResultRow>): (r: Response)
    ensures r.status == BadRequest <==> id.None?
    ensures id.None? ==> r.body == ErrorBody(MissingIdMessage)
    ensures r.status == ServerError <==> id.Some? && ParseInt(id.value).None?
    ensures r.status == ServerError ==> r.body == ErrorBody(ProcessingErrorMessage)
    ensures r.status == NotFound
            <==> id.Some? && ParseInt(id.value).Some? && !HasId(table, ParseInt(id.value).value)
    ensures r.status == NotFound ==> r.body == ErrorBody(IdNotFoundMessage)
    ensures r.status in {Ok, BadRequest, NotFound, ServerError}
    ensures r.status == Ok
            ==> && r.body.Predictions?
                && r.body.records == ProjectPredictions(RowsWithId(table, ParseInt(id.value).value))
                && r.body.records != []
                && forall rec :: rec in r.body.records ==> rec.id == ParseInt(id.value).value
  {
    match id
    case None => Response(BadRequest, ErrorBody(MissingIdMessage))
    case Some(s) =>
      match ParseInt(s)
      case None => Response(ServerError, ErrorBody(ProcessingErrorMessage))
      case Some(n) =>
        if !HasId(table, n) then Response(NotFound, ErrorBody(IdNotFoundMessage))
        else
          var rows := RowsWithId(table, n);
          RowsWithIdEmptyIffAbsent(table, n);
          var records := ProjectPredictions(rows);
          assert forall rec :: rec in records ==> rec.id == n by {
            forall rec | rec in records ensures rec.id == n {
              var i :| 0 <= i < |records| && records[i] == rec;
              assert rows[i] in rows;
            }
          }
          Response(Ok, Predictions(records))
  }

  /** The empty `id` parameter is present, so it is not a client error: it
      fails the integer conversion and is reported as a server error. */
  lemma EmptyIdIsServerError(table: seq<ResultRow>)
    ensures GetPrediction(Some(""), table) == Response(ServerError, ErrorBody(ProcessingErrorMessage))
  {
  }

  /** An `id` that starts with an information separator (U+001C to
      U+001F) is refused by the integer conversion, so the lookup answers
      with a server error. */
  lemma SeparatorIdIsServerError(c: char, rest: string, table: seq<ResultRow>)
    requires '\U{1C}' <= c <= '\U{1F}'
    ensures GetPrediction(Some([c] + rest), table) == Response(ServerError, ErrorBody(ProcessingErrorMessage))
  {
    SeparatorIsNotPadding(c, rest);
  }

  /** Looking up the decimal rendering of an integer answers with exactly
      the rows carrying that integer, each row as often as the table holds
      it, or with not-found when there is none. */
  lemma LookupOfRenderedId(n: int, table: seq<ResultRow>)
    ensures var r := GetPrediction(Some(ShowInt(n)), table);
            && (r.status == Ok || r.status == NotFound)
            && (r.status == Ok <==> HasId(table, n))
            && (r.status == Ok ==> r.body.records == ProjectPredictions(RowsWithId(table, n)))
            && (r.status == Ok ==> forall row: ResultRow :: row.id == n ==>
                  multiset(RowsWithId(table, n))[row] == multiset(table)[row])
  {
    ParseShowRoundTrip(n);
    forall row: ResultRow | row.id == n
      ensures multiset(RowsWithId(table, n))[row] == multiset(table)[row]
    {
      RowsWithIdCount(table, n, row);
    }
  }

  /** One element of the POST body, with its `username` and `password`
      fields, each possibly absent. */
  datatype Item = Item(username: Option<string>, password: Option<string>)

  /** The decoded POST body: a JSON array of items, or anything else. */
  datatype RequestBody = JsonList(items: seq<Item>) | NotAList

  /** The answer for one item: the whole text table, projected, when the
      item's credentials are an entry of the table; an error object
      otherwise. */
  function EntryFor(users: Users, item: Item, text: seq<TextRow>): (e: Entry)
    ensures e.TextRecords? <==> Authenticates(users, item.username, item.password)
    ensures e.TextRecords? ==> e.records == TextProjection(text) && |e.records| == |text|
    ensures e.EntryError? ==> e.message == InvalidCredentialsMessage
  {
    if Authenticates(users, item.username, item.password)
    then TextRecords(TextProjection(text))
    else EntryError(InvalidCredentialsMessage)
  }

  /** The answers for a list of items, item by item. */
  function BatchEntries(users: Users, items: seq<Item>, text: seq<TextRow>): (r: seq<Entry>)
    ensures |r| == |items|
  {
    if items == [] then []
    else [EntryFor(users, items[0], text)] + BatchEntries(users, items[1..], text)
  }

  /** The response of POST /post_predictions, as a function of its inputs. */
  function BatchResponse(users: Users, body: RequestBody, text: seq<TextRow>): (r: Response)
    ensures r.status == BadRequest <==> body.NotAList?
    ensures body.NotAList? ==> r.body == ErrorBody(ExpectedListMessage)
    ensures body.JsonList? ==> r.status == Ok && r.body.Entries? && |r.body.entries| == |body.items|
  {
    match body
    case NotAList => Response(BadRequest, ErrorBody(ExpectedListMessage))
    case JsonList(items) => Response(Ok, Entries(BatchEntries(users, items, text)))
  }

  /** Entry `i` of the answer is the answer for item `i` alone. */
  lemma {:induction false} BatchEntryAt(users: Users, items: seq<Item>, text: seq<TextRow>, i: nat)
    requires i < |items|
    ensures BatchEntries(users, items, text)[i] == EntryFor(users, items[i], text)
  {
    if i > 0 {
      BatchEntryAt(users, items[1..], text, i - 1);
    }
  }

  /** Answering two lists one after the other is answering their
      concatenation: no item affects another's answer or position. */
  lemma {:induction false} BatchEntriesAppend(users: Users, a: seq<Item>, b: seq<Item>, text: seq<TextRow>)
    ensures BatchEntries(users, a + b, text) == BatchEntries(users, a, text) + BatchEntries(users, b, text)
  {
    if a == [] {
      assert a + b == b;
    } else {
      assert (a + b)[1..] == a[1..] + b;
      BatchEntriesAppend(users, a[1..], b, text);
    }
  }

  /** Two batches that agree on item `i` get the same answer at `i`,
      whatever their other items are. */
  lemma {:induction false} BatchItemIndependence(users: Users, items: seq<Item>, others: seq<Item>,
                              text: seq<TextRow>, i: nat)
    requires i < |items| && i < |others| && items[i] == others[i]
    ensures BatchEntries(users, items, text)[i] == BatchEntries(users, others, text)[i]
  {
    BatchEntryAt(users, items, text, i);
    BatchEntryAt(users, others, text, i);
  }

  /** A batch none of whose items authenticates gets only error entries. */
  lemma {:induction false} AllInvalidAllErrors(users: Users, items: seq<Item>, text: seq<TextRow>)
    requires forall i :: 0 <= i < |items| ==> !Authenticates(users, items[i].username, items[i].password)
    ensures forall e :: e in BatchEntries(users, items, text) ==> e == EntryError(InvalidCredentialsMessage)
  {
    var r := BatchEntries(users, items, text);
    forall e | e in r ensures e == EntryError(InvalidCredentialsMessage) {
      var i :| 0 <= i < |r| && r[i] == e;
      BatchEntryAt(users, items, text, i);
    }
  }

  /** POST /post_predictions. A body that is not a list is a single client
      error. A list is answered item by item, in order, one entry each; a
      failed item does not stop the ones after it. */
  method AuthenticateUser(users: Users, body: RequestBody, text: seq<TextRow>) returns (resp: Response)
    ensures resp == BatchResponse(users, body, text)
    ensures body.NotAList? ==> resp == Response(BadRequest, ErrorBody(ExpectedListMessage))
    ensures body.JsonList?
            ==> && resp.status == Ok
                && resp.body.Entries?
                && |resp.body.entries| == |body.items|
                && forall i :: 0 <= i < |body.items|
                     ==> resp.body.entries[i] == EntryFor(users, body.items[i], text)
  {
    match body
    case NotAList =>
      resp := Response(BadRequest, ErrorBody(ExpectedListMessage));
    case JsonList(items) =>
      var responses: seq<Entry> := [];
      for i := 0 to |items|
        invariant responses == BatchEntries(users, items[..i], text)
      {
        var item := items[i];
        if Authenticates(users, item.username, item.password) {
          responses := responses + [TextRecords(TextProjection(text))];
        } else {
          responses := responses + [EntryError(InvalidCredentialsMessage)];
        }
        assert items[..i + 1] == items[..i] + [item];
        BatchEntriesAppend(users, items[..i], [item], text);
      }
      assert items[..|items|] == items;
      forall i | 0 <= i < |items| ensures responses[i] == EntryFor(users, items[i], text) {
        BatchEntryAt(users, items, text, i);
      }
      resp := Response(Ok, Entries(responses));
  }
}
