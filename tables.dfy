/** The two read-only tables the service loads at start-up (the results
    table and the text table), and the ways the handlers read them: the
    fixed column projections and the filter on the `id` column. */
module Tables {

  /** A cell of a table, as the JSON rendering the service sends back.
      `response_score` is already the fixed-precision string produced at
      load time; the other cells are opaque to the handlers. */
  type Cell = string

  /** The five model outputs both tables carry. */
  datatype ModelScores = ModelScores(
    rf: Cell,
    xgb: Cell,
    nb: Cell,
    nbIsotonic: Cell,
    nbSigmoid: Cell)

  /** One row of the results table: an integer `id`, the named columns the
      lookup projects, and whatever other columns the file holds. */
  datatype ResultRow = ResultRow(
    id: int,
    actualResponse: Cell,
    responseScore: Cell,
    scores: ModelScores,
    otherColumns: map<string, Cell>)

  /** One row of the text table. */
  datatype TextRow = TextRow(
    textId: Cell,
    name: Cell,
    description: Cell,
    scores: ModelScores,
    responseScore: Cell,
    responseV05: Cell,
    responseV07: Cell,
    responseV09: Cell,
    otherColumns: map<string, Cell>)

  /** The eight columns the prediction lookup returns. */
  datatype PredictionRecord = PredictionRecord(
    id: int,
    actualResponse: Cell,
    responseScore: Cell,
    scores: ModelScores)

  /** The twelve columns the batch endpoint returns for each text row. */
  datatype TextRecord = TextRecord(
    textId: Cell,
    name: Cell,
    description: Cell,
    scores: ModelScores,
    responseScore: Cell,
    responseV05: Cell,
    responseV07: Cell,
    responseV09: Cell)

  function ProjectPrediction(row: ResultRow): PredictionRecord {
    PredictionRecord(row.id, row.actualResponse, row.responseScore, row.scores)
  }

  function ProjectText(row: TextRow): TextRecord {
    TextRecord(row.textId, row.name, row.description, row.scores, row.responseScore,
               row.responseV05, row.responseV07, row.responseV09)
  }

  /** Column projection applied to every row, keeping the row order. */
  function ProjectPredictions(rows: seq<ResultRow>): (r: seq<PredictionRecord>)
    ensures |r| == |rows|
    ensures forall i :: 0 <= i < |rows| ==> r[i] == ProjectPrediction(rows[i])
  {
    if rows == [] then [] else [ProjectPrediction(rows[0])] + ProjectPredictions(rows[1..])
  }

  /** The text table with the batch endpoint's twelve columns, row by row. */
  function TextProjection(text: seq<TextRow>): (r: seq<TextRecord>)
    ensures |r| == |text|
    ensures forall i :: 0 <= i < |text| ==> r[i] == ProjectText(text[i])
  {
    if text == [] then [] else [ProjectText(text[0])] + TextProjection(text[1..])
  }

  /** Whether some row of the table has the given `id`. */
  predicate HasId(table: seq<ResultRow>, id: int) {
    exists i :: 0 <= i < |table| && table[i].id == id
  }

  /** The rows whose `id` equals the given one, in table order. */
  function RowsWithId(table: seq<ResultRow>, id: int): (r: seq<ResultRow>)
    ensures |r| <= |table|
    ensures forall row :: row in r ==> row.id == id
  {
    if table == [] then []
    else if table[0].id == id then [table[0]] + RowsWithId(table[1..], id)
    else RowsWithId(table[1..], id)
  }

  /** Exactly the table rows with that `id` are selected. */
  lemma {:induction false} RowsWithIdMembership(table: seq<ResultRow>, id: int, row: ResultRow)
    ensures row in RowsWithId(table, id) <==> row in table && row.id == id
  {
    if table != [] {
      RowsWithIdMembership(table[1..], id, row);
      assert table == [table[0]] + table[1..];
    }
  }

  /** Filtering commutes with concatenation: the selected rows keep their
      table order. */
  lemma {:induction false} RowsWithIdAppend(a: seq<ResultRow>, b: seq<ResultRow>, id: int)
    ensures RowsWithId(a + b, id) == RowsWithId(a, id) + RowsWithId(b, id)
  {
    if a == [] {
      assert a + b == b;
    } else {
      assert (a + b)[1..] == a[1..] + b;
      RowsWithIdAppend(a[1..], b, id);
    }
  }

  /** The filter is empty exactly when no row carries that `id`. */
  lemma {:induction false} RowsWithIdEmptyIffAbsent(table: seq<ResultRow>, id: int)
    ensures RowsWithId(table, id) == [] <==> !HasId(table, id)
  {
    if table != [] {
      RowsWithIdEmptyIffAbsent(table[1..], id);
      if table[0].id != id && HasId(table, id) {
        var i :| 0 <= i < |table| && table[i].id == id;
        assert table[1..][i - 1].id == id;
      }
      if HasId(table[1..], id) {
        var i :| 0 <= i < |table[1..]| && table[1..][i].id == id;
        assert table[i + 1].id == id;
      }
    }
  }

  /** Each row with that `id` appears in the result as many times as it
      appears in the table. */
  lemma {:induction false} RowsWithIdCount(table: seq<ResultRow>, id: int, row: ResultRow)
    requires row.id == id
    ensures multiset(RowsWithId(table, id))[row] == multiset(table)[row]
  {
    if table != [] {
      RowsWithIdCount(table[1..], id, row);
      assert table == [table[0]] + table[1..];
    }
  }
}
