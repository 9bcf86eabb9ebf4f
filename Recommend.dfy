/** Start-up and the `/recommend` handler: the query text built from the
    request's answers, the top-five selection over the similarity vector
    and the projection of each chosen row onto its display fields. The
    vectoriser and the cosine similarity are library numerics; they enter
    as `similarity`, the score of every corpus row for a query text. */
module Recommend {
  import opened Wrappers
  import opened Text
  import opened Catalog
  import opened Ranking

  /** The request's JSON object, restricted to its string-valued keys. */
  type Answers = map<string, string>

  /** `answers.get(key, '')`. */
  function Answer(answers: Answers, key: string): string
  {
    if key in answers then answers[key] else ""
  }

  /** `f"{refresh_type} {sauna_temp} {water_temp}"`, each absent key read as `''`. */
  function QueryText(answers: Answers): string
  {
    Answer(answers, "refresh_type") + " " + Answer(answers, "sauna_temp") + " " + Answer(answers, "water_temp")
  }

  /** One entry of the response: the four display fields, nothing else.
      `price` is the raw 料金 text, not the parsed number. */
  datatype Recommendation = Recommendation(name: Cell, location: Cell, price: Cell, tip: Cell)

  /** `{"error": "データなし"}` with status 500. */
  datatype Error = NoData

  const NO_DATA_STATUS: nat := 500

  function Project(r: Record): Recommendation
  {
    Recommendation(r.name, r.location, r.price, r.tip)
  }

  /** The query is the three answers joined by single spaces, in the fixed
      order refresh, sauna, water; when none holds a space they can be
      read back from it, missing ones as empty fields. */
  lemma QueryTextFields(answers: Answers)
    ensures QueryText(answers) == Join([Answer(answers, "refresh_type"), Answer(answers, "sauna_temp"), Answer(answers, "water_temp")])
    ensures |QueryText(answers)| ==
      |Answer(answers, "refresh_type")| + |Answer(answers, "sauna_temp")| + |Answer(answers, "water_temp")| + 2
    ensures NoSpace(Answer(answers, "refresh_type")) && NoSpace(Answer(answers, "sauna_temp"))
            && NoSpace(Answer(answers, "water_temp")) ==>
      Split(QueryText(answers)) == [Answer(answers, "refresh_type"), Answer(answers, "sauna_temp"), Answer(answers, "water_temp")]
  {
    var (a, b, c) := (Answer(answers, "refresh_type"), Answer(answers, "sauna_temp"), Answer(answers, "water_temp"));
    var fields := [a, b, c];
    assert Join(fields[2..]) == c;
    assert Join(fields[1..]) == b + " " + c;
    assert a + " " + b + " " + c == a + " " + (b + " " + c);
    if NoSpace(a) && NoSpace(b) && NoSpace(c) {
      SplitJoin(fields);
    }
  }

  /** The projection loop: one entry per chosen position, in the same order. */
  method Collect(rows: seq<Row>, picked: seq<nat>) returns (recs: seq<Recommendation>)
    requires forall j :: 0 <= j < |picked| ==> picked[j] < |rows|
    ensures |recs| == |picked|
    ensures forall j :: 0 <= j < |picked| ==> recs[j] == Project(rows[picked[j]].record)
  {
    recs := [];
    var j := 0;
    while j < |picked|
      invariant 0 <= j <= |picked|
      invariant |recs| == j
      invariant forall m :: 0 <= m < j ==> recs[m] == Project(rows[picked[m]].record)
    {
      recs := recs + [Project(rows[picked[j]].record)];
      j := j + 1;
    }
  }

  /** `recommend()`: with no catalog, the "no data" error and no ranking;
      otherwise `min(5, n)` entries, one per row of a valid top-five answer
      for the query's scores, in that answer's order. */
  method HandleRecommend(frame: Frame?, answers: Answers, similarity: string -> seq<real>)
    returns (response: Result<seq<Recommendation>, Error>)
    requires frame != null ==> |similarity(QueryText(answers))| == |frame.rows|
    ensures frame == null ==> response == Failure(NoData)
    ensures frame != null ==> response.Success? && |response.value| == Min(TOP_K, |frame.rows|)
    ensures frame != null ==>
      exists picked :: IsTopK(similarity(QueryText(answers)), TOP_K, picked)
        && |response.value| == |picked|
        && forall j :: 0 <= j < |picked| ==> response.value[j] == Project(frame.rows[picked[j]].record)
  {
    if frame == null {
      return Failure(NoData);
    }
    var query := QueryText(answers);
    var scores := similarity(query);
    var picked := TopK(scores, TOP_K);
    var recs := Collect(frame.rows, picked);
    response := Success(recs);
  }

  /** The module-level start-up code: a missing CSV file leaves `df = None`;
      otherwise the frame goes through the price column, `dropna`,
      `reset_index` and the `features` column. */
  method Startup(csv: Option<seq<Record>>) returns (frame: Frame?)
    ensures csv.None? ==> frame == null
    ensures csv.Some? ==> frame != null && fresh(frame)
    ensures csv.Some? ==> frame.rows == Corpus(csv.value)
    ensures csv.Some? ==> |frame.features| == |frame.rows|
    ensures csv.Some? ==> forall k :: 0 <= k < |frame.rows| ==> frame.features[k] == FeatureCell(frame.rows[k].record)
  {
    if csv.None? {
      return null;
    }
    frame := new Frame.Read(csv.value);
    frame.DropIncomplete();
    ghost var dropped := frame.rows;
    frame.ResetIndex();
    assert frame.rows == Relabelled(dropped);
    frame.AddFeatures();
  }
}
