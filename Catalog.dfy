/** The catalog frame built at start-up: the CSV rows, the numeric price
    column, the removal of rows missing a required attribute
    (`dropna(..., inplace=True)`), the renumbering of the survivors
    (`reset_index(drop=True, inplace=True)`) and the `features` column. */
module Catalog {
  import opened Wrappers
  import opened Text
  import Price

  /** One cell of a text column: `None` is pandas' NaN for an empty cell.
      An empty string is a value, not a missing cell. */
  type Cell = Option<string>

  /** One CSV row, by the columns the program reads: 施設名 (name), 場所
      (location), 料金 (price), 初心者におすすめのポイント (tip for
      beginners), スッキリの種類 (kind of refreshment), サウナの温度 (sauna
      temperature), 水風呂の温度 (cold-bath temperature). */
  datatype Record = Record(
    name: Cell, location: Cell, price: Cell,
    tip: Cell, refresh: Cell, saunaTemp: Cell, waterTemp: Cell)

  /** A frame row: its index label, its CSV cells and the derived 料金_数値
      column. */
  datatype Row = Row(index: nat, record: Record, priceValue: Option<nat>)

  /** All four required columns hold a value. */
  predicate IsComplete(r: Record)
  {
    r.tip.Some? && r.refresh.Some? && r.saunaTemp.Some? && r.waterTemp.Some?
  }

  /** The `features` text of a complete record. */
  function FeatureText(r: Record): string
    requires IsComplete(r)
  {
    r.tip.value + " " + r.refresh.value + " " + r.saunaTemp.value + " " + r.waterTemp.value
  }

  /** The `features` cell of a row: the column sum is NaN as soon as one
      of its terms is NaN. */
  function FeatureCell(r: Record): Cell
  {
    if IsComplete(r) then Some(FeatureText(r)) else None
  }

  /** The frame right after `read_csv` and the price column: labels 0..n-1
      and the parsed price of every row. */
  function Loaded(csv: seq<Record>): (rows: seq<Row>)
  {
    seq(|csv|, i requires 0 <= i < |csv| => Row(i, csv[i], Price.CleanPrice(csv[i].price)))
  }

  /** `dropna(subset=required_cols)`: the rows whose four required cells are
      present, in frame order. */
  function KeepComplete(rows: seq<Row>): seq<Row>
  {
    if rows == [] then []
    else
      var last := rows[|rows| - 1];
      KeepComplete(rows[..|rows| - 1]) + (if IsComplete(last.record) then [last] else [])
  }

  /** `reset_index(drop=True)`: the same rows labelled by position. */
  function Relabelled(rows: seq<Row>): seq<Row>
  {
    seq(|rows|, k requires 0 <= k < |rows| => rows[k].(index := k))
  }

  /** The corpus the start-up code leaves behind. */
  function Corpus(csv: seq<Record>): seq<Row>
  {
    Relabelled(KeepComplete(Loaded(csv)))
  }

  /** Reference definition: the positions of the complete CSV rows, in
      increasing order. */
  function Origins(csv: seq<Record>): seq<nat>
  {
    if csv == [] then []
    else Origins(csv[..|csv| - 1]) + (if IsComplete(csv[|csv| - 1]) then [|csv| - 1] else [])
  }

  /** The updated frame. `features` is empty until the column is added. */
  class Frame {
    var rows: seq<Row>
    var features: seq<Cell>

    /** `pd.read_csv` followed by `df['料金_数値'] = df['料金'].apply(clean_price)`. */
    constructor Read(csv: seq<Record>)
      ensures rows == Loaded(csv) && features == []
    {
      var loaded: seq<Row> := [];
      var i := 0;
      while i < |csv|
        invariant 0 <= i <= |csv|
        invariant loaded == Loaded(csv[..i])
      {
        assert csv[..i + 1][..i] == csv[..i];
        loaded := loaded + [Row(i, csv[i], Price.CleanPrice(csv[i].price))];
        i := i + 1;
      }
      assert csv[..i] == csv;
      rows := loaded;
      features := [];
    }

    /** `dropna(subset=required_cols, inplace=True)`, before the `features`
        column exists. */
    method DropIncomplete()
      requires features == []
      modifies this
      ensures rows == KeepComplete(old(rows)) && features == []
    {
      var kept: seq<Row> := [];
      var i := 0;
      while i < |rows|
        invariant 0 <= i <= |rows|
        invariant kept == KeepComplete(rows[..i])
      {
        assert rows[..i + 1][..i] == rows[..i];
        if IsComplete(rows[i].record) {
          kept := kept + [rows[i]];
        }
        i := i + 1;
      }
      assert rows[..i] == rows;
      rows := kept;
    }

    /** `reset_index(drop=True, inplace=True)`: labels become positions. */
    method ResetIndex()
      modifies this
      ensures |rows| == |old(rows)| && features == old(features)
      ensures forall k :: 0 <= k < |rows| ==> rows[k] == old(rows)[k].(index := k)
    {
      var relabelled: seq<Row> := [];
      var k := 0;
      while k < |rows|
        invariant 0 <= k <= |rows|
        invariant |relabelled| == k
        invariant forall j :: 0 <= j < k ==> relabelled[j] == rows[j].(index := j)
      {
        relabelled := relabelled + [rows[k].(index := k)];
        k := k + 1;
      }
      rows := relabelled;
    }

    /** `df['features'] = tip + " " + refresh + " " + sauna + " " + water`. */
    method AddFeatures()
      modifies this
      ensures rows == old(rows)
      ensures |features| == |rows|
      ensures forall k :: 0 <= k < |rows| ==> features[k] == FeatureCell(rows[k].record)
    {
      var column: seq<Cell> := [];
      var k := 0;
      while k < |rows|
        invariant 0 <= k <= |rows|
        invariant |column| == k
        invariant forall j :: 0 <= j < k ==> column[j] == FeatureCell(rows[j].record)
      {
        column := column + [FeatureCell(rows[k].record)];
        k := k + 1;
      }
      features := column;
    }
  }

  // ---------------------------------------------------------------
  // What the start-up pipeline guarantees.
  // ---------------------------------------------------------------

  /** The reference positions are exactly the complete rows, strictly
      increasing. */
  lemma {:induction false} OriginsSpec(csv: seq<Record>)
    ensures forall i :: i in Origins(csv) <==> 0 <= i < |csv| && IsComplete(csv[i])
    ensures forall a, b :: 0 <= a < b < |Origins(csv)| ==> Origins(csv)[a] < Origins(csv)[b]
  {
    if csv != [] {
      var last := |csv| - 1;
      var prefix := csv[..last];
      OriginsSpec(prefix);
      var o := Origins(prefix);
      var tail: seq<nat> := if IsComplete(csv[last]) then [last] else [];
      assert Origins(csv) == o + tail;
      forall i ensures i in Origins(csv) <==> 0 <= i < |csv| && IsComplete(csv[i]) {
        assert 0 <= i < last ==> prefix[i] == csv[i];
        assert i in Origins(csv) <==> i in o || i in tail;
      }
      forall a | 0 <= a < |o| ensures o[a] < last {
        assert o[a] in o;
      }
    }
  }

  /** `dropna` keeps exactly the complete rows of the loaded frame, with
      their original labels and values. */
  lemma {:induction false} DroppedRows(csv: seq<Record>)
    ensures |KeepComplete(Loaded(csv))| == |Origins(csv)|
    ensures forall k :: 0 <= k < |Origins(csv)| ==>
      Origins(csv)[k] < |csv| &&
      KeepComplete(Loaded(csv))[k] == Loaded(csv)[Origins(csv)[k]]
  {
    if csv != [] {
      var n := |csv| - 1;
      var prefix := csv[..n];
      DroppedRows(prefix);
      assert Loaded(csv)[..n] == Loaded(prefix);
      OriginsSpec(prefix);
    }
  }

  /** The corpus is the complete CSV rows in their original order, labelled
      0..n-1 with no gap, each with its parsed price. */
  lemma CorpusSpec(csv: seq<Record>)
    ensures |Corpus(csv)| == |Origins(csv)| <= |csv|
    ensures forall k :: 0 <= k < |Corpus(csv)| ==>
      var i := Origins(csv)[k];
      i < |csv| && Corpus(csv)[k] == Row(k, csv[i], Price.CleanPrice(csv[i].price))
    ensures forall k :: 0 <= k < |Corpus(csv)| ==> IsComplete(Corpus(csv)[k].record)
  {
    DroppedRows(csv);
    OriginsSpec(csv);
    OriginsWithin(csv);
  }

  lemma {:induction false} OriginsWithin(csv: seq<Record>)
    ensures |Origins(csv)| <= |csv|
  {
    if csv != [] {
      OriginsWithin(csv[..|csv| - 1]);
    }
  }

  /** The `features` text is the four required fields joined by single
      spaces in the fixed order tip, refresh, sauna, water. */
  lemma FeatureTextIsJoin(r: Record)
    requires IsComplete(r)
    ensures FeatureText(r) == Join([r.tip.value, r.refresh.value, r.saunaTemp.value, r.waterTemp.value])
  {
    var (a, b, c, d) := (r.tip.value, r.refresh.value, r.saunaTemp.value, r.waterTemp.value);
    var fields := [a, b, c, d];
    assert Join(fields[3..]) == d;
    assert Join(fields[2..]) == c + " " + d;
    assert Join(fields[1..]) == b + " " + (c + " " + d);
    assert a + " " + b + " " + c + " " + d == a + " " + (b + " " + (c + " " + d));
  }

  /** The four fields can be read back from `features` when none of them
      holds a space, and its length is theirs plus three separators. */
  lemma FeatureTextFields(r: Record)
    requires IsComplete(r)
    ensures |FeatureText(r)| == |r.tip.value| + |r.refresh.value| + |r.saunaTemp.value| + |r.waterTemp.value| + 3
    ensures NoSpace(r.tip.value) && NoSpace(r.refresh.value) && NoSpace(r.saunaTemp.value) && NoSpace(r.waterTemp.value)
      ==> Split(FeatureText(r)) == [r.tip.value, r.refresh.value, r.saunaTemp.value, r.waterTemp.value]
  {
    var fields := [r.tip.value, r.refresh.value, r.saunaTemp.value, r.waterTemp.value];
    FeatureTextIsJoin(r);
    if forall k :: 0 <= k < |fields| ==> NoSpace(fields[k]) {
      SplitJoin(fields);
    }
  }

  /** After start-up every corpus row has a `features` value. */
  lemma CorpusFeaturesPresent(csv: seq<Record>)
    ensures forall k :: 0 <= k < |Corpus(csv)| ==> FeatureCell(Corpus(csv)[k].record).Some?
  {
    CorpusSpec(csv);
  }
}
