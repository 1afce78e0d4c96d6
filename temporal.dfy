/**
 * The spatio-temporal aggregator: counts the cases at each (location,
 * effective date) cell of a dense grid over every observed location and every
 * observed date, and lists one `{timestamp, longitude, latitude, numberCases}`
 * record per cell, zero cells included.
 */
module TemporalAggregator {
  import opened Counting
  import opened Cases

  /** JavaScript truthiness of a date property: an absent value and the empty string are falsy. */
  predicate Truthy(v: DateValue) {
    v.Text? && v.s != ""
  }

  /** The date a case is filed under when the date key set is built. */
  function EffectiveDate(f: Feature): DateValue {
    if Truthy(f.caseReportedDate) then f.caseReportedDate else f.testReportedDate
  }

  /** The date whose cell the counting loop increments, as that loop tests it. */
  function CountingDate(f: Feature): DateValue {
    if !Truthy(f.caseReportedDate) then f.testReportedDate else f.caseReportedDate
  }

  /** Both loops apply the same fallback rule, so counting hits the cells the key sets describe. */
  lemma CountingDateIsEffectiveDate(f: Feature)
    ensures CountingDate(f) == EffectiveDate(f)
  {
  }

  /** The effective dates of the features, in feature order. */
  function EffectiveDates(features: seq<Feature>): (r: seq<DateValue>)
    ensures |r| == |features|
    ensures forall i :: 0 <= i < |features| ==> r[i] == EffectiveDate(features[i])
  {
    seq(|features|, i requires 0 <= i < |features| => EffectiveDate(features[i]))
  }

  /** The distinct effective dates, in order of first appearance (`new Set(...)`). */
  function DateKeys(features: seq<Feature>): (keys: seq<DateValue>)
    ensures NoDup(keys)
    ensures forall d :: d in keys <==> d in EffectiveDates(features)
    ensures |keys| <= |features|
  {
    Distinct(EffectiveDates(features))
  }

  /** A grid cell: a location and a date. */
  type Cell = (Coord, DateValue)

  /** The cell a case is counted in. */
  function CellKey(f: Feature): Cell {
    (CoordKey(f), EffectiveDate(f))
  }

  /** The cells of location `c`, one per date of `ds`, in that order. */
  function CellRow(c: Coord, ds: seq<DateValue>): (r: seq<Cell>)
    ensures |r| == |ds|
    ensures forall j :: 0 <= j < |ds| ==> r[j] == (c, ds[j])
  {
    seq(|ds|, j requires 0 <= j < |ds| => (c, ds[j]))
  }

  /**
   * The cells in the order the flattening visits them: for each location of
   * `cs`, its row over `ds`. Every pair of a listed location and a listed date
   * appears, and nothing else.
   */
  function Cells(cs: seq<Coord>, ds: seq<DateValue>): (r: seq<Cell>)
    ensures |r| == |cs| * |ds|
    ensures forall x :: x in r <==> x.0 in cs && x.1 in ds
  {
    if |cs| == 0 then []
    else
      var n := |cs| - 1;
      assert cs == cs[..n] + [cs[n]];
      assert (|cs| - 1) * |ds| + |ds| == |cs| * |ds|;
      var front, row := Cells(cs[..n], ds), CellRow(cs[n], ds);
      assert forall x :: x in row <==> x.0 == cs[n] && x.1 in ds by {
        forall x | x in row ensures x.0 == cs[n] && x.1 in ds {
          var j :| 0 <= j < |row| && row[j] == x;
        }
        forall x: Cell | x.0 == cs[n] && x.1 in ds ensures x in row {
          var j :| 0 <= j < |ds| && ds[j] == x.1;
          assert row[j] == x;
        }
      }
      front + row
  }

  /** Over duplicate-free locations and dates, every cell is listed once. */
  lemma {:induction false} CellsNoDup(cs: seq<Coord>, ds: seq<DateValue>)
    requires NoDup(cs) && NoDup(ds)
    ensures NoDup(Cells(cs, ds))
    decreases |cs|
  {
    if |cs| > 0 {
      var n := |cs| - 1;
      assert cs == cs[..n] + [cs[n]];
      CellsNoDup(cs[..n], ds);
      var front, row := Cells(cs[..n], ds), CellRow(cs[n], ds);
      assert Cells(cs, ds) == front + row;
      forall i, j | 0 <= i < j < |front + row| ensures (front + row)[i] != (front + row)[j] {
        if j < |front| {
        } else if i >= |front| {
        } else {
          assert front[i] in front;
          assert front[i].0 in cs[..n];
          assert (front + row)[j] == row[j - |front|];
        }
      }
    }
  }

  /** The count table is a dense grid: exactly the locations `cs`, each row exactly the dates `ds`. */
  ghost predicate IsGrid(table: map<Coord, map<DateValue, int>>, cs: seq<Coord>, ds: seq<DateValue>) {
    && (forall c :: c in table <==> c in cs)
    && (forall c :: c in table ==> forall d :: d in table[c] <==> d in ds)
  }

  /** The cell exists in the table. */
  ghost predicate InGrid(table: map<Coord, map<DateValue, int>>, cell: Cell) {
    cell.0 in table && cell.1 in table[cell.0]
  }

  /** Builds the dense table over `cs` x `ds`, every cell 0. */
  method InitTable(cs: seq<Coord>, ds: seq<DateValue>) returns (table: map<Coord, map<DateValue, int>>)
    ensures IsGrid(table, cs, ds)
    ensures forall c, d :: c in table && d in table[c] ==> table[c][d] == 0
  {
    table := map[];
    for i := 0 to |cs|
      invariant IsGrid(table, cs[..i], ds)
      invariant forall c, d :: c in table && d in table[c] ==> table[c][d] == 0
    {
      var c := cs[i];
      assert cs[..i + 1] == cs[..i] + [c];
      table := table[c := map[]];
      for j := 0 to |ds|
        invariant forall c' :: c' in table <==> c' in cs[..i + 1]
        invariant forall c' :: c' in table && c' != c ==> forall d :: d in table[c'] <==> d in ds
        invariant forall d :: d in table[c] <==> d in ds[..j]
        invariant forall c', d :: c' in table && d in table[c'] ==> table[c'][d] == 0
      {
        assert ds[..j + 1] == ds[..j] + [ds[j]];
        table := table[c := table[c][ds[j] := 0]];
      }
      assert ds[..|ds|] == ds;
    }
    assert cs[..|cs|] == cs;
  }

  /** Incrementing one cell changes no key and no other cell. */
  lemma IncrementCell(before: map<Coord, map<DateValue, int>>, after: map<Coord, map<DateValue, int>>,
                      c0: Coord, d0: DateValue)
    requires c0 in before && d0 in before[c0]
    requires after == before[c0 := before[c0][d0 := before[c0][d0] + 1]]
    ensures after.Keys == before.Keys
    ensures forall c :: c in after ==> after[c].Keys == before[c].Keys
    ensures forall c, d :: c in after && d in after[c] ==>
              after[c][d] == before[c][d] + if (c, d) == (c0, d0) then 1 else 0
  {
  }

  /**
   * Adds one to the cell of each case. Every case's cell must already exist:
   * the table gains no location and no date.
   */
  method CountCases(features: seq<Feature>, table: map<Coord, map<DateValue, int>>)
    returns (counted: map<Coord, map<DateValue, int>>)
    requires forall i :: 0 <= i < |features| ==>
               CoordKey(features[i]) in table && CountingDate(features[i]) in table[CoordKey(features[i])]
    ensures counted.Keys == table.Keys
    ensures forall c :: c in counted ==> counted[c].Keys == table[c].Keys
    ensures forall c, d :: c in counted && d in counted[c] ==>
              counted[c][d] == table[c][d] + Occurrences(features, CellKey, (c, d))
  {
    counted := table;
    for i := 0 to |features|
      invariant counted.Keys == table.Keys
      invariant forall c :: c in counted ==> counted[c].Keys == table[c].Keys
      invariant forall c, d :: c in counted && d in counted[c] ==>
                  counted[c][d] == table[c][d] + Occurrences(features[..i], CellKey, (c, d))
    {
      assert features[..i + 1][..i] == features[..i];
      var f := features[i];
      var coord := CoordKey(f);
      var date;
      if !Truthy(f.caseReportedDate) {
        date := f.testReportedDate;
      } else {
        date := f.caseReportedDate;
      }
      var before := counted;
      counted := counted[coord := counted[coord][date := counted[coord][date] + 1]];
      IncrementCell(before, counted, coord, date);
    }
    assert features[..|features|] == features;
  }

  /** One record of the heatmap data. */
  datatype CaseRecord = CaseRecord(timestamp: int, longitude: real, latitude: real, numberCases: int)

  /** The record for a cell: the date's timestamp, the location, and the cell's count. */
  function Entry(table: map<Coord, map<DateValue, int>>, cell: Cell, ts: DateValue -> int): CaseRecord
    requires InGrid(table, cell)
  {
    CaseRecord(ts(cell.1), cell.0.lon, cell.0.lat, table[cell.0][cell.1])
  }

  /** `data` holds, in order, the record of each cell of `cells`. */
  ghost predicate Lists(data: seq<CaseRecord>, table: map<Coord, map<DateValue, int>>, cells: seq<Cell>, ts: DateValue -> int) {
    && |data| == |cells|
    && forall k :: 0 <= k < |cells| ==> InGrid(table, cells[k]) && data[k] == Entry(table, cells[k], ts)
  }

  /** Appending the record of a grid cell extends the listing by that cell. */
  lemma ListsAppend(data: seq<CaseRecord>, table: map<Coord, map<DateValue, int>>, cells: seq<Cell>,
                    ts: DateValue -> int, cell: Cell)
    requires Lists(data, table, cells, ts) && InGrid(table, cell)
    ensures Lists(data + [Entry(table, cell, ts)], table, cells + [cell], ts)
  {
  }

  /** Pushing the record of the next date of row `c` extends the listing by that cell. */
  lemma ListsNextCell(data: seq<CaseRecord>, table: map<Coord, map<DateValue, int>>, prefix: seq<Cell>,
                      c: Coord, ds: seq<DateValue>, j: nat, ts: DateValue -> int)
    requires j < |ds|
    requires Lists(data, table, prefix + CellRow(c, ds[..j]), ts) && InGrid(table, (c, ds[j]))
    ensures Lists(data + [Entry(table, (c, ds[j]), ts)], table, prefix + CellRow(c, ds[..j + 1]), ts)
  {
    ListsAppend(data, table, prefix + CellRow(c, ds[..j]), ts, (c, ds[j]));
    assert CellRow(c, ds[..j + 1]) == CellRow(c, ds[..j]) + [(c, ds[j])];
    assert prefix + CellRow(c, ds[..j + 1]) == (prefix + CellRow(c, ds[..j])) + [(c, ds[j])];
  }

  /**
   * Lists one record per cell of the grid, visiting the locations in the
   * order `cs` and each row's dates in the order `ds`.
   */
  method Flatten(table: map<Coord, map<DateValue, int>>, cs: seq<Coord>, ds: seq<DateValue>, ts: DateValue -> int)
    returns (data: seq<CaseRecord>)
    requires NoDup(cs) && NoDup(ds)
    requires IsGrid(table, cs, ds)
    ensures Lists(data, table, Cells(cs, ds), ts)
    ensures |data| == |cs| * |ds|
  {
    data := [];
    for i := 0 to |cs|
      invariant Lists(data, table, Cells(cs[..i], ds), ts)
    {
      var c := cs[i];
      assert cs[..i + 1][..i] == cs[..i];
      for j := 0 to |ds|
        invariant Lists(data, table, Cells(cs[..i], ds) + CellRow(c, ds[..j]), ts)
      {
        var d := ds[j];
        assert InGrid(table, (c, d));
        ListsNextCell(data, table, Cells(cs[..i], ds), c, ds, j, ts);
        data := data + [Entry(table, (c, d), ts)];
      }
      assert ds[..|ds|] == ds;
    }
    assert cs[..|cs|] == cs;
  }

  /** The total number of cases carried by a list of records. */
  function TotalCases(data: seq<CaseRecord>): int {
    if |data| == 0 then 0 else TotalCases(data[..|data| - 1]) + data[|data| - 1].numberCases
  }

  /**
   * `data` holds, in order, one record per cell of `cells`: the timestamp of
   * the cell's date, its location, and the number of cases in that cell.
   */
  ghost predicate Tabulates(data: seq<CaseRecord>, cells: seq<Cell>, features: seq<Feature>, ts: DateValue -> int) {
    && |data| == |cells|
    && forall k :: 0 <= k < |data| ==>
         data[k] == CaseRecord(ts(cells[k].1), cells[k].0.lon, cells[k].0.lat, Occurrences(features, CellKey, cells[k]))
  }

  /** The total carried by records of per-cell counts is the sum of those counts. */
  lemma {:induction false} TotalOfCounts(data: seq<CaseRecord>, cells: seq<Cell>, features: seq<Feature>, ts: DateValue -> int)
    requires Tabulates(data, cells, features, ts)
    ensures TotalCases(data) == SumOccurrences(cells, features, CellKey)
    decreases |data|
  {
    if |data| > 0 {
      var n := |data| - 1;
      TotalOfCounts(data[..n], cells[..n], features, ts);
    }
  }

  /** Every case falls in a cell of the grid over its observed locations and dates. */
  lemma CasesFallInGrid(features: seq<Feature>)
    ensures forall i :: 0 <= i < |features| ==> CellKey(features[i]) in Cells(CoordinateSet(features), DateKeys(features))
  {
    var cs, ds := CoordinateSet(features), DateKeys(features);
    forall i | 0 <= i < |features| ensures CellKey(features[i]) in Cells(cs, ds) {
      assert CoordKeys(features)[i] == CoordKey(features[i]);
      assert EffectiveDates(features)[i] == EffectiveDate(features[i]);
    }
  }

  /**
   * A tabulation over the grid of observed locations and dates conserves the
   * number of cases, and is empty exactly when there are no cases.
   */
  lemma TabulationOfObservedCells(data: seq<CaseRecord>, features: seq<Feature>, ts: DateValue -> int)
    requires Tabulates(data, Cells(CoordinateSet(features), DateKeys(features)), features, ts)
    ensures |data| == 0 <==> |features| == 0
    ensures TotalCases(data) == |features|
  {
    var cs, ds := CoordinateSet(features), DateKeys(features);
    CellsNoDup(cs, ds);
    CasesFallInGrid(features);
    TotalOfCounts(data, Cells(cs, ds), features, ts);
    SumOverUniverse(Cells(cs, ds), features, CellKey);
  }

  /** Every increment of the counting loop hits a cell of the grid over the observed locations and dates. */
  lemma CountingHitsGrid(features: seq<Feature>, table: map<Coord, map<DateValue, int>>)
    requires IsGrid(table, CoordinateSet(features), DateKeys(features))
    ensures forall i :: 0 <= i < |features| ==>
              CoordKey(features[i]) in table && CountingDate(features[i]) in table[CoordKey(features[i])]
  {
    forall i | 0 <= i < |features|
      ensures CoordKey(features[i]) in table && CountingDate(features[i]) in table[CoordKey(features[i])]
    {
      CountingDateIsEffectiveDate(features[i]);
      assert CoordKeys(features)[i] == CoordKey(features[i]);
      assert EffectiveDates(features)[i] == EffectiveDate(features[i]);
    }
  }

  /** Counting into a zeroed grid leaves the grid's shape and puts each cell's case count in it. */
  lemma CountedGrid(features: seq<Feature>, cs: seq<Coord>, ds: seq<DateValue>,
                    table: map<Coord, map<DateValue, int>>, counted: map<Coord, map<DateValue, int>>)
    requires IsGrid(table, cs, ds)
    requires forall c, d :: c in table && d in table[c] ==> table[c][d] == 0
    requires counted.Keys == table.Keys
    requires forall c :: c in counted ==> counted[c].Keys == table[c].Keys
    requires forall c, d :: c in counted && d in counted[c] ==>
               counted[c][d] == table[c][d] + Occurrences(features, CellKey, (c, d))
    ensures IsGrid(counted, cs, ds)
    ensures forall c, d :: c in counted && d in counted[c] ==> counted[c][d] == Occurrences(features, CellKey, (c, d))
  {
    forall c, d | c in counted && d in counted[c] ensures counted[c][d] == Occurrences(features, CellKey, (c, d)) {
      assert d in table[c];
    }
  }

  /** Listing a table whose cells hold the case counts tabulates the cases. */
  lemma ListingOfCounts(data: seq<CaseRecord>, table: map<Coord, map<DateValue, int>>, cells: seq<Cell>,
                        features: seq<Feature>, ts: DateValue -> int)
    requires Lists(data, table, cells, ts)
    requires forall c, d :: c in table && d in table[c] ==> table[c][d] == Occurrences(features, CellKey, (c, d))
    ensures Tabulates(data, cells, features, ts)
  {
    forall k | 0 <= k < |data|
      ensures data[k] == CaseRecord(ts(cells[k].1), cells[k].0.lon, cells[k].0.lat, Occurrences(features, CellKey, cells[k]))
    {
      assert InGrid(table, cells[k]);
    }
  }

  /**
   * The whole spatio-temporal pipeline: one record per (location, date) cell
   * of the grid over every observed location and every observed date, zero
   * cells included, each with the count of cases in that cell; the counts add
   * up to the number of cases.
   */
  method Aggregate(features: seq<Feature>, ts: DateValue -> int) returns (data: seq<CaseRecord>)
    ensures Tabulates(data, Cells(CoordinateSet(features), DateKeys(features)), features, ts)
    ensures |data| == |CoordinateSet(features)| * |DateKeys(features)|
    ensures |data| == 0 <==> |features| == 0
    ensures TotalCases(data) == |features|
  {
    var cs := CoordinateSet(features);
    var ds := DateKeys(features);
    var table := InitTable(cs, ds);
    CountingHitsGrid(features, table);
    var counted := CountCases(features, table);
    CountedGrid(features, cs, ds, table, counted);
    data := Flatten(counted, cs, ds, ts);
    ListingOfCounts(data, counted, Cells(cs, ds), features, ts);
    TabulationOfObservedCells(data, features, ts);
  }

  /** Cell counts do not depend on the order of the cases. */
  lemma CellCountsIgnoreFeatureOrder(features: seq<Feature>, shuffled: seq<Feature>)
    requires multiset(features) == multiset(shuffled)
    ensures forall cell :: Occurrences(features, CellKey, cell) == Occurrences(shuffled, CellKey, cell)
  {
    forall cell ensures Occurrences(features, CellKey, cell) == Occurrences(shuffled, CellKey, cell) {
      OccurrencesPermutation(features, shuffled, CellKey, cell);
    }
  }
}
