/**
 * The spatial aggregator: counts the cases at each distinct location and
 * lists `[longitude, latitude, count]` entries for the heatmap layer.
 */
module SpatialAggregator {
  import opened Counting
  import opened Cases

  /** One heatmap input entry `[lon, lat, count]`. */
  datatype Triple = Triple(lon: real, lat: real, count: int)

  /** The location an entry stands for. */
  function Position(t: Triple): Coord {
    Coord(t.lon, t.lat)
  }

  /** The total weight carried by a list of entries. */
  function TotalCount(data: seq<Triple>): int {
    if |data| == 0 then 0 else TotalCount(data[..|data| - 1]) + data[|data| - 1].count
  }

  /** Gives every location a count of 0. */
  method InitCounts(coords: seq<Coord>) returns (table: map<Coord, int>)
    ensures forall c :: c in table <==> c in coords
    ensures forall c :: c in table ==> table[c] == 0
  {
    table := map[];
    for i := 0 to |coords|
      invariant forall c :: c in table <==> c in coords[..i]
      invariant forall c :: c in table ==> table[c] == 0
    {
      assert coords[..i + 1] == coords[..i] + [coords[i]];
      table := table[coords[i] := 0];
    }
    assert coords[..|coords|] == coords;
  }

  /**
   * Adds one to the count of each feature's location. Every location must
   * already be a key: the table never gains keys.
   */
  method CountCases(features: seq<Feature>, table: map<Coord, int>) returns (counted: map<Coord, int>)
    requires forall i :: 0 <= i < |features| ==> CoordKey(features[i]) in table
    ensures counted.Keys == table.Keys
    ensures forall c :: c in counted ==> counted[c] == table[c] + Occurrences(features, CoordKey, c)
  {
    counted := table;
    for i := 0 to |features|
      invariant counted.Keys == table.Keys
      invariant forall c :: c in counted ==> counted[c] == table[c] + Occurrences(features[..i], CoordKey, c)
    {
      assert features[..i + 1][..i] == features[..i];
      var key := CoordKey(features[i]);
      counted := counted[key := counted[key] + 1];
    }
    assert features[..|features|] == features;
  }

  /**
   * Lists one entry per key of the table, in the enumeration order `order`
   * (any duplicate-free listing of the keys).
   */
  method Flatten(table: map<Coord, int>, order: seq<Coord>) returns (data: seq<Triple>)
    requires NoDup(order)
    requires forall c :: c in table <==> c in order
    ensures |data| == |order| == |table|
    ensures forall i :: 0 <= i < |data| ==> Position(data[i]) == order[i] && data[i].count == table[order[i]]
  {
    data := [];
    for i := 0 to |order|
      invariant |data| == i
      invariant forall k :: 0 <= k < i ==> Position(data[k]) == order[k] && data[k].count == table[order[k]]
    {
      var key := order[i];
      data := data + [Triple(key.lon, key.lat, table[key])];
    }
    assert table.Keys == set c | c in order;
    NoDupCardinality(order);
  }

  /** `data` holds, in order, one entry per location of `keys` with that location's number of features. */
  ghost predicate Tabulates(data: seq<Triple>, keys: seq<Coord>, features: seq<Feature>) {
    && |data| == |keys|
    && forall i :: 0 <= i < |data| ==>
         Position(data[i]) == keys[i] && data[i].count == Occurrences(features, CoordKey, keys[i])
  }

  /** The total weight of entries that carry per-location case counts is the sum of those counts. */
  lemma {:induction false} TotalOfCounts(data: seq<Triple>, keys: seq<Coord>, features: seq<Feature>)
    requires Tabulates(data, keys, features)
    ensures TotalCount(data) == SumOccurrences(keys, features, CoordKey)
    decreases |data|
  {
    if |data| > 0 {
      var n := |data| - 1;
      TotalOfCounts(data[..n], keys[..n], features);
    }
  }

  /** Every location of the key set is the location of at least one feature. */
  lemma ObservedLocationsHaveCases(features: seq<Feature>)
    ensures forall c :: c in CoordinateSet(features) ==> Occurrences(features, CoordKey, c) >= 1
  {
    forall c | c in CoordinateSet(features) ensures Occurrences(features, CoordKey, c) >= 1 {
      OccurrencesPositive(features, CoordKey, c);
      assert exists j :: 0 <= j < |features| && CoordKey(features[j]) == c;
    }
  }

  /**
   * A tabulation over the distinct locations of the features conserves the
   * number of features, and gives every entry a weight of at least one.
   */
  lemma TabulationOfObservedLocations(data: seq<Triple>, features: seq<Feature>)
    requires Tabulates(data, CoordinateSet(features), features)
    ensures forall i :: 0 <= i < |data| ==> data[i].count >= 1
    ensures |data| == 0 <==> |features| == 0
    ensures TotalCount(data) == |features|
  {
    var keys := CoordinateSet(features);
    ObservedLocationsHaveCases(features);
    TotalOfCounts(data, keys, features);
    SumOverUniverse(keys, features, CoordKey);
  }

  /**
   * The whole spatial pipeline: one entry per distinct location, each
   * carrying the number of features at that location (at least one), and
   * the weights adding up to the number of features.
   */
  method Aggregate(features: seq<Feature>) returns (data: seq<Triple>)
    ensures Tabulates(data, CoordinateSet(features), features)
    ensures forall i :: 0 <= i < |data| ==> data[i].count >= 1
    ensures |data| == 0 <==> |features| == 0
    ensures TotalCount(data) == |features|
  {
    var coords := CoordinateSet(features);
    var table := InitCounts(coords);
    forall i | 0 <= i < |features| ensures CoordKey(features[i]) in coords {
    }
    table := CountCases(features, table);
    data := Flatten(table, coords);
    TabulationOfObservedLocations(data, features);
  }

  /** Per-location counts, and hence the entries' weights, do not depend on the order of the features. */
  lemma CountsIgnoreFeatureOrder(features: seq<Feature>, shuffled: seq<Feature>)
    requires multiset(features) == multiset(shuffled)
    ensures forall c :: Occurrences(features, CoordKey, c) == Occurrences(shuffled, CoordKey, c)
    ensures forall c :: c in CoordinateSet(features) <==> c in CoordinateSet(shuffled)
  {
    forall c ensures Occurrences(features, CoordKey, c) == Occurrences(shuffled, CoordKey, c) {
      OccurrencesPermutation(features, shuffled, CoordKey, c);
    }
    forall c ensures c in CoordinateSet(features) <==> c in CoordinateSet(shuffled) {
      OccurrencesPermutation(features, shuffled, CoordKey, c);
      OccurrencesPositive(features, CoordKey, c);
      OccurrencesPositive(shuffled, CoordKey, c);
      assert (exists i :: 0 <= i < |features| && CoordKey(features[i]) == c) <==>
             (exists i :: 0 <= i < |shuffled| && CoordKey(shuffled[i]) == c);
    }
  }
}
