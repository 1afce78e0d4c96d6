/**
 * The case records the heatmaps are built from: one GeoJSON feature per
 * reported case, with its point coordinates and two optional date properties.
 */
module Cases {
  import opened Counting

  /**
   * A coordinate pair, the identity of a location. Two features share a
   * location exactly when their coordinates are equal, with no rounding.
   */
  datatype Coord = Coord(lon: real, lat: real)

  /** A date property as it arrives: absent (`null`/`undefined`) or a string. */
  datatype DateValue = Missing | Text(s: string)

  /** One case: `geometry.coordinates`, `properties.Case_Reported_Date`, `properties.Test_Reported_Date`. */
  datatype Feature = Feature(coordinates: Coord, caseReportedDate: DateValue, testReportedDate: DateValue)

  /** The location key of a case (`coordinates.toString()`). */
  function CoordKey(f: Feature): Coord {
    f.coordinates
  }

  /** The location keys of the features, in feature order (`features.map(...)`). */
  function CoordKeys(features: seq<Feature>): (r: seq<Coord>)
    ensures |r| == |features|
    ensures forall i :: 0 <= i < |features| ==> r[i] == CoordKey(features[i])
  {
    seq(|features|, i requires 0 <= i < |features| => CoordKey(features[i]))
  }

  /** The distinct locations of the features, in order of first appearance (`new Set(...)`). */
  function CoordinateSet(features: seq<Feature>): (keys: seq<Coord>)
    ensures NoDup(keys)
    ensures forall c :: c in keys <==> c in CoordKeys(features)
    ensures |keys| <= |features|
  {
    Distinct(CoordKeys(features))
  }
}
