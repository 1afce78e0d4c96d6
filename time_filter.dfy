/**
 * The time range of the spatio-temporal heatmap data, the active time
 * filter, and the soft range inside it that the data filter fades over.
 */
module TimeFilter {
  import opened Wrappers
  import opened Counting
  import opened Cases
  import opened TemporalAggregator

  /** A JavaScript number used as a range bound: finite, or one of the two infinities. */
  datatype Bound = NegInf | Fin(v: real) | PosInf

  /** The order of bounds. */
  predicate Le(a: Bound, b: Bound) {
    a.NegInf? || b.PosInf? || (a.Fin? && b.Fin? && a.v <= b.v)
  }

  /** `Math.min` on bounds. */
  function Min(a: Bound, b: Bound): (m: Bound)
    ensures m == a || m == b
    ensures Le(m, a) && Le(m, b)
  {
    if Le(a, b) then a else b
  }

  /** `Math.max` on bounds. */
  function Max(a: Bound, b: Bound): (m: Bound)
    ensures m == a || m == b
    ensures Le(a, m) && Le(b, m)
  {
    if Le(a, b) then b else a
  }

  /** A `[min, max]` pair. */
  datatype Span = Span(lo: Bound, hi: Bound)

  /** The reduction's starting value `[Infinity, -Infinity]`, also its result on no data. */
  const NoData := Span(PosInf, NegInf)

  /** A record's timestamp as a number. */
  function Time(r: CaseRecord): real {
    r.timestamp as real
  }

  /**
   * `r` is the time range of `data`: the sentinel when there is no data;
   * otherwise finite bounds, ordered, enclosing every timestamp, and each
   * bound the timestamp of some record.
   */
  ghost predicate IsTimeRange(data: seq<CaseRecord>, r: Span) {
    if |data| == 0 then r == NoData
    else
      && r.lo.Fin? && r.hi.Fin? && r.lo.v <= r.hi.v
      && (forall i :: 0 <= i < |data| ==> r.lo.v <= Time(data[i]) <= r.hi.v)
      && (exists i :: 0 <= i < |data| && Time(data[i]) == r.lo.v)
      && (exists i :: 0 <= i < |data| && Time(data[i]) == r.hi.v)
  }

  /** `getTimeRange`: one pass folding `Math.min` and `Math.max` over the timestamps. */
  method GetTimeRange(data: seq<CaseRecord>) returns (range: Span)
    ensures IsTimeRange(data, range)
  {
    range := NoData;
    for i := 0 to |data|
      invariant IsTimeRange(data[..i], range)
    {
      assert data[..i + 1][..i] == data[..i];
      var t := Fin(Time(data[i]));
      range := Span(Min(range.lo, t), Max(range.hi, t));
      assert Time(data[..i + 1][i]) == t.v;
    }
    assert data[..|data|] == data;
  }

  /** The time range of a list of records is determined by the list. */
  lemma TimeRangeUnique(data: seq<CaseRecord>, r1: Span, r2: Span)
    requires IsTimeRange(data, r1) && IsTimeRange(data, r2)
    ensures r1 == r2
  {
    if |data| > 0 {
      var i1 :| 0 <= i1 < |data| && Time(data[i1]) == r1.lo.v;
      var i2 :| 0 <= i2 < |data| && Time(data[i2]) == r2.lo.v;
      var j1 :| 0 <= j1 < |data| && Time(data[j1]) == r1.hi.v;
      var j2 :| 0 <= j2 < |data| && Time(data[j2]) == r2.hi.v;
      assert r1.lo.v <= Time(data[i2]) && r2.lo.v <= Time(data[i1]);
      assert r1.hi.v >= Time(data[j2]) && r2.hi.v >= Time(data[j1]);
    }
  }

  /** `filter || timeRange`: the user's filter when one is set (an array is truthy), else the whole range. */
  function ActiveFilter(filter: Option<Span>, timeRange: Span): Span {
    if filter.Some? then filter.value else timeRange
  }

  /** The inner interval of a filter. */
  datatype SoftBounds = SoftBounds(lo: real, hi: real)

  /**
   * `filterSoftRange`: the points one tenth of the way in from each end of
   * the filter, in exact arithmetic. With an infinite bound there is no
   * soft range: on the empty-data sentinel `[Infinity, -Infinity]` the
   * source computes `NaN`, and on a single infinite bound an infinity.
   */
  function SoftRange(f: Span): (soft: Option<SoftBounds>)
    ensures soft.Some? <==> f.lo.Fin? && f.hi.Fin?
    ensures soft.Some? ==>
              soft.value.lo - f.lo.v == f.hi.v - soft.value.hi == (f.hi.v - f.lo.v) / 10.0
    ensures soft.Some? && f.lo.v <= f.hi.v ==>
              f.lo.v <= soft.value.lo <= soft.value.hi <= f.hi.v
  {
    if f.lo.Fin? && f.hi.Fin? then
      Some(SoftBounds(f.lo.v * 0.9 + f.hi.v * 0.1, f.lo.v * 0.1 + f.hi.v * 0.9))
    else
      None
  }

  /**
   * The filter that applies: a user filter wins; without one, the filter is
   * the time range, which encloses every record and, when there are records,
   * has a soft range inside it; on no data there is no soft range.
   */
  lemma ActiveFilterChoice(data: seq<CaseRecord>, timeRange: Span, filter: Option<Span>)
    requires IsTimeRange(data, timeRange)
    ensures filter.Some? ==> ActiveFilter(filter, timeRange) == filter.value
    ensures filter.None? && |data| > 0 ==>
              var f := ActiveFilter(filter, timeRange);
              && (forall i :: 0 <= i < |data| ==> Le(f.lo, Fin(Time(data[i]))) && Le(Fin(Time(data[i])), f.hi))
              && SoftRange(f).Some?
              && f.lo.v <= SoftRange(f).value.lo <= SoftRange(f).value.hi <= f.hi.v
    ensures filter.None? && |data| == 0 ==> SoftRange(ActiveFilter(filter, timeRange)) == None
  {
  }

  /** Every observed date is the date of some aggregated record. */
  lemma ObservedDateListed(data: seq<CaseRecord>, features: seq<Feature>, ts: DateValue -> int, d: DateValue)
    requires Tabulates(data, Cells(CoordinateSet(features), DateKeys(features)), features, ts)
    requires |features| > 0 && d in DateKeys(features)
    ensures exists k :: 0 <= k < |data| && Time(data[k]) == ts(d) as real
  {
    var cells := Cells(CoordinateSet(features), DateKeys(features));
    assert CoordKey(features[0]) in CoordKeys(features);
    var c := CoordinateSet(features)[0];
    assert (c, d) in cells;
    var k :| 0 <= k < |cells| && cells[k] == (c, d);
    assert Time(data[k]) == ts(d) as real;
  }

  /** Every aggregated record carries the timestamp of an observed date. */
  lemma ListedDateObserved(data: seq<CaseRecord>, features: seq<Feature>, ts: DateValue -> int, k: nat)
    requires Tabulates(data, Cells(CoordinateSet(features), DateKeys(features)), features, ts)
    requires k < |data|
    ensures exists d :: d in DateKeys(features) && ts(d) as real == Time(data[k])
  {
    var cells := Cells(CoordinateSet(features), DateKeys(features));
    assert cells[k] in cells;
    assert Time(data[k]) == ts(cells[k].1) as real;
  }

  /**
   * On the aggregated data, the time range runs from the earliest to the
   * latest timestamp of an observed date: every observed date's timestamp
   * lies in it, and each bound is the timestamp of an observed date.
   */
  lemma TimeRangeOfAggregate(data: seq<CaseRecord>, features: seq<Feature>, ts: DateValue -> int, range: Span)
    requires Tabulates(data, Cells(CoordinateSet(features), DateKeys(features)), features, ts)
    requires IsTimeRange(data, range)
    requires |features| > 0
    ensures range.lo.Fin? && range.hi.Fin?
    ensures forall d :: d in DateKeys(features) ==> range.lo.v <= ts(d) as real <= range.hi.v
    ensures exists d :: d in DateKeys(features) && ts(d) as real == range.lo.v
    ensures exists d :: d in DateKeys(features) && ts(d) as real == range.hi.v
  {
    ObservedDateListed(data, features, ts, DateKeys(features)[0]);
    forall d | d in DateKeys(features) ensures range.lo.v <= ts(d) as real <= range.hi.v {
      ObservedDateListed(data, features, ts, d);
    }
    var i :| 0 <= i < |data| && Time(data[i]) == range.lo.v;
    ListedDateObserved(data, features, ts, i);
    var j :| 0 <= j < |data| && Time(data[j]) == range.hi.v;
    ListedDateObserved(data, features, ts, j);
  }
}
