/**
 * The browser front end: the pure helpers of CarbonIntensityApp (colours,
 * index labels, the half-hour floor, request timestamps, the generation-mix
 * list, the time-series preparation) and the class itself with the state it
 * keeps between events. Fetches are parameters: each load method receives the
 * parsed response body, or None when fetch or JSON parsing threw.
 */
module BrowserApp {
  import opened Wrappers
  import opened Intensity
  import opened Calendar
  import opened Timestamps
  import opened Sorting
  import opened Regions

  // ---------------------------------------------------------------- tiers

  /** The CSS colour of each tier. */
  function TierColor(t: Tier): string
  {
    match t
    case VeryLow => "#00ff00"
    case Low => "#90ee90"
    case Moderate => "#ffa500"
    case High => "#ff6b6b"
    case VeryHigh => "#dc143c"
  }

  /** The index text of each tier. */
  function TierIndex(t: Tier): string
  {
    match t
    case VeryLow => "very low"
    case Low => "low"
    case Moderate => "moderate"
    case High => "high"
    case VeryHigh => "very high"
  }

  /** The tier a CSS colour stands for, if any. */
  function ColorTier(c: string): Option<Tier>
  {
    if c == "#00ff00" then Some(VeryLow)
    else if c == "#90ee90" then Some(Low)
    else if c == "#ffa500" then Some(Moderate)
    else if c == "#ff6b6b" then Some(High)
    else if c == "#dc143c" then Some(VeryHigh)
    else None
  }

  /** The tier an index text stands for, if any. */
  function IndexTier(s: string): Option<Tier>
  {
    if s == "very low" then Some(VeryLow)
    else if s == "low" then Some(Low)
    else if s == "moderate" then Some(Moderate)
    else if s == "high" then Some(High)
    else if s == "very high" then Some(VeryHigh)
    else None
  }

  /** getIntensityColor: the colour of the tier that holds the intensity. */
  function IntensityColor(intensity: int): (color: string)
    ensures color == TierColor(Classify(intensity))
  {
    if intensity <= 50 then "#00ff00"
    else if intensity <= 100 then "#90ee90"
    else if intensity <= 200 then "#ffa500"
    else if intensity <= 300 then "#ff6b6b"
    else "#dc143c"
  }

  /** getIntensityIndex: the index text of the tier that holds the intensity. */
  function IntensityIndex(intensity: int): (index: string)
    ensures index == TierIndex(Classify(intensity))
  {
    if intensity <= 50 then "very low"
    else if intensity <= 100 then "low"
    else if intensity <= 200 then "moderate"
    else if intensity <= 300 then "high"
    else "very high"
  }

  /** The colour and the index text of one intensity always name the same tier. */
  lemma ColorAndIndexAgree(intensity: int)
    ensures ColorTier(IntensityColor(intensity)) == Some(Classify(intensity))
    ensures IndexTier(IntensityIndex(intensity)) == Some(Classify(intensity))
  {
  }

  // ---------------------------------------------------------------- time

  /**
   * roundToNearestHalfHour: on a copy of the date, set the minutes to 0 or 30,
   * then the seconds and the milliseconds to 0. A floor, like the Python one.
   */
  function RoundToNearestHalfHour(date: DateTime): (r: DateTime)
    requires Valid(date)
    ensures Valid(r) && OnHalfHourGrid(r)
    ensures r.year == date.year && r.month == date.month && r.day == date.day && r.hour == date.hour
    ensures 0 <= date.minute - r.minute < 30
    ensures Seconds(r) <= Seconds(date) < Seconds(r) + 30 * 60
  {
    var roundedMinutes := if date.minute < 30 then 0 else 30;
    var roundedDate := date.(minute := roundedMinutes);
    var roundedDate' := roundedDate.(second := 0);
    roundedDate'.(subsecond := 0)
  }

  /** Rounding a rounded date changes nothing. */
  lemma RoundIdempotent(date: DateTime)
    requires Valid(date)
    ensures RoundToNearestHalfHour(RoundToNearestHalfHour(date)) == RoundToNearestHalfHour(date)
  {
  }

  /**
   * toISOString().slice(0, -5) + 'Z': the 24-character ISO string without its
   * milliseconds, so second precision with a UTC marker.
   */
  function TimestampParam(date: DateTime): (s: string)
    requires Valid(date) && date.subsecond < 1000
    ensures |s| == 20 && s == MinuteStamp(date) + ":" + Pad(date.second, 2) + "Z"
    ensures ParseMinuteStamp(s[..16]) == Some(FieldsOf(date))
  {
    var iso := IsoString(date);
    assert iso[..|iso| - 5] == MinuteStamp(date) + ":" + Pad(date.second, 2);
    MinuteStampRoundTrip(date);
    assert (MinuteStamp(date) + ":" + Pad(date.second, 2) + "Z")[..16] == MinuteStamp(date);
    iso[..|iso| - 5] + "Z"
  }

  /**
   * The `from` and `to` path segments of loadHistoricalData: the rounded date
   * and the date 30 minutes after it. Both name whole half hours, so their
   * seconds read "00". None where the end would pass year 9999.
   */
  function HistoricalParams(dateTime: DateTime): (r: Option<(string, string)>)
    requires Valid(dateTime) && dateTime.subsecond < 1000
    ensures r.None? <==> dateTime.year == MaxYear && dateTime.month == 12 && dateTime.day == 31
                         && dateTime.hour == 23 && dateTime.minute >= 30
    ensures r.Some? ==> r.value.0 == MinuteStamp(RoundToNearestHalfHour(dateTime)) + ":00Z"
    ensures r.Some? ==> exists to | Valid(to) && OnHalfHourGrid(to) ::
                          && Seconds(to) == Seconds(RoundToNearestHalfHour(dateTime)) + 30 * 60
                          && r.value.1 == MinuteStamp(to) + ":00Z"
  {
    var roundedDate := RoundToNearestHalfHour(dateTime);
    GridTimestamp(roundedDate);
    match AddHalfHour(roundedDate)
    case None => None
    case Some(to) =>
      GridTimestamp(to);
      assert Valid(to) && OnHalfHourGrid(to) && Seconds(to) == Seconds(roundedDate) + 30 * 60
             && TimestampParam(to) == MinuteStamp(to) + ":00Z";
      Some((TimestampParam(roundedDate), TimestampParam(to)))
  }

  /** A time on the half-hour grid prints ":00" for its seconds. */
  lemma GridTimestamp(date: DateTime)
    requires Valid(date) && OnHalfHourGrid(date)
    ensures TimestampParam(date) == MinuteStamp(date) + ":00Z"
  {
    assert Pad(0, 2) == "00";
  }

  /** The `from` and `to` path segments of loadTimeSeries: 24 hours ago and now. */
  function TimeSeriesParams(now: DateTime): (r: Option<(string, string)>)
    requires Valid(now) && now.subsecond < 1000
    ensures r.None? <==> now.year == MinYear && now.month == 1 && now.day == 1
    ensures r.Some? ==> r.value.1 == TimestampParam(now)
    ensures r.Some? ==> exists start | Valid(start) && start.subsecond < 1000 ::
                          && Seconds(start) == Seconds(now) - 24 * 60 * 60
                          && r.value.0 == TimestampParam(start)
  {
    match SubtractDay(now)
    case None => None
    case Some(start) => Some((TimestampParam(start), TimestampParam(now)))
  }

  // ---------------------------------------------------------------- details

  /** The entries with a share above zero, in input order. */
  function PositiveShares(mix: seq<FuelShare>): (r: seq<FuelShare>)
    ensures forall f :: f in r <==> f in mix && f.perc > 0.0
  {
    if mix == [] then []
    else PositiveShares(mix[..|mix| - 1])
         + (if mix[|mix| - 1].perc > 0.0 then [mix[|mix| - 1]] else [])
  }

  /** Filtering distributes over concatenation: every positive entry is kept, once per occurrence, in order. */
  lemma {:induction false} PositiveSharesAppend(a: seq<FuelShare>, b: seq<FuelShare>)
    ensures PositiveShares(a + b) == PositiveShares(a) + PositiveShares(b)
  {
    if b != [] {
      assert (a + b)[..|a + b| - 1] == a + b[..|b| - 1];
      PositiveSharesAppend(a, b[..|b| - 1]);
    } else {
      assert a + b == a;
    }
  }

  /** An entry is kept as many times as it occurs when its share is positive, and not at all otherwise. */
  lemma {:induction false} PositiveSharesCount(mix: seq<FuelShare>, f: FuelShare)
    ensures multiset(PositiveShares(mix))[f] == if f.perc > 0.0 then multiset(mix)[f] else 0
  {
    if mix != [] {
      var init := mix[..|mix| - 1];
      assert mix == init + [mix[|mix| - 1]];
      PositiveSharesCount(init, f);
    }
  }

  /**
   * The generation-mix items of updateRegionDetails: the entries with a share
   * above zero, largest share first.
   */
  function FuelItems(mix: seq<FuelShare>): (r: seq<FuelShare>)
    ensures multiset(r) == multiset(PositiveShares(mix))
    ensures forall f :: f in r <==> f in mix && f.perc > 0.0
    ensures forall i, j | 0 <= i < j < |r| :: r[i].perc >= r[j].perc
  {
    var r := SortBy(PositiveShares(mix), (f: FuelShare) => -f.perc);
    assert forall f :: f in r <==> f in multiset(PositiveShares(mix));
    r
  }

  /** One time-series point as the API sends it: its start instant and its forecast, if any. */
  datatype SeriesPoint = SeriesPoint(from: int, forecast: Option<int>)

  /** One point of the chart: an instant and an intensity. */
  datatype ChartPoint = ChartPoint(time: int, intensity: int)

  /** `{ time: new Date(d.from), intensity: d.intensity.forecast || 0 }` */
  function ChartPointOf(p: SeriesPoint): ChartPoint
  {
    ChartPoint(p.from, if p.forecast.Some? then p.forecast.value else 0)
  }

  function ChartPoints(points: seq<SeriesPoint>): (r: seq<ChartPoint>)
    ensures |r| == |points|
    ensures forall i | 0 <= i < |points| :: r[i] == ChartPointOf(points[i])
  {
    if points == [] then [] else [ChartPointOf(points[0])] + ChartPoints(points[1..])
  }

  /**
   * The data preparation of renderTimeSeries: every point converted, a missing
   * forecast read as 0, then ordered by time, earliest first.
   */
  function PrepareSeries(points: seq<SeriesPoint>): (r: seq<ChartPoint>)
    ensures |r| == |points|
    ensures multiset(r) == multiset(ChartPoints(points))
    ensures forall i, j | 0 <= i < j < |r| :: r[i].time <= r[j].time
  {
    var r := SortBy(ChartPoints(points), (p: ChartPoint) => p.time as real);
    assert |r| == |multiset(r)| == |ChartPoints(points)|;
    r
  }

  /** A point whose forecast is missing is drawn at intensity 0; every other keeps its forecast. */
  lemma PreparedIntensities(points: seq<SeriesPoint>, k: nat)
    requires k < |points|
    ensures exists i | 0 <= i < |points| :: && PrepareSeries(points)[i].time == points[k].from
                                            && PrepareSeries(points)[i].intensity
                                               == (if points[k].forecast.Some? then points[k].forecast.value else 0)
  {
    var cs := ChartPoints(points);
    assert cs[k] in multiset(PrepareSeries(points));
    var i :| 0 <= i < |PrepareSeries(points)| && PrepareSeries(points)[i] == cs[k];
  }

  // ---------------------------------------------------------------- the app

  /** The state CarbonIntensityApp keeps between events. */
  class CarbonIntensityApp {
    var currentData: Option<Snapshot>
    var selectedRegion: Option<Region>
    var regionMarkers: seq<Marker>

    /** Every marker stands for a mapped region, at its catalogue position, in its tier colour. */
    ghost predicate Valid()
      reads this
    {
      forall i | 0 <= i < |regionMarkers| ::
        IsMapped(regionMarkers[i].region) && regionMarkers[i] == MarkerFor(regionMarkers[i].region, IntensityColor)
    }

    constructor ()
      ensures Valid()
      ensures currentData.None? && selectedRegion.None? && regionMarkers == []
    {
      currentData := None;
      selectedRegion := None;
      regionMarkers := [];
    }

    /**
     * updateMap: with no data or no region list, nothing changes; otherwise
     * the old markers are dropped and one marker is pushed per region with id
     * at most 14, in input order.
     */
    method UpdateMap()
      requires Valid()
      modifies this
      ensures Valid()
      ensures currentData == old(currentData) && selectedRegion == old(selectedRegion)
      ensures currentData.None? || currentData.value.regions.None? ==> regionMarkers == old(regionMarkers)
      ensures currentData.Some? && currentData.value.regions.Some? ==>
                regionMarkers == MarkersFor(currentData.value.regions.value, IntensityColor)
    {
      if currentData.None? || currentData.value.regions.None? {
        return;
      }
      regionMarkers := [];
      var regions := currentData.value.regions.value;
      var i := 0;
      while i < |regions|
        invariant 0 <= i <= |regions|
        invariant currentData == old(currentData) && selectedRegion == old(selectedRegion)
        invariant regionMarkers == MarkersFor(regions[..i], IntensityColor)
        invariant Valid()
      {
        assert regions[..i + 1][..i] == regions[..i];
        var region := regions[i];
        if region.regionid <= LastMappedRegion {
          var coords := CentroidOrDefault(region.regionid);
          var color := IntensityColor(region.forecast);
          regionMarkers := regionMarkers + [Marker(region, coords, color)];
        }
        i := i + 1;
      }
      assert regions[..i] == regions;
    }

    /**
     * loadCurrentData: `currentData = data.data[0]`, then updateMap. A failed
     * fetch, or a body without `data`, throws before the assignment and
     * changes nothing; an empty `data` list leaves currentData undefined.
     */
    method LoadCurrentData(response: Option<Response>)
      requires Valid()
      modifies this
      ensures Valid() && selectedRegion == old(selectedRegion)
      ensures response.None? || response.value.data.None? ==>
                currentData == old(currentData) && regionMarkers == old(regionMarkers)
      ensures response.Some? && response.value.data.Some? ==>
                && currentData == (if |response.value.data.value| == 0 then None
                                   else Some(response.value.data.value[0]))
                && regionMarkers == (if currentData.Some? && currentData.value.regions.Some?
                                     then MarkersFor(currentData.value.regions.value, IntensityColor)
                                     else old(regionMarkers))
    {
      if response.None? || response.value.data.None? {
        return;
      }
      var data := response.value.data.value;
      currentData := if |data| == 0 then None else Some(data[0]);
      UpdateMap();
    }

    /**
     * loadHistoricalData: requests the half hour that starts at the rounded
     * date (the returned path segments) and, only when the body holds a
     * non-empty `data` list, takes its first snapshot and redraws the map.
     * `dateTime` is None for an Invalid Date (a cleared input): toISOString
     * then throws, the handler catches it, and nothing is requested or changed.
     */
    method LoadHistoricalData(dateTime: Option<DateTime>, response: Option<Response>)
      returns (request: Option<(string, string)>)
      requires Valid()
      requires dateTime.Some? ==> Calendar.Valid(dateTime.value) && dateTime.value.subsecond < 1000
      modifies this
      ensures request == if dateTime.None? then None else HistoricalParams(dateTime.value)
      ensures Valid() && selectedRegion == old(selectedRegion)
      ensures request.Some? && response.Some? && response.value.data.Some?
              && |response.value.data.value| > 0 ==>
                && currentData == Some(response.value.data.value[0])
                && regionMarkers == (if currentData.value.regions.Some?
                                     then MarkersFor(currentData.value.regions.value, IntensityColor)
                                     else old(regionMarkers))
      ensures !(request.Some? && response.Some? && response.value.data.Some?
                && |response.value.data.value| > 0) ==>
                currentData == old(currentData) && regionMarkers == old(regionMarkers)
    {
      if dateTime.None? {
        return None;
      }
      request := HistoricalParams(dateTime.value);
      if request.None? {
        return;
      }
      if response.Some? && response.value.data.Some? && |response.value.data.value| > 0 {
        currentData := Some(response.value.data.value[0]);
        UpdateMap();
      }
    }

    /** The click handler of the k-th marker: that marker's region becomes the selected one. */
    method ClickMarker(k: nat)
      requires Valid() && k < |regionMarkers|
      modifies this
      ensures Valid()
      ensures selectedRegion == Some(old(regionMarkers)[k].region)
      ensures IsMapped(selectedRegion.value)
      ensures currentData == old(currentData) && regionMarkers == old(regionMarkers)
    {
      selectedRegion := Some(regionMarkers[k].region);
    }

    /** The generation-mix items updateRegionDetails lists; None while no region is selected. */
    method RegionDetailsItems() returns (items: Option<seq<FuelShare>>)
      ensures selectedRegion.None? ==> items.None?
      ensures selectedRegion.Some? ==> items == Some(FuelItems(selectedRegion.value.generationmix))
    {
      if selectedRegion.None? {
        return None;
      }
      items := Some(FuelItems(selectedRegion.value.generationmix));
    }
  }
}
