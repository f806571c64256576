/**
 * The decision rules of the Streamlit front end: intensity colours and labels,
 * the half-hour floor, the request windows and their timestamp text, the
 * choice of snapshot, the map's markers, the click resolver and the
 * generation-mix table. Fetching, rendering and session state are left to the
 * caller: responses arrive here already parsed.
 */
module StreamlitApp {
  import opened Wrappers
  import opened Intensity
  import opened Calendar
  import opened Timestamps
  import opened Regions

  // ---------------------------------------------------------------- tiers

  /** The Folium colour name of each tier. */
  function TierColor(t: Tier): string
  {
    match t
    case VeryLow => "green"
    case Low => "lightgreen"
    case Moderate => "orange"
    case High => "red"
    case VeryHigh => "darkred"
  }

  /** The label shown for each tier. */
  function TierLabel(t: Tier): string
  {
    match t
    case VeryLow => "Very Low"
    case Low => "Low"
    case Moderate => "Moderate"
    case High => "High"
    case VeryHigh => "Very High"
  }

  /** The tier a colour name stands for, if any. */
  function ColorTier(c: string): Option<Tier>
  {
    if c == "green" then Some(VeryLow)
    else if c == "lightgreen" then Some(Low)
    else if c == "orange" then Some(Moderate)
    else if c == "red" then Some(High)
    else if c == "darkred" then Some(VeryHigh)
    else None
  }

  /** The tier a label stands for, if any. */
  function LabelTier(l: string): Option<Tier>
  {
    if l == "Very Low" then Some(VeryLow)
    else if l == "Low" then Some(Low)
    else if l == "Moderate" then Some(Moderate)
    else if l == "High" then Some(High)
    else if l == "Very High" then Some(VeryHigh)
    else None
  }

  /** RegionMapper.get_intensity_color: the colour of the tier that holds the intensity. */
  function IntensityColor(intensity: int): (color: string)
    ensures color == TierColor(Classify(intensity))
  {
    if intensity <= 50 then "green"
    else if intensity <= 100 then "lightgreen"
    else if intensity <= 200 then "orange"
    else if intensity <= 300 then "red"
    else "darkred"
  }

  /** RegionMapper.get_intensity_index: the label of the tier that holds the intensity. */
  function IntensityIndex(intensity: int): (index: string)
    ensures index == TierLabel(Classify(intensity))
  {
    if intensity <= 50 then "Very Low"
    else if intensity <= 100 then "Low"
    else if intensity <= 200 then "Moderate"
    else if intensity <= 300 then "High"
    else "Very High"
  }

  /** The colour and the label shown for one intensity always name the same tier. */
  lemma ColorAndIndexAgree(intensity: int)
    ensures ColorTier(IntensityColor(intensity)) == Some(Classify(intensity))
    ensures LabelTier(IntensityIndex(intensity)) == Some(Classify(intensity))
  {
  }

  /** Each boundary belongs to the tier below it. */
  lemma BoundaryIntensities()
    ensures IntensityColor(50) == "green" && IntensityIndex(50) == "Very Low"
    ensures IntensityColor(100) == "lightgreen" && IntensityIndex(100) == "Low"
    ensures IntensityColor(200) == "orange" && IntensityIndex(200) == "Moderate"
    ensures IntensityColor(300) == "red" && IntensityIndex(300) == "High"
    ensures IntensityColor(301) == "darkred" && IntensityIndex(301) == "Very High"
    ensures IntensityColor(0) == "green" && IntensityIndex(0) == "Very Low"
    ensures IntensityColor(-5) == "green" && IntensityIndex(-5) == "Very Low"
  {
  }

  // ---------------------------------------------------------------- time

  /**
   * round_to_nearest_half_hour: despite its name a floor to the half-hour grid.
   * Minutes below 30 become 0, the rest 30; seconds and microseconds become 0.
   */
  function RoundToNearestHalfHour(dt: DateTime): (r: DateTime)
    requires Valid(dt)
    ensures Valid(r) && OnHalfHourGrid(r)
    ensures r.year == dt.year && r.month == dt.month && r.day == dt.day && r.hour == dt.hour
    ensures 0 <= dt.minute - r.minute < 30
    ensures Seconds(r) <= Seconds(dt) < Seconds(r) + 30 * 60
  {
    dt.(minute := if dt.minute < 30 then 0 else 30, second := 0, subsecond := 0)
  }

  /** Rounding a rounded time changes nothing. */
  lemma RoundIdempotent(dt: DateTime)
    requires Valid(dt)
    ensures RoundToNearestHalfHour(RoundToNearestHalfHour(dt)) == RoundToNearestHalfHour(dt)
  {
  }

  /** A grid time lies on a whole multiple n of 30 minutes of the timeline. */
  lemma GridSeconds(g: DateTime) returns (n: int)
    requires Valid(g) && OnHalfHourGrid(g)
    ensures Seconds(g) == n * (30 * 60)
  {
    n := (DayNumber(g) * 24 + g.hour) * 2 + g.minute / 30;
  }

  /** The rounded time is the latest grid time not after the input. */
  lemma RoundIsFloor(dt: DateTime, g: DateTime)
    requires Valid(dt) && Valid(g) && OnHalfHourGrid(g)
    requires Seconds(g) <= Seconds(dt)
    ensures Seconds(g) <= Seconds(RoundToNearestHalfHour(dt))
  {
    var r := RoundToNearestHalfHour(dt);
    var a := GridSeconds(g);
    var b := GridSeconds(r);
    MultiplesInWindow(a, b, Seconds(dt));
  }

  /** Of two multiples of 1800, one at most t and one within 1800 below t, the first is not larger. */
  lemma MultiplesInWindow(a: int, b: int, t: int)
    requires a * 1800 <= t < b * 1800 + 1800
    ensures a * 1800 <= b * 1800
  {
  }

  /** strftime("%Y-%m-%dT%H:%M") + "Z": minute precision with a UTC marker, no seconds. */
  function TimestampParam(dt: DateTime): (s: string)
    requires Valid(dt)
    ensures |s| == 17 && s[16] == 'Z'
    ensures ParseMinuteStamp(s[..16]) == Some(FieldsOf(dt))
  {
    MinuteStampRoundTrip(dt);
    assert (MinuteStamp(dt) + "Z")[..16] == MinuteStamp(dt);
    MinuteStamp(dt) + "Z"
  }

  /**
   * The historical request range for a selected time: from the rounded time
   * to 30 minutes later. None where the end would pass year 9999 (Python
   * raises OverflowError there).
   */
  function HistoricalRange(selected: DateTime): (r: Option<(DateTime, DateTime)>)
    requires Valid(selected)
    ensures r.Some? ==> r.value.0 == RoundToNearestHalfHour(selected)
    ensures r.Some? ==> Valid(r.value.1) && OnHalfHourGrid(r.value.1)
                        && Seconds(r.value.1) == Seconds(r.value.0) + 30 * 60
    ensures r.None? <==> selected.year == MaxYear && selected.month == 12 && selected.day == 31
                         && selected.hour == 23 && selected.minute >= 30
  {
    var from := RoundToNearestHalfHour(selected);
    match AddHalfHour(from)
    case None => None
    case Some(to) => Some((from, to))
  }

  /** The time-series range: the 24 hours up to now, not rounded. None before year 1. */
  function TimeSeriesRange(now: DateTime): (r: Option<(DateTime, DateTime)>)
    requires Valid(now)
    ensures r.Some? ==> r.value.1 == now && Valid(r.value.0)
                        && Seconds(r.value.0) == Seconds(now) - 24 * 60 * 60
    ensures r.None? <==> now.year == MinYear && now.month == 1 && now.day == 1
  {
    match SubtractDay(now)
    case None => None
    case Some(start) => Some((start, now))
  }

  // ---------------------------------------------------------------- snapshot

  /**
   * The snapshot main renders: the first element of the response's `data`
   * list. None when the fetch failed, the key is missing or the list is empty.
   */
  function SelectSnapshot(response: Option<Response>): (r: Option<Snapshot>)
    ensures r.Some? <==> response.Some? && response.value.data.Some? && |response.value.data.value| > 0
    ensures r.Some? ==> r.value == response.value.data.value[0]
  {
    if response.Some? && response.value.data.Some? && |response.value.data.value| > 0
    then Some(response.value.data.value[0])
    else None
  }

  // ---------------------------------------------------------------- map

  /**
   * create_map: one marker per region with id at most 14, in input order, at
   * its catalogue centroid (or the default position), filled with its tier
   * colour; no markers when the snapshot or its region list is missing.
   */
  method CreateMap(regionsData: Option<Snapshot>) returns (markers: seq<Marker>)
    ensures regionsData.None? || regionsData.value.regions.None? ==> markers == []
    ensures regionsData.Some? && regionsData.value.regions.Some? ==>
              var kept := Kept(regionsData.value.regions.value);
              && |markers| == |kept|
              && forall i | 0 <= i < |kept| ::
                   markers[i] == Marker(kept[i], CentroidOrDefault(kept[i].regionid),
                                        IntensityColor(kept[i].forecast))
  {
    markers := [];
    if regionsData.None? || regionsData.value.regions.None? {
      return;
    }
    var regions := regionsData.value.regions.value;
    for i := 0 to |regions|
      invariant markers == MarkersFor(regions[..i], IntensityColor)
    {
      assert regions[..i + 1][..i] == regions[..i];
      var region := regions[i];
      if region.regionid > LastMappedRegion {
        continue;
      }
      var coords := CentroidOrDefault(region.regionid);
      markers := markers + [Marker(region, coords, IntensityColor(region.forecast))];
    }
    assert regions[..|regions|] == regions;
    MarkersForKept(regions, IntensityColor);
  }

  // ---------------------------------------------------------------- click

  function Abs(x: real): real
  {
    if x < 0.0 then -x else x
  }

  /**
   * A click selects a region when the region is a mapped one, has a catalogue
   * centroid, and the centroid lies strictly within one degree of the click
   * in both latitude and longitude.
   */
  predicate ClickHits(click: Coord, r: Region)
  {
    && r.regionid <= LastMappedRegion
    && r.regionid in RegionCoordinates
    && Abs(click.lat - RegionCoordinates[r.regionid].lat) < 1.0
    && Abs(click.lon - RegionCoordinates[r.regionid].lon) < 1.0
  }

  /** The first region of the list that the click hits. */
  function FirstHit(click: Coord, regions: seq<Region>): Option<Region>
  {
    if regions == [] then None
    else if ClickHits(click, regions[0]) then Some(regions[0])
    else FirstHit(click, regions[1..])
  }

  /** FirstHit returns the earliest hit region, and None exactly when nothing is hit. */
  lemma {:induction false} FirstHitIsFirst(click: Coord, regions: seq<Region>)
    ensures FirstHit(click, regions).None? <==> forall i | 0 <= i < |regions| :: !ClickHits(click, regions[i])
    ensures FirstHit(click, regions).Some? ==>
              exists k | 0 <= k < |regions| ::
                && regions[k] == FirstHit(click, regions).value
                && ClickHits(click, regions[k])
                && forall j | 0 <= j < k :: !ClickHits(click, regions[j])
  {
    if regions != [] && !ClickHits(click, regions[0]) {
      FirstHitIsFirst(click, regions[1..]);
      if FirstHit(click, regions[1..]).Some? {
        var k :| 0 <= k < |regions[1..]| && regions[1..][k] == FirstHit(click, regions[1..]).value
                 && ClickHits(click, regions[1..][k])
                 && forall j | 0 <= j < k :: !ClickHits(click, regions[1..][j]);
        assert regions[k + 1] == regions[1..][k];
        assert forall j | 0 <= j < k + 1 :: !ClickHits(click, regions[j]) by {
          forall j | 0 <= j < k + 1 ensures !ClickHits(click, regions[j]) {
            if j > 0 { assert regions[j] == regions[1..][j - 1]; }
          }
        }
      } else {
        assert forall i | 0 <= i < |regions| :: !ClickHits(click, regions[i]) by {
          forall i | 0 <= i < |regions| ensures !ClickHits(click, regions[i]) {
            if i > 0 { assert regions[i] == regions[1..][i - 1]; }
          }
        }
      }
    }
  }

  /** A region with an id above 14 is never selected by a click. */
  lemma FirstHitIsMapped(click: Coord, regions: seq<Region>)
    ensures FirstHit(click, regions).Some? ==>
              IsMapped(FirstHit(click, regions).value) && FirstHit(click, regions).value in regions
  {
    FirstHitIsFirst(click, regions);
  }

  /**
   * A click on the exact centroid of a listed region always selects some
   * region: that one, or one listed before it whose box also holds the point.
   */
  lemma CentroidClickSelectsARegion(regions: seq<Region>, k: nat)
    requires k < |regions| && 1 <= regions[k].regionid <= LastMappedRegion
    ensures FirstHit(RegionCoordinates[regions[k].regionid], regions).Some?
  {
    FirstHitIsFirst(RegionCoordinates[regions[k].regionid], regions);
    assert ClickHits(RegionCoordinates[regions[k].regionid], regions[k]);
  }

  /**
   * The click resolution in main: scans the snapshot's regions in order and
   * stops at the first one the last clicked point hits.
   */
  method ResolveClick(lastClicked: Option<Coord>, regions: seq<Region>) returns (clicked: Option<Region>)
    ensures lastClicked.None? ==> clicked.None?
    ensures lastClicked.Some? ==> clicked == FirstHit(lastClicked.value, regions)
  {
    clicked := None;
    if lastClicked.None? {
      return;
    }
    var click := lastClicked.value;
    for i := 0 to |regions|
      invariant clicked.None?
      invariant FirstHit(click, regions) == FirstHit(click, regions[i..])
    {
      assert regions[i..][1..] == regions[i + 1..];
      var region := regions[i];
      if region.regionid <= LastMappedRegion {
        if region.regionid in RegionCoordinates {
          var regionCoords := RegionCoordinates[region.regionid];
          if Abs(click.lat - regionCoords.lat) < 1.0 && Abs(click.lon - regionCoords.lon) < 1.0 {
            clicked := Some(region);
            break;
          }
        }
      }
    }
  }

  /** The 14 mapped regions as the API lists them, in id order, with a given intensity. */
  function CatalogueSnapshot(forecast: int): seq<Region>
  {
    seq(14, i requires 0 <= i < 14 => Region(i + 1, "", "", forecast, []))
  }

  /**
   * The tolerance boxes overlap: with the regions in id order, a click on the
   * London marker (51.5, -0.1) selects South England (id 12), whose centroid
   * (51.0, -1.0) lies 0.5 and 0.9 degrees away.
   */
  lemma LondonClickSelectsSouthEngland(forecast: int)
    ensures FirstHit(Coord(51.5, -0.1), CatalogueSnapshot(forecast)) == Some(CatalogueSnapshot(forecast)[11])
  {
    var rs := CatalogueSnapshot(forecast);
    var click := Coord(51.5, -0.1);
    assert forall i | 0 <= i < 11 :: !ClickHits(click, rs[i]);
    assert ClickHits(click, rs[11]);
    FirstHitIsFirst(click, rs);
    var k :| 0 <= k < |rs| && rs[k] == FirstHit(click, rs).value && ClickHits(click, rs[k])
             && forall j | 0 <= j < k :: !ClickHits(click, rs[j]);
    assert k == 11;
  }

  /**
   * The second overlap: with the regions in id order, a click on the South
   * East England marker (51.2, 0.5) selects London (id 13), whose centroid
   * (51.5, -0.1) lies 0.3 and 0.6 degrees away.
   */
  lemma SouthEastClickSelectsLondon(forecast: int)
    ensures FirstHit(Coord(51.2, 0.5), CatalogueSnapshot(forecast)) == Some(CatalogueSnapshot(forecast)[12])
  {
    var rs := CatalogueSnapshot(forecast);
    var click := Coord(51.2, 0.5);
    assert forall i | 0 <= i < 12 :: !ClickHits(click, rs[i]);
    assert ClickHits(click, rs[12]);
    FirstHitIsFirst(click, rs);
    var k :| 0 <= k < |rs| && rs[k] == FirstHit(click, rs).value && ClickHits(click, rs[k])
             && forall j | 0 <= j < k :: !ClickHits(click, rs[j]);
    assert k == 12;
  }

  // ---------------------------------------------------------------- generation mix

  /**
   * The gen_data comprehension of display_region_details: display name of the
   * fuel to its share, for shares above zero. `title` stands for Python's
   * str.title, which the model does not define.
   */
  function GenerationMix(mix: seq<FuelShare>, title: string -> string): (m: map<string, real>)
    ensures m.Keys == set i | 0 <= i < |mix| && mix[i].perc > 0.0 :: title(mix[i].fuel)
  {
    if mix == [] then map[]
    else
      var init := mix[..|mix| - 1];
      var last := mix[|mix| - 1];
      var m := GenerationMix(init, title);
      assert forall i | 0 <= i < |init| :: init[i] == mix[i];
      if last.perc > 0.0 then m[title(last.fuel) := last.perc] else m
  }

  /**
   * Each key carries the share of the LAST entry with that display name and a
   * positive share: later duplicates overwrite earlier ones.
   */
  lemma {:induction false} GenerationMixLastWins(mix: seq<FuelShare>, title: string -> string, name: string)
    requires name in GenerationMix(mix, title)
    ensures exists i | 0 <= i < |mix| ::
              && title(mix[i].fuel) == name && mix[i].perc > 0.0
              && GenerationMix(mix, title)[name] == mix[i].perc
              && forall j | i < j < |mix| :: title(mix[j].fuel) == name ==> mix[j].perc <= 0.0
  {
    var init := mix[..|mix| - 1];
    var last := mix[|mix| - 1];
    if last.perc > 0.0 && title(last.fuel) == name {
      assert title(mix[|mix| - 1].fuel) == name;
    } else {
      GenerationMixLastWins(init, title, name);
      var i :| 0 <= i < |init| && title(init[i].fuel) == name && init[i].perc > 0.0
               && GenerationMix(init, title)[name] == init[i].perc
               && forall j | i < j < |init| :: title(init[j].fuel) == name ==> init[j].perc <= 0.0;
      assert mix[i] == init[i];
      assert forall j | i < j < |mix| :: title(mix[j].fuel) == name ==> mix[j].perc <= 0.0 by {
        forall j | i < j < |mix| ensures title(mix[j].fuel) == name ==> mix[j].perc <= 0.0 {
          if j < |init| { assert mix[j] == init[j]; }
        }
      }
    }
  }

  /** A mix of solar 0, wind 40 and gas 60 gives a chart of exactly two bars. */
  lemma ZeroShareDropped()
    ensures GenerationMix([FuelShare("solar", 0.0), FuelShare("wind", 40.0), FuelShare("gas", 60.0)], s => s)
            == map["wind" := 40.0, "gas" := 60.0]
  {
    var mix := [FuelShare("solar", 0.0), FuelShare("wind", 40.0), FuelShare("gas", 60.0)];
    assert mix[..2] == [FuelShare("solar", 0.0), FuelShare("wind", 40.0)];
    assert mix[..2][..1] == [FuelShare("solar", 0.0)];
    assert mix[..2][..1][..0] == [];
  }
}
