/**
 * The region catalogue and the parsed shapes of the carbon-intensity API's
 * regional responses, shared by both front ends.
 */
module Regions {
  import opened Wrappers

  datatype Coord = Coord(lat: real, lon: real)

  /** One generation-mix entry: a fuel and its share in percent. */
  datatype FuelShare = FuelShare(fuel: string, perc: real)

  /** A region of a snapshot; `forecast` is the forecast intensity in gCO2/kWh. */
  datatype Region = Region(regionid: int, shortname: string, dnoregion: string,
                           forecast: int, generationmix: seq<FuelShare>)

  /** One element of a response's `data` array; `regions` is None when the key is absent. */
  datatype Snapshot = Snapshot(regions: Option<seq<Region>>)

  /** A parsed regional response body; `data` is None when the key is absent. */
  datatype Response = Response(data: Option<seq<Snapshot>>)

  /** Ids above this one are national or country aggregates, never drawn on the map. */
  const LastMappedRegion := 14

  /** Approximate centroids of the 14 mapped regions. */
  const RegionCoordinates: map<int, Coord> := map[
    1 := Coord(58.0, -4.5),   // North Scotland
    2 := Coord(55.5, -3.5),   // South Scotland
    3 := Coord(54.0, -2.5),   // North West England
    4 := Coord(55.0, -1.5),   // North East England
    5 := Coord(54.0, -1.0),   // Yorkshire
    6 := Coord(53.0, -3.0),   // North Wales & Merseyside
    7 := Coord(51.5, -3.5),   // South Wales
    8 := Coord(52.5, -2.0),   // West Midlands
    9 := Coord(52.8, -1.0),   // East Midlands
    10 := Coord(52.5, 0.5),   // East England
    11 := Coord(50.5, -3.5),  // South West England
    12 := Coord(51.0, -1.0),  // South England
    13 := Coord(51.5, -0.1),  // London
    14 := Coord(51.2, 0.5)    // South East England
  ]

  /** Where a region whose id is not in the catalogue is drawn. */
  const DefaultCoord := Coord(54.0, -2.0)

  /** The catalogue holds exactly the ids 1 to 14. */
  lemma CatalogueIds(id: int)
    ensures id in RegionCoordinates <==> 1 <= id <= LastMappedRegion
  {
  }

  /** The catalogue entry for a region id, or the default position. */
  function CentroidOrDefault(id: int): (c: Coord)
    ensures 1 <= id <= LastMappedRegion ==> c == RegionCoordinates[id]
    ensures !(1 <= id <= LastMappedRegion) ==> c == DefaultCoord
  {
    if id in RegionCoordinates then RegionCoordinates[id] else DefaultCoord
  }

  predicate IsMapped(r: Region)
  {
    r.regionid <= LastMappedRegion
  }

  /** The regions that get a marker, in input order: country aggregates are skipped. */
  function Kept(rs: seq<Region>): (k: seq<Region>)
    ensures |k| <= |rs|
    ensures forall r :: r in k <==> r in rs && IsMapped(r)
  {
    if rs == [] then []
    else Kept(rs[..|rs| - 1]) + (if IsMapped(rs[|rs| - 1]) then [rs[|rs| - 1]] else [])
  }

  /** Filtering distributes over concatenation, so input order is kept. */
  lemma {:induction false} KeptAppend(a: seq<Region>, b: seq<Region>)
    ensures Kept(a + b) == Kept(a) + Kept(b)
  {
    if b != [] {
      assert (a + b)[..|a + b| - 1] == a + b[..|b| - 1];
      KeptAppend(a, b[..|b| - 1]);
    } else {
      assert a + b == a;
    }
  }

  /** Nothing is dropped when every region is a mapped one. */
  lemma {:induction false} KeptAllMapped(rs: seq<Region>)
    requires forall i | 0 <= i < |rs| :: IsMapped(rs[i])
    ensures Kept(rs) == rs
  {
    if rs != [] {
      KeptAllMapped(rs[..|rs| - 1]);
    }
  }

  /** A map marker: the region it shows, its position and its fill colour. */
  datatype Marker = Marker(region: Region, location: Coord, fillColor: string)

  function MarkerFor(r: Region, palette: int -> string): Marker
  {
    Marker(r, CentroidOrDefault(r.regionid), palette(r.forecast))
  }

  /** The markers drawn for a region list under a colour palette, in input order. */
  function MarkersFor(rs: seq<Region>, palette: int -> string): seq<Marker>
  {
    if rs == [] then []
    else MarkersFor(rs[..|rs| - 1], palette)
         + (if IsMapped(rs[|rs| - 1]) then [MarkerFor(rs[|rs| - 1], palette)] else [])
  }

  /** One marker per kept region, in the same order, at its catalogue position. */
  lemma {:induction false} MarkersForKept(rs: seq<Region>, palette: int -> string)
    ensures |MarkersFor(rs, palette)| == |Kept(rs)|
    ensures forall i | 0 <= i < |Kept(rs)| :: MarkersFor(rs, palette)[i] == MarkerFor(Kept(rs)[i], palette)
  {
    if rs != [] {
      MarkersForKept(rs[..|rs| - 1], palette);
    }
  }
}
