/**
 * The two front ends implement the same rules: these lemmas relate the
 * Streamlit definitions to the browser ones.
 */
module Agreement {
  import opened Wrappers
  import opened Calendar
  import opened Regions
  import Intensity
  import Timestamps
  import StreamlitApp
  import BrowserApp

  /** Both colour ladders and both label ladders name the same tier for every intensity. */
  lemma TiersAgree(intensity: int)
    ensures StreamlitApp.ColorTier(StreamlitApp.IntensityColor(intensity))
            == BrowserApp.ColorTier(BrowserApp.IntensityColor(intensity))
            == Some(Intensity.Classify(intensity))
    ensures StreamlitApp.LabelTier(StreamlitApp.IntensityIndex(intensity))
            == BrowserApp.IndexTier(BrowserApp.IntensityIndex(intensity))
            == Some(Intensity.Classify(intensity))
  {
    StreamlitApp.ColorAndIndexAgree(intensity);
    BrowserApp.ColorAndIndexAgree(intensity);
  }

  /** Both half-hour floors give the same time. */
  lemma RoundingAgrees(dt: DateTime)
    requires Valid(dt)
    ensures BrowserApp.RoundToNearestHalfHour(dt) == StreamlitApp.RoundToNearestHalfHour(dt)
  {
  }

  /** The browser's timestamp is the Python one with the seconds inserted before the `Z`. */
  lemma TimestampsAgree(dt: DateTime)
    requires Valid(dt) && dt.subsecond < 1000
    ensures BrowserApp.TimestampParam(dt)[..16] == StreamlitApp.TimestampParam(dt)[..16]
    ensures BrowserApp.TimestampParam(dt)[19] == StreamlitApp.TimestampParam(dt)[16] == 'Z'
  {
  }

  /** Both front ends request the same historical half hour for a selected time. */
  lemma HistoricalRangesAgree(dt: DateTime)
    requires Valid(dt) && dt.subsecond < 1000
    ensures BrowserApp.HistoricalParams(dt).Some? <==> StreamlitApp.HistoricalRange(dt).Some?
    ensures BrowserApp.HistoricalParams(dt).Some? ==>
              BrowserApp.HistoricalParams(dt).value.0
              == StreamlitApp.TimestampParam(StreamlitApp.HistoricalRange(dt).value.0)[..16] + ":00Z"
  {
    var from := StreamlitApp.HistoricalRange(dt);
    if from.Some? {
      assert (Timestamps.MinuteStamp(from.value.0) + "Z")[..16] == Timestamps.MinuteStamp(from.value.0);
    }
  }

  /** Both maps draw markers for the same regions, in the same order and places, in the same tiers. */
  lemma {:induction false} MarkersAgree(rs: seq<Region>)
    ensures |MarkersFor(rs, StreamlitApp.IntensityColor)| == |MarkersFor(rs, BrowserApp.IntensityColor)|
    ensures forall i | 0 <= i < |MarkersFor(rs, StreamlitApp.IntensityColor)| ::
              && MarkersFor(rs, StreamlitApp.IntensityColor)[i].region
                 == MarkersFor(rs, BrowserApp.IntensityColor)[i].region
              && MarkersFor(rs, StreamlitApp.IntensityColor)[i].location
                 == MarkersFor(rs, BrowserApp.IntensityColor)[i].location
              && StreamlitApp.ColorTier(MarkersFor(rs, StreamlitApp.IntensityColor)[i].fillColor)
                 == BrowserApp.ColorTier(MarkersFor(rs, BrowserApp.IntensityColor)[i].fillColor)
  {
    MarkersForKept(rs, StreamlitApp.IntensityColor);
    MarkersForKept(rs, BrowserApp.IntensityColor);
    forall i | 0 <= i < |Kept(rs)|
      ensures StreamlitApp.ColorTier(StreamlitApp.IntensityColor(Kept(rs)[i].forecast))
              == BrowserApp.ColorTier(BrowserApp.IntensityColor(Kept(rs)[i].forecast))
    {
      TiersAgree(Kept(rs)[i].forecast);
    }
  }
}
