// Pacr/UI/LocationView.swift, without its SwiftUI layout: the map region
// that frames the track, and the periodic `tick` that refreshes the metric
// labels, the update date and the map camera. The clock reading `Date()`,
// the distance metric and the `Double` description used for the distance
// label are parameters.
module LocationViewModel {
  import opened Fixes
  import opened Metrics
  import opened StatusDisplay
  import LocatedTracker

  /** MKCoordinateRegion: a center and the span in degrees. */
  datatype Region = Region(
    centerLatitude: real,
    centerLongitude: real,
    latitudeDelta: real,
    longitudeDelta: real)

  /** MapCameraPosition: `.automatic` or `.region(_)`. */
  datatype CameraPosition = Automatic | RegionPosition(region: Region)

  function Latitudes(locations: seq<Fix>): (r: seq<real>)
    ensures |r| == |locations|
    ensures forall i :: 0 <= i < |locations| ==> r[i] == locations[i].latitude
  {
    seq(|locations|, i requires 0 <= i < |locations| => locations[i].latitude)
  }

  function Longitudes(locations: seq<Fix>): (r: seq<real>)
    ensures |r| == |locations|
    ensures forall i :: 0 <= i < |locations| ==> r[i] == locations[i].longitude
  {
    seq(|locations|, i requires 0 <= i < |locations| => locations[i].longitude)
  }

  /** `min()` of a non-empty array. */
  function MinOf(xs: seq<real>): (m: real)
    requires xs != []
    ensures m in xs
    ensures forall i :: 0 <= i < |xs| ==> m <= xs[i]
    decreases |xs|
  {
    if |xs| == 1 then xs[0]
    else
      var rest := MinOf(xs[..|xs| - 1]);
      if xs[|xs| - 1] < rest then xs[|xs| - 1] else rest
  }

  /** `max()` of a non-empty array. */
  function MaxOf(xs: seq<real>): (m: real)
    requires xs != []
    ensures m in xs
    ensures forall i :: 0 <= i < |xs| ==> xs[i] <= m
    decreases |xs|
  {
    if |xs| == 1 then xs[0]
    else
      var rest := MaxOf(xs[..|xs| - 1]);
      if xs[|xs| - 1] > rest then xs[|xs| - 1] else rest
  }

  function Max(a: real, b: real): real {
    if a >= b then a else b
  }

  /** `mapRegion(for:)`: nil without locations; a fixed 0.005 degree span
      around a single location; otherwise the bounding box's midpoint with
      each span 1.5 times the extent but at least 0.002 degrees. */
  function MapRegion(locations: seq<Fix>): (r: Option<Region>)
    ensures r.Some? <==> locations != []
    ensures r.Some? ==> r.value.latitudeDelta >= 0.002 && r.value.longitudeDelta >= 0.002
  {
    if locations == [] then None
    else if |locations| == 1 then
      Some(Region(locations[0].latitude, locations[0].longitude, 0.005, 0.005))
    else
      var minLat, maxLat := MinOf(Latitudes(locations)), MaxOf(Latitudes(locations));
      var minLon, maxLon := MinOf(Longitudes(locations)), MaxOf(Longitudes(locations));
      Some(Region(
        (minLat + maxLat) / 2.0,
        (minLon + maxLon) / 2.0,
        Max((maxLat - minLat) * 1.5, 0.002),
        Max((maxLon - minLon) * 1.5, 0.002)))
  }

  /** The region's rectangle contains the location. */
  predicate Shows(r: Region, f: Fix) {
    r.centerLatitude - r.latitudeDelta / 2.0 <= f.latitude <= r.centerLatitude + r.latitudeDelta / 2.0 &&
    r.centerLongitude - r.longitudeDelta / 2.0 <= f.longitude <= r.centerLongitude + r.longitudeDelta / 2.0
  }

  /** Any non-empty track gets a region, no span is below 0.002 degrees, and
      every location of the track is inside it. */
  lemma MapRegionShowsAll(locations: seq<Fix>)
    requires locations != []
    ensures MapRegion(locations).Some?
    ensures MapRegion(locations).value.latitudeDelta >= 0.002
    ensures MapRegion(locations).value.longitudeDelta >= 0.002
    ensures forall i :: 0 <= i < |locations| ==> Shows(MapRegion(locations).value, locations[i])
  {
    if |locations| > 1 {
      var lats, lons := Latitudes(locations), Longitudes(locations);
      forall i | 0 <= i < |locations|
        ensures MinOf(lats) <= locations[i].latitude <= MaxOf(lats)
        ensures MinOf(lons) <= locations[i].longitude <= MaxOf(lons)
      {
        assert lats[i] == locations[i].latitude && lons[i] == locations[i].longitude;
      }
    }
  }

  class LocationView {
    const tracker: LocatedTracker.Tracker
    var now: int
    var updateDate: Option<int>
    var paceText: string
    var distanceText: string
    var lastKnownLocationCount: int
    var mapPosition: CameraPosition

    constructor (tracker: LocatedTracker.Tracker, now: int)
      ensures this.tracker == tracker && this.now == now
      ensures updateDate == None && lastKnownLocationCount == 0 && mapPosition == Automatic
      ensures paceText == "—" && distanceText == "0 m"
    {
      this.tracker := tracker;
      this.now := now;
      updateDate := None;
      paceText := "—";
      distanceText := "0 m";
      lastKnownLocationCount := 0;
      mapPosition := Automatic;
    }

    /** The indicator colour at the view's current `now`. */
    function Status(): Color
      reads this, tracker
    {
      StatusColor(|tracker.locations|, updateDate, now)
    }

    /** `updatePace()`: copy the tracker's pace label and render the
        distance, 0 when there are no locations. */
    method UpdatePace(d: Metric, describe: real -> string)
      modifies this
      ensures paceText == tracker.Pace(d)
      ensures distanceText ==
        describe(if tracker.locations == [] then 0.0 else PathLength(d, tracker.locations)) + " m"
      ensures now == old(now) && updateDate == old(updateDate)
      ensures lastKnownLocationCount == old(lastKnownLocationCount) && mapPosition == old(mapPosition)
    {
      paceText := tracker.Pace(d);
      var distance := Distance(d, tracker.locations);
      var shown := if distance.Some? then distance.value else 0.0;
      distanceText := describe(shown) + " m";
    }

    /** `updateMapPosition()`: move the camera to the track's region, if any. */
    method UpdateMapPosition()
      modifies this
      ensures mapPosition ==
        if MapRegion(tracker.locations).Some? then RegionPosition(MapRegion(tracker.locations).value)
        else old(mapPosition)
      ensures now == old(now) && updateDate == old(updateDate) && paceText == old(paceText)
      ensures distanceText == old(distanceText) && lastKnownLocationCount == old(lastKnownLocationCount)
    {
      var region := MapRegion(tracker.locations);
      if region.None? {
        return;
      }
      mapPosition := RegionPosition(region.value);
    }

    /** `tick()`: take the time, refresh the labels, and only when the number
        of tracked locations differs from the last one seen record the new
        count, stamp the update date and move the camera. */
    method Tick(clock: int, d: Metric, describe: real -> string)
      modifies this
      ensures now == clock
      ensures paceText == tracker.Pace(d)
      ensures distanceText ==
        describe(if tracker.locations == [] then 0.0 else PathLength(d, tracker.locations)) + " m"
      ensures |tracker.locations| != old(lastKnownLocationCount) ==>
        lastKnownLocationCount == |tracker.locations| && updateDate == Some(clock) &&
        mapPosition == (if MapRegion(tracker.locations).Some? then RegionPosition(MapRegion(tracker.locations).value)
                        else old(mapPosition))
      ensures |tracker.locations| == old(lastKnownLocationCount) ==>
        lastKnownLocationCount == old(lastKnownLocationCount) && updateDate == old(updateDate) &&
        mapPosition == old(mapPosition)
      ensures |tracker.locations| > 0 && |tracker.locations| != old(lastKnownLocationCount) ==>
        Status() == Green
    {
      now := clock;
      UpdatePace(d, describe);
      var currentCount := |tracker.locations|;
      if currentCount != lastKnownLocationCount {
        lastKnownLocationCount := currentCount;
        updateDate := Some(clock);
        UpdateMapPosition();
      }
    }
  }
}
