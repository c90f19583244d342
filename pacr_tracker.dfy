// Pacr/Controller/Tracker.swift: the app's orchestrator. It subscribes a
// window closure to the manager's debug log and exposes the pace of the
// window. The Combine pipeline is modelled by re-deriving the window right
// after each change of the log that goes through the tracker.
module PacrTracker {
  import opened Fixes
  import opened Intake
  import opened Metrics
  import PacrLocationManager

  /** The trailing window, in seconds, that the pace label uses. */
  const PaceWindowSeconds: int := 12

  class Tracker {
    const locationManager: PacrLocationManager.LocationManager
    /** `cancellable != nil`: the window closure is subscribed to the log. */
    var subscribed: bool
    /** The window of the debug log last published to the tracker. */
    var locations: seq<Fix>

    ghost predicate Valid()
      reads this, locationManager
    {
      locationManager.Valid() &&
      (subscribed ==> IsSubseq(locations, locationManager.debugLocations)) &&
      (!subscribed ==> locations == [])
    }

    constructor (locationManager: PacrLocationManager.LocationManager)
      requires locationManager.Valid()
      ensures Valid() && this.locationManager == locationManager
      ensures !subscribed && locations == []
    {
      this.locationManager := locationManager;
      subscribed := false;
      locations := [];
    }

    /** `start()`: subscribe the window closure to the debug log; the
        publisher hands over the current log at once. Updates are not
        restarted here (authorization is requested, which is left out). */
    method Start(now: int)
      requires Valid()
      modifies this
      ensures Valid() && subscribed
      ensures locations == TrackerWindow(locationManager.debugLocations, now)
    {
      subscribed := true;
      locations := TrackerWindow(locationManager.debugLocations, now);
      TrackerWindowProperties(locationManager.debugLocations, now);
    }

    /** A batch from CoreLocation: the manager takes it in, and, when subscribed,
        every change of the log re-derives the window. */
    method Deliver(batch: seq<Fix>, now: int)
      requires Valid()
      modifies this, locationManager
      ensures Valid() && subscribed == old(subscribed)
      ensures locationManager.State() == Ingest(old(locationManager.State()), batch, now)
      ensures locationManager.updating == old(locationManager.updating)
      ensures locationManager.authorizationStatus == old(locationManager.authorizationStatus)
      ensures locations ==
        if batch == [] then old(locations)
        else if subscribed then TrackerWindow(locationManager.debugLocations, now)
        else []
    {
      locationManager.DidUpdateLocations(batch, now);
      if subscribed && batch != [] {
        locations := TrackerWindow(locationManager.debugLocations, now);
        TrackerWindowProperties(locationManager.debugLocations, now);
      }
    }

    /** `stop()`: stop updates, then reset the manager; the emptied log
        gives an empty window. */
    method Stop(now: int)
      requires Valid()
      modifies this, locationManager
      ensures Valid() && subscribed == old(subscribed)
      ensures !locationManager.updating && locationManager.State() == Empty
      ensures locationManager.authorizationStatus == old(locationManager.authorizationStatus)
      ensures locations == []
    {
      locationManager.Stop();
      locationManager.Reset();
      if subscribed {
        locations := TrackerWindow(locationManager.debugLocations, now);
      }
    }

    /** `reset()`: empty the manager's buffers without stopping updates. */
    method Reset(now: int)
      requires Valid()
      modifies this, locationManager
      ensures Valid() && subscribed == old(subscribed)
      ensures locationManager.updating == old(locationManager.updating)
      ensures locationManager.State() == Empty
      ensures locationManager.authorizationStatus == old(locationManager.authorizationStatus)
      ensures locations == []
    {
      locationManager.Reset();
      if subscribed {
        locations := TrackerWindow(locationManager.debugLocations, now);
      }
    }

    /** The `pace` label: the formatted pace over the last 12 s of the window,
        or the placeholder exactly when there is no pace. */
    function Pace(d: Metric): (r: string)
      reads this
      ensures r == NoPace <==> PaceOf(d, locations, PaceWindowSeconds).None?
    {
      match PaceOf(d, locations, PaceWindowSeconds)
      case Some(p) =>
        FormatPacePlaceholderIff(Some(Finite(p)));
        FormatPace(Some(Finite(p)))
      case None => NoPace
    }
  }
}
