// Pacr/Controller/LocationManager.swift: the app's CoreLocation delegate.
// It logs every fix, filters them, and keeps a pruned rolling buffer of the
// fixes that pass. CoreLocation itself is reduced to the `updating` flag.
module PacrLocationManager {
  import opened Fixes
  import opened Intake

  class LocationManager {
    var authorizationStatus: AuthorizationStatus
    /** Whether CoreLocation has been told to deliver fixes
        (`startUpdatingLocation` / `stopUpdatingLocation`). */
    var updating: bool
    var lastLocation: Option<Fix>
    var recentLocations: seq<Fix>
    /** Every fix ever delivered since the last reset, uncapped. */
    var debugLocations: seq<Fix>

    /** The three published buffers as one value. */
    function State(): IntakeState
      reads this
    {
      IntakeState(lastLocation, recentLocations, debugLocations)
    }

    ghost predicate Valid()
      reads this
    {
      |recentLocations| <= RecentMaxCount && QualityInvariant(State())
    }

    constructor ()
      ensures Valid() && State() == Empty
      ensures authorizationStatus == NotDetermined && !updating
    {
      authorizationStatus := NotDetermined;
      updating := false;
      lastLocation := None;
      recentLocations := [];
      debugLocations := [];
    }

    method Start()
      modifies this
      ensures updating
      ensures State() == old(State()) && authorizationStatus == old(authorizationStatus)
    {
      updating := true;
    }

    method Stop()
      modifies this
      ensures !updating
      ensures State() == old(State()) && authorizationStatus == old(authorizationStatus)
    {
      updating := false;
    }

    /** `reset()`: forget the last location and empty both buffers. */
    method Reset()
      modifies this
      ensures Valid() && State() == Empty
      ensures authorizationStatus == old(authorizationStatus) && updating == old(updating)
    {
      lastLocation := None;
      recentLocations := [];
      debugLocations := [];
    }

    /** `locationManager(_:didChangeAuthorization:)`: record the status, and
        start updates when the app may use location. */
    method DidChangeAuthorization(status: AuthorizationStatus)
      modifies this
      ensures authorizationStatus == status
      ensures updating == (old(updating) || IsAuthorized(status))
      ensures State() == old(State())
    {
      authorizationStatus := status;
      if status == AuthorizedWhenInUse || status == AuthorizedAlways {
        Start();
      }
    }

    /** The main-actor task run for an accepted fix: it becomes the last
        location and joins the buffer, which is then pruned by age (older
        than now - 30 s) and by count (the newest 200 stay). */
    method InsertAccepted(loc: Fix, now: int)
      modifies this
      ensures lastLocation == Some(loc)
      ensures recentLocations == Prune(old(recentLocations) + [loc], now)
      ensures debugLocations == old(debugLocations)
      ensures authorizationStatus == old(authorizationStatus) && updating == old(updating)
    {
      lastLocation := Some(loc);
      recentLocations := recentLocations + [loc];
      var cutoff := now - 30;
      recentLocations := DropOlderThan(recentLocations, cutoff);
      if |recentLocations| > 200 {
        recentLocations := recentLocations[|recentLocations| - 200..];
      }
    }

    /** `locationManager(_:didUpdateLocations:)`, with the main-actor task
        run at once and `now` standing for `Date()`. */
    method DidUpdateLocations(locations: seq<Fix>, now: int)
      requires Valid()
      modifies this
      ensures Valid()
      ensures State() == Ingest(old(State()), locations, now)
      ensures locations == [] ==> State() == old(State())
      ensures authorizationStatus == old(authorizationStatus) && updating == old(updating)
    {
      if |locations| == 0 {
        return;
      }
      for i := 0 to |locations|
        invariant Valid()
        invariant State() == Ingest(old(State()), locations[..i], now)
        invariant authorizationStatus == old(authorizationStatus) && updating == old(updating)
      {
        var loc := locations[i];
        ghost var before := State();
        IngestNext(old(State()), locations, i, now);
        StepKeepsQuality(before, loc, now);
        debugLocations := debugLocations + [loc];
        if loc.horizontalAccuracy < 0.0 || loc.horizontalAccuracy > 50.0 {
          continue;
        }
        if loc.timestamp - now > 5 {
          continue;
        }
        if loc.speed >= 0.0 {
          continue;
        }
        InsertAccepted(loc, now);
      }
      assert locations[..|locations|] == locations;
    }
  }
}
