// Pacr/UI/ContentView.swift, without its SwiftUI layout: the periodic `tick`
// that refreshes the pace and distance labels and stamps the update date
// when the number of tracked locations changes. The clock reading `Date()`,
// the distance metric and the `Double` description used for the distance
// label are parameters.
module ContentViewModel {
  import opened Fixes
  import opened Metrics
  import opened StatusDisplay
  import LocatedTracker

  class ContentView {
    const tracker: LocatedTracker.Tracker
    var now: int
    var updateDate: Option<int>
    var paceText: string
    var distanceText: string
    var lastKnownLocationCount: int

    constructor (tracker: LocatedTracker.Tracker, now: int)
      ensures this.tracker == tracker && this.now == now
      ensures updateDate == None && lastKnownLocationCount == 0
      ensures paceText == "—" && distanceText == "0.0 m"
    {
      this.tracker := tracker;
      this.now := now;
      updateDate := None;
      paceText := "—";
      distanceText := "0.0 m";
      lastKnownLocationCount := 0;
    }

    /** The indicator colour at the view's current `now`. */
    function Status(): Color
      reads this, tracker
    {
      StatusColor(|tracker.locations|, updateDate, now)
    }

    /** `tick()`: take the time, mirror the tracker's pace label, render the
        distance (0 when there are no locations) followed by " m", and only
        when the number of tracked locations differs from the last one seen
        stamp the update date and record the new count. */
    method Tick(clock: int, d: Metric, describe: real -> string)
      modifies this
      ensures now == clock
      ensures paceText == tracker.Pace(d)
      ensures distanceText ==
        describe(if tracker.locations == [] then 0.0 else PathLength(d, tracker.locations)) + " m"
      ensures |tracker.locations| != old(lastKnownLocationCount) ==>
        lastKnownLocationCount == |tracker.locations| && updateDate == Some(clock)
      ensures |tracker.locations| == old(lastKnownLocationCount) ==>
        lastKnownLocationCount == old(lastKnownLocationCount) && updateDate == old(updateDate)
      ensures |tracker.locations| > 0 && |tracker.locations| != old(lastKnownLocationCount) ==>
        Status() == Green
    {
      now := clock;
      paceText := tracker.Pace(d);
      var distance := Distance(d, tracker.locations);
      distanceText := describe(if distance.Some? then distance.value else 0.0) + " m";
      var currentCount := |tracker.locations|;
      if currentCount != lastKnownLocationCount {
        lastKnownLocationCount := currentCount;
        updateDate := Some(clock);
      }
    }
  }
}
