# Pacr GPS-fix intake and metrics, in Dafny

Pacr is an iOS running app. This project models its GPS pipeline:

- how `LocationManager` takes in a batch of CoreLocation fixes;
- the two rolling buffers it keeps (the uncapped `debugLocations` log and the filtered, pruned `recentLocations`);
- the `Tracker` window derived from the log, and its pace label;
- the pace, distance and pace-format helpers;
- the GPX 1.1 writer;
- the small rules of the two SwiftUI screens (`statusColor`, `relativeTimeString`, `mapRegion`, `tick`).

Both copies of the manager and the tracker are modelled: the app's (`Pacr/Controller`) and the `Located` package's.

Conventions:

- Timestamps are whole seconds. The clock (`Date()`) is a parameter `now`.
- Coordinates, accuracy, speed and pace are `real`.
- `CLLocation.distance(from:)` is an abstract non-negative `Metric`.
- The Foundation formatters are function parameters: `%.6f`, ISO 8601, and the description of a `Double`.
- The main-actor task that updates the buffer runs synchronously, right after the filter.
- The Combine subscription of the tracker re-derives the window each time the log changes.

Files and modules:

| file | module | what it holds |
|---|---|---|
| `fixes.dfy` | `Fixes` | the fix, the metric, the authorization status, the subsequence relation, "keep the newest n" |
| `text.dfy` | `Text` | decimal rendering of integers (`\(n)`, `%02d`) and a digit parser |
| `metrics.dfy` | `Metrics` | `distance`, `pace(windowSeconds:)`, `formatPace`, `paceMinutesPerKilometer` |
| `intake.dfy` | `Intake` | the intake filter, the buffer pruning, the batch as a fold, the tracker window |
| `pacr_location_manager.dfy`, `located_location_manager.dfy` | | the two manager classes |
| `pacr_tracker.dfy`, `located_tracker.dfy` | | the two tracker classes |
| `joining.dfy` | `Joining` | blocks written one after another, and where each block lands |
| `gpx.dfy` | `Gpx` | `makeGPX` and `fmt` |
| `status_display.dfy` | `StatusDisplay` | `statusColor` and `relativeTimeString`, which are identical in both views |
| `location_view.dfy` | `LocationViewModel` | `mapRegion` and the view's `tick` |
| `content_view.dfy` | `ContentViewModel` | `ContentView`'s `tick` |

The imperative parts are methods, proved against specification functions. The managers, trackers and views are classes; `distance`, `pace` and `makeGPX` are module-level methods. The methods cover:

- the delegate loop that appends to `debugLocations` and prunes `recentLocations`;
- the accumulating loops of `distance` and `pace`;
- the `xml +=` loop of `makeGPX`;
- the views' `tick`.

The app and the `Located` package share the same intake and window rules. Each rule is defined once in `Intake` and used by both classes.

## Model

| member | source | states |
|---|---|---|
| Fixes.KeepNewest | Pacr/Controller/Tracker.swift:29 | `suffix(n)`: the last min(n, count) elements, in order |
| Fixes.KeepNewestSubseq | Pacr/Controller/Tracker.swift:29 | the kept suffix is an order-preserving subsequence of the input |
| Fixes.KeepNewestAppend | Pacr/Controller/LocationManager.swift:88-90 | trimming to the newest n before appending and trimming again equals trimming once after appending |
| Fixes.SubseqMembers | Pacr/Controller/Tracker.swift:27-33 | every element of a subsequence is an element of the sequence |
| Fixes.SubseqDropPrefix | Pacr/Controller/LocationManager.swift:89 | dropping the first k elements of a subsequence leaves a subsequence |
| Fixes.SubseqExtend | Pacr/Controller/LocationManager.swift:74 | a subsequence stays one when the sequence grows at the end |
| Fixes.SubseqDropLast | Pacr/Controller/LocationManager.swift:87 | removing the last element of a subsequence leaves a subsequence |
| Fixes.SubseqReflexive | Pacr/Controller/Tracker.swift:29 | a sequence is a subsequence of itself |
| Text.NatToString | Pacr/UI/LocationView.swift:336-340 | `"\(n)"` of a non-negative count: at least one character (digits and read-back in NatToStringRoundTrip) |
| Text.IntToString | Pacr/UI/LocationView.swift:336 | `"\(seconds)"` of any Int: non-empty, and it starts with '-' exactly when the value is negative |
| Text.Pad2 | Pacr/Utils/Extensions.swift:51 | `%02d`: never fewer than two characters |
| Text.NatToStringRoundTrip | Pacr/UI/LocationView.swift:336-340 | `"\(n)"` is all digits, parses back to n, and is one character exactly when n < 10 |
| Text.Pad2RoundTrip | Pacr/Utils/Extensions.swift:51 | `%02d` of 0..99 is exactly two digits that parse back to the value |
| Text.Pad2SecondIsDigit | Pacr/Utils/Extensions.swift:51 | whatever the value, a `%02d` field has at least two characters and the second is a digit |
| Metrics.PathLength | Pacr/Utils/Extensions.swift:56-64 | the sum of consecutive distances is never negative |
| Metrics.PathLengthAppend | Pacr/Utils/Extensions.swift:58-60 | appending a fix adds exactly its distance from the previous last fix |
| Metrics.DistanceNonDecreasing | Pacr/Utils/Extensions.swift:56-64 | appending a fix never decreases the distance |
| Metrics.Distance | Pacr/Utils/Extensions.swift:56-64 | the loop returns nil exactly for no fixes, otherwise the path length (0 for one fix) |
| Metrics.PaceWindow | Pacr/Utils/Extensions.swift:27 | the filter closure of `pace`: never longer than the array |
| Metrics.PaceWindowMembers | Pacr/Utils/Extensions.swift:27 | a fix is in the pace window iff it is in the array and at most `windowSeconds` before the last fix |
| Metrics.PaceWindowSubseq | Pacr/Utils/Extensions.swift:27 | the window keeps the array's order (it is a subsequence) |
| Metrics.PaceWindowEndsWithLast | Pacr/Utils/Extensions.swift:24-27 | for a non-negative window the last fix is always in the window, as its last element |
| Metrics.PaceOf | Pacr/Utils/Extensions.swift:23-41 | nil for an empty array; any pace returned is strictly positive |
| Metrics.Pace | Pacr/Utils/Extensions.swift:23-41 | the accumulating loop computes exactly `PaceOf` |
| Metrics.PaceMeaning | Pacr/Utils/Extensions.swift:28-40 | a pace exists iff the window has at least 2 fixes, positive distance and positive duration; then pace × 60 × km covered equals the duration |
| Metrics.PaceNeedsTwoFixes | Pacr/Utils/Extensions.swift:27-28 | a single fix never has a pace, whatever the window |
| Metrics.PaceMinutes | Pacr/Utils/Extensions.swift:49 | `Int(p)`: for p ≥ 0 the whole minutes, m ≤ p < m + 1 |
| Metrics.PaceSeconds | Pacr/Utils/Extensions.swift:50 | `Int((p - minutes) * 60)`: the leftover whole seconds (range in PaceSecondsInRange) |
| Metrics.FormatPace | Pacr/Utils/Extensions.swift:47-52 | every label has at least 9 characters and ends in ` /km` (exact layout in FormatPaceTruncates) |
| Metrics.TruncToInt | Pacr/Utils/Extensions.swift:49-50 | `Int(x)` truncates toward zero |
| Metrics.PaceSecondsInRange | Pacr/Utils/Extensions.swift:49-50 | for p ≥ 0 the seconds field lies in 0..59 |
| Metrics.FormatPaceTruncates | Pacr/Utils/Extensions.swift:47-52 | for 0 ≤ p with minutes < 100 the label is `MM:SS /km`; the fields read back as m and s with m·60+s ≤ 60p < m·60+s+1 (truncated, not rounded) |
| Metrics.FormatPacePlaceholderIff | Pacr/Utils/Extensions.swift:48 | the placeholder `--:-- /km` appears iff the pace is nil or not finite |
| Metrics.FormatPaceExamples | Packages/Located/Tests/LocatedTests/LocatedTests.swift:5-11 | `formatPace(4.75) == "04:45 /km"` and `formatPace(nil) == "--:-- /km"` |
| Metrics.ThreeFixScenario | Pacr/Utils/Extensions.swift:23-64 | three fixes 5 s and 100 m apart: distance 200 m, pace 50/60 min/km, label `00:50 /km` |
| Metrics.PaceMinutesPerKilometer | Pacr/Utils/Extensions.swift:10-15 | never nil; non-finite exactly for zero speed; otherwise pace × speed × 60 = 1000 |
| Intake.Accepts | Pacr/Controller/LocationManager.swift:76-80 | the filter as written: accuracy within 0..50, timestamp at most 5 s ahead, and `speed < 0` (characterised in CorrectedFilterMeaning) |
| Intake.DropOlderThan | Pacr/Controller/LocationManager.swift:86-87 | removing old fixes never lengthens the buffer |
| Intake.DropOlderThanMembers | Pacr/Controller/LocationManager.swift:86-87 | a fix survives iff it was there and its timestamp is not below the cutoff |
| Intake.DropOlderThanSubseq | Pacr/Controller/LocationManager.swift:87 | `removeAll` keeps the survivors in order |
| Intake.DropOlderThanAppend | Pacr/Controller/LocationManager.swift:87 | age pruning distributes over concatenation |
| Intake.DropOlderThanKeepsAll | Pacr/Controller/LocationManager.swift:87 | nothing is removed when every fix is recent enough |
| Intake.Prune | Pacr/Controller/LocationManager.swift:86-90 | after pruning the buffer holds at most 200 fixes |
| Intake.PruneAppend | Packages/Located/Sources/Located/LocationManager.swift:70-75 | pruning after each insert equals pruning once after all inserts (same `now`) |
| Intake.Step | Pacr/Controller/LocationManager.swift:73-91 | one iteration: log the fix; if it passes, make it `lastLocation` and insert it into the pruned buffer |
| Intake.Ingest | Pacr/Controller/LocationManager.swift:67-93 | the batch, fix by fix: the log becomes the old log followed by the whole batch, whatever the filter says |
| Intake.AcceptedFixes | Pacr/Controller/LocationManager.swift:73-80 | the fixes of the batch that pass, in order; never more than the batch |
| Intake.AcceptedFixesMembers | Pacr/Controller/LocationManager.swift:76-80 | a fix is accepted iff it is in the batch and passes the three tests |
| Intake.IngestClosedForm | Pacr/Controller/LocationManager.swift:67-93 | a batch appends all its fixes to the log; with no accepted fix nothing else changes, otherwise the last accepted fix becomes `lastLocation` and the buffer is the old buffer plus the accepted fixes, pruned |
| Intake.IngestBufferBounds | Pacr/Controller/LocationManager.swift:83-90 | after an accepted insert the buffer holds at most 200 fixes, none older than now − 30, in order, drawn from the old buffer and the accepted fixes |
| Intake.IngestOnlyAccepted | Packages/Located/Sources/Located/LocationManager.swift:64-70 | only old entries or accepted fixes of the batch reach the buffer or `lastLocation` |
| Intake.RejectedNeverEnters | Pacr/Controller/LocationManager.swift:76-80 | a rejected fix (bad accuracy, more than 5 s ahead, or `speed >= 0`) never reaches the buffer or `lastLocation` |
| Intake.IngestKeepsQuality | Packages/Located/Sources/Located/LocationManager.swift:64-66 | every buffered fix and the last location keep having valid accuracy and a negative speed |
| Intake.StepKeepsQuality | Pacr/Controller/LocationManager.swift:73-91 | one iteration of the loop keeps every buffered fix and the last location within the accuracy and speed rules |
| Intake.TrackerWindow | Pacr/Controller/Tracker.swift:28-35 | the window closure: newest 200 of the log, minus fixes older than now − 200; at most 200 fixes |
| Intake.TrackerWindowProperties | Pacr/Controller/Tracker.swift:28-35 | the window has at most 200 fixes; a fix is in it iff it is among the newest 200 of the log and not below now − 200 (a fix at the cutoff stays); it is a subsequence of the log |
| Intake.SubseqTransitiveToSuffix | Packages/Located/Sources/Located/Tracker.swift:22-27 | a subsequence of a suffix of the log is a subsequence of the log |
| Intake.WindowIncludesRejectedFix | Pacr/Controller/Tracker.swift:27-33 | a fix with accuracy 100 m stays out of the buffer but is in the tracker's window, which reads the unfiltered log |
| Intake.SpeedFilterRejectsMovingFix | Pacr/Controller/LocationManager.swift:80 | as written, a precise current fix moving at 3 m/s is rejected and a fix with speed −1 is accepted |
| Intake.CorrectedFilterMeaning | Pacr/Controller/LocationManager.swift:76-80 | the corrected filter accepts exactly valid accuracy, at most 5 s ahead and speed ≥ 0; the written one accepts the same but with speed < 0; no fix passes both |
| PacrLocationManager.LocationManager.constructor | Pacr/Controller/LocationManager.swift:16-23 | starts not determined, not updating, with no last location and empty buffers |
| PacrLocationManager.LocationManager.Start | Pacr/Controller/LocationManager.swift:43-45 | updates are on; the buffers are unchanged |
| PacrLocationManager.LocationManager.Stop | Pacr/Controller/LocationManager.swift:47-49 | updates are off; the buffers are unchanged |
| PacrLocationManager.LocationManager.Reset | Pacr/Controller/LocationManager.swift:51-55 | `lastLocation` is nil and both buffers are empty; status and updating are unchanged |
| PacrLocationManager.LocationManager.DidChangeAuthorization | Pacr/Controller/LocationManager.swift:58-65 | records the status; updates start iff the status is when-in-use or always, otherwise they stay as they were |
| PacrLocationManager.LocationManager.InsertAccepted | Pacr/Controller/LocationManager.swift:82-91 | the accepted fix becomes `lastLocation`; the buffer becomes the old buffer plus the fix, pruned by age then count; the log is unchanged |
| PacrLocationManager.LocationManager.DidUpdateLocations | Pacr/Controller/LocationManager.swift:67-93 | the loop leaves the state `Ingest(old state, batch, now)`; an empty batch changes nothing; at most 200 buffered fixes, all with valid accuracy and speed < 0 |
| LocatedLocationManager.LocationManager.constructor | Packages/Located/Sources/Located/LocationManager.swift:11-28 | as in the app copy |
| LocatedLocationManager.LocationManager.Start | Packages/Located/Sources/Located/LocationManager.swift:34-36 | as in the app copy |
| LocatedLocationManager.LocationManager.Stop | Packages/Located/Sources/Located/LocationManager.swift:38-40 | as in the app copy |
| LocatedLocationManager.LocationManager.Reset | Packages/Located/Sources/Located/LocationManager.swift:42-46 | as in the app copy |
| LocatedLocationManager.LocationManager.DidChangeAuthorization | Packages/Located/Sources/Located/LocationManager.swift:48-55 | as in the app copy |
| LocatedLocationManager.LocationManager.InsertAccepted | Packages/Located/Sources/Located/LocationManager.swift:68-76 | as in the app copy |
| LocatedLocationManager.LocationManager.DidUpdateLocations | Packages/Located/Sources/Located/LocationManager.swift:57-78 | as in the app copy: the state after the loop is `Ingest(old state, batch, now)` |
| PacrTracker.Tracker.constructor | Pacr/Controller/Tracker.swift:21-23 | no subscription and an empty window |
| PacrTracker.Tracker.Start | Pacr/Controller/Tracker.swift:25-39 | subscribes; the window is the log's newest 200 fixes not below now − 200; updates are not restarted |
| PacrTracker.Tracker.Deliver | Pacr/Controller/Tracker.swift:27-38 | the manager ingests the batch; a subscribed tracker's window is re-derived from the new log; an empty batch changes nothing |
| PacrTracker.Tracker.Stop | Pacr/Controller/Tracker.swift:41-44 | updates are off, the manager's buffers are empty and the window is empty |
| PacrTracker.Tracker.Reset | Pacr/Controller/Tracker.swift:46-48 | the buffers and the window are empty; updates keep running |
| PacrTracker.Tracker.Pace | Pacr/Controller/Tracker.swift:50-57 | the label is the placeholder exactly when the 12-second pace of the window is nil |
| LocatedTracker.Tracker.constructor | Packages/Located/Sources/Located/Tracker.swift:14-16 | as in the app copy |
| LocatedTracker.Tracker.Start | Packages/Located/Sources/Located/Tracker.swift:18-34 | as in the app copy, and updates are restarted with the buffers unchanged |
| LocatedTracker.Tracker.Deliver | Packages/Located/Sources/Located/Tracker.swift:22-33 | as in the app copy |
| LocatedTracker.Tracker.Stop | Packages/Located/Sources/Located/Tracker.swift:36-39 | as in the app copy |
| LocatedTracker.Tracker.Reset | Packages/Located/Sources/Located/Tracker.swift:41-43 | as in the app copy |
| LocatedTracker.Tracker.Pace | Packages/Located/Sources/Located/Tracker.swift:45-50 | as in the app copy |
| Gpx.ReplaceCommas | Pacr/Utils/GPXWriter.swift:31 | same length; every comma becomes a point and every other character stays |
| Gpx.Fmt | Pacr/Utils/GPXWriter.swift:29-33 | the number text never contains a comma and differs from `%.6f` only where that had a comma |
| Joining.ConcatAppend | Pacr/Utils/GPXWriter.swift:48-55 | writing two runs of blocks one after the other is writing their concatenation |
| Joining.BlockAt | Pacr/Utils/GPXWriter.swift:48-55 | block i sits between the blocks before it and the blocks after it |
| Gpx.Header | Pacr/Utils/GPXWriter.swift:35-46 | the XML declaration, the `<gpx>` element, metadata with the track name and first time, and the opening `<trk>`/`<trkseg>`, byte for byte |
| Gpx.TrackPoint | Pacr/Utils/GPXWriter.swift:49-54 | one `<trkpt>` block with the fix's lat, lon, ele and time |
| Gpx.Document | Pacr/Utils/GPXWriter.swift:35-61 | header, the blocks in input order, and the closing `</trkseg></trk></gpx>` footer (layout in DocumentLayout) |
| Gpx.DocumentLayout | Pacr/Utils/GPXWriter.swift:35-61 | the document is the header (track name twice, time of the first fix), the blocks in input order with location i's lat/lon/ele/time at position i, then the footer |
| Gpx.MakeGpx | Pacr/Utils/GPXWriter.swift:21-68 | throws `GPXWriter` code −1 iff there are no locations; otherwise the loop builds exactly the document |
| StatusDisplay.StatusColor | Pacr/UI/LocationView.swift:321-332 | red exactly when there are no locations; green iff there are locations, an update date, and at most 5 s since it; orange otherwise |
| StatusDisplay.StatusStaysStale | Pacr/UI/ContentView.swift:257-268 | once orange, the colour stays orange as time passes without an update |
| StatusDisplay.RelativeTimeString | Pacr/UI/LocationView.swift:334-341 | every label is a count and a unit followed by ` ago` (buckets in RelativeTimeBuckets) |
| StatusDisplay.RelativeTimeBuckets | Pacr/UI/LocationView.swift:334-341 | s < 60 gives `<s>s ago`, 60 ≤ s < 3600 gives `<s div 60>m ago`, otherwise `<s div 3600>h ago` |
| StatusDisplay.RelativeTimeReadsBack | Pacr/UI/ContentView.swift:270-277 | for a past date the label parses back to a count k and a unit with k units ≤ elapsed < k + 1 units |
| LocationViewModel.MinOf | Pacr/UI/LocationView.swift:373-380 | `min()` is an element no larger than any element |
| LocationViewModel.MaxOf | Pacr/UI/LocationView.swift:373-380 | `max()` is an element no smaller than any element |
| LocationViewModel.MapRegion | Pacr/UI/LocationView.swift:361-395 | a region exactly when there are locations, each span at least 0.002° |
| LocationViewModel.MapRegionShowsAll | Pacr/UI/LocationView.swift:361-395 | any non-empty track has a region, each span is at least 0.002°, and every location lies inside it |
| LocationViewModel.LocationView.constructor | Pacr/UI/LocationView.swift:15-27 | starting state: `—`, `0 m`, count 0, no update date, automatic camera |
| LocationViewModel.LocationView.UpdatePace | Pacr/UI/LocationView.swift:397-401 | the pace label mirrors the tracker's; the distance label is the distance (0 when none) followed by ` m` |
| LocationViewModel.LocationView.UpdateMapPosition | Pacr/UI/LocationView.swift:356-359 | the camera moves to the track's region when there is one, else stays |
| LocationViewModel.LocationView.Tick | Pacr/UI/LocationView.swift:343-354 | refreshes the labels; only when the count changed does it record the count, stamp the update date and move the camera; after such a change, when the track is non-empty, the indicator is green |
| ContentViewModel.ContentView.constructor | Pacr/UI/ContentView.swift:14-25 | starting state: `—`, `0.0 m`, count 0, no update date |
| ContentViewModel.ContentView.Tick | Pacr/UI/ContentView.swift:279-291 | the pace label mirrors the tracker's, the distance label is the distance (0 when none) plus ` m`; the update date and count change only when the count changed, and then, when the track is non-empty, the indicator is green |

## Left out

- Requesting authorization, configuring `CLLocationManager`, and the delegate hookup are foreign calls. `startUpdatingLocation` and `stopUpdatingLocation` become the `updating` flag.
- The `Located` initializer's configurator closure is a foreign call and is not modelled.
- `didFailWithError`, every `print`, and the `didSet` on `lastLocation` only log, so they are not modelled.
- Concurrency is not modelled:
  - `DispatchQueue.main.async` and `Task { @MainActor }` run at once.
  - Batches and ticks do not interleave.
  - One `now` serves a whole batch.
  - The Combine subscription is modelled by re-deriving the tracker's window after each change of the log that goes through the tracker. When the log changes several times within one batch, only the window for the final log is kept.
- The `removeAll(where:)` and `removeFirst` calls on `recentLocations` are modelled as reassignments of a `seq` field, not as in-place array updates.
- Geodesic distance, `String(format: "%.6f")`, the ISO 8601 formatter and the description of a `Double` are abstract parameters. The model shows how they are composed, not the characters they produce.
- Floating point is modelled as exact reals:
  - Rounding and NaN arithmetic are not modelled, beyond the finite/non-finite split that `formatPace` needs.
  - The trap of `Int(p)` on values out of range is not modelled.
  - Timestamps are whole seconds.
- Metrics.FormatPaceTruncates: states the layout only for minutes < 100. Larger or negative values widen the `%02d` fields. `Text.Pad2` models those fields for every value.
- Metrics.PaceMinutesPerKilometer: does not claim the doc comment's "nil when speed is invalid". The code never returns nil; it divides by the speed.
- `writeGPXFile` (file I/O) and the UTF-8 encoding failure of `makeGPX` (code −2) are not modelled. Encoding a Swift string as UTF-8 does not fail.
- The SwiftUI layout, the GPX share sheet and the timer that calls `tick` every 0.5 s are presentation and wiring. The `isTracking` flag of the buttons is not modelled either.
- Packages/Located/Sources/Located/Formatters.swift and Package.swift are not part of this model.
- Facts of the code that the model keeps as they are:
  - `debugLocations` is appended to for every fix and never capped; only `reset` empties it (Pacr/Controller/LocationManager.swift:74).
  - The tracker's window is taken from `debugLocations`, the unfiltered log, not from `recentLocations` (Pacr/Controller/Tracker.swift:27-29).
  - The comment at Pacr/Controller/LocationManager.swift:85 says "up to 100 samples", but the code keeps 200.
- The default argument `windowSeconds = 15` of `pace` is not modelled (Pacr/Utils/Extensions.swift:23). `Metrics.PaceOf` and `Metrics.Pace` take the window as a plain parameter, and both trackers pass 12 s.

## Findings

| source | as written | input that shows it | evidently intended | confidence | as-written member | corrected member |
|---|---|---|---|---|---|---|
| Pacr/Controller/LocationManager.swift:80 (and Packages/Located/Sources/Located/LocationManager.swift:66) | `if loc.speed >= 0 { continue }` skips every fix that has a valid speed, so only fixes with an invalid (negative) speed are buffered | a current fix with accuracy 5 m and speed 3 m/s is rejected; the same fix with speed −1 is accepted | skip only invalid speeds (`speed < 0`), as the comment "Ignore invalid speeds" says | high; not executed | Intake.SpeedFilterRejectsMovingFix | Intake.CorrectedFilterMeaning |

The intake (`Intake.Accepts`, and both managers through `Ingest`) keeps the rule as written, so the model describes what the app does today. The corrected rule is `Intake.AcceptsCorrected`. `Intake.CorrectedFilterMeaning` proves that it accepts exactly the fixes with valid accuracy, a current timestamp and a valid speed.
