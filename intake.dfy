// The intake rules shared by both copies of LocationManager
// (Pacr/Controller/LocationManager.swift and
// Packages/Located/Sources/Located/LocationManager.swift) and the window
// closure shared by both copies of Tracker, stated as functions on values.
// The classes in the other modules are proved to follow these functions.
module Intake {
  import opened Fixes

  const MaxAccuracy: real := 50.0
  const MaxFutureSeconds: int := 5
  /** `recentLocations` keeps 30 seconds of fixes ... */
  const RecentMaxAge: int := 30
  /** ... and at most 200 of them. */
  const RecentMaxCount: nat := 200
  /** Tracker's `maxCount` and `maxAge`. */
  const WindowMaxCount: nat := 200
  const WindowMaxAge: int := 200

  predicate BadAccuracy(f: Fix) {
    f.horizontalAccuracy < 0.0 || f.horizontalAccuracy > MaxAccuracy
  }

  predicate FromFuture(f: Fix, now: int) {
    f.timestamp - now > MaxFutureSeconds
  }

  /** The filter of `didUpdateLocations` as written: a fix is skipped for bad
      accuracy, for a timestamp more than 5 s ahead, and for `speed >= 0`. */
  predicate Accepts(f: Fix, now: int) {
    !BadAccuracy(f) && !FromFuture(f, now) && !(f.speed >= 0.0)
  }

  /** The part of the filter that does not depend on the clock. */
  predicate PassedQuality(f: Fix) {
    !BadAccuracy(f) && f.speed < 0.0
  }

  /** `removeAll { $0.timestamp < cutoff }` as a value. */
  function DropOlderThan(s: seq<Fix>, cutoff: int): (r: seq<Fix>)
    ensures |r| <= |s|
    decreases |s|
  {
    if s == [] then []
    else
      DropOlderThan(s[..|s| - 1], cutoff) +
      (if s[|s| - 1].timestamp < cutoff then [] else [s[|s| - 1]])
  }

  lemma {:induction false} DropOlderThanMembers(s: seq<Fix>, cutoff: int)
    ensures forall x :: x in DropOlderThan(s, cutoff) <==> x in s && x.timestamp >= cutoff
    decreases |s|
  {
    if s != [] {
      DropOlderThanMembers(s[..|s| - 1], cutoff);
      assert s == s[..|s| - 1] + [s[|s| - 1]];
    }
  }

  lemma {:induction false} DropOlderThanSubseq(s: seq<Fix>, cutoff: int)
    ensures IsSubseq(DropOlderThan(s, cutoff), s)
    decreases |s|
  {
    if s != [] {
      var s' := s[..|s| - 1];
      var r := DropOlderThan(s, cutoff);
      DropOlderThanSubseq(s', cutoff);
      if s[|s| - 1].timestamp < cutoff {
        assert r == DropOlderThan(s', cutoff);
        SubseqExtend(r, s', s[|s| - 1]);
        assert s' + [s[|s| - 1]] == s;
      } else {
        assert r[..|r| - 1] == DropOlderThan(s', cutoff);
      }
    }
  }

  lemma {:induction false} DropOlderThanAppend(a: seq<Fix>, b: seq<Fix>, cutoff: int)
    ensures DropOlderThan(a + b, cutoff) == DropOlderThan(a, cutoff) + DropOlderThan(b, cutoff)
    decreases |b|
  {
    if b == [] {
      assert a + b == a;
    } else {
      var b' := b[..|b| - 1];
      assert (a + b)[..|a + b| - 1] == a + b';
      DropOlderThanAppend(a, b', cutoff);
    }
  }

  /** Nothing to drop when every fix is recent enough. */
  lemma {:induction false} DropOlderThanKeepsAll(s: seq<Fix>, cutoff: int)
    requires forall i :: 0 <= i < |s| ==> s[i].timestamp >= cutoff
    ensures DropOlderThan(s, cutoff) == s
    decreases |s|
  {
    if s != [] {
      DropOlderThanKeepsAll(s[..|s| - 1], cutoff);
    }
  }

  /** The pruning after an accepted insert: drop fixes older than
      now - 30 s, then keep the newest 200. */
  function Prune(recent: seq<Fix>, now: int): (r: seq<Fix>)
    ensures |r| <= RecentMaxCount
  {
    KeepNewest(DropOlderThan(recent, now - RecentMaxAge), RecentMaxCount)
  }

  /** Pruning twice at the same instant, with a fix appended in between, is
      pruning once. */
  lemma PruneAppend(x: seq<Fix>, f: Fix, now: int)
    ensures Prune(Prune(x, now) + [f], now) == Prune(x + [f], now)
  {
    var cutoff := now - RecentMaxAge;
    var y := DropOlderThan(x, cutoff);
    var k := KeepNewest(y, RecentMaxCount);
    DropOlderThanAppend(k, [f], cutoff);
    DropOlderThanMembers(x, cutoff);
    forall i | 0 <= i < |k| ensures k[i].timestamp >= cutoff {
      assert k[i] == y[|y| - |k| + i];
      assert y[|y| - |k| + i] in y;
    }
    DropOlderThanKeepsAll(k, cutoff);
    KeepNewestAppend(y, DropOlderThan([f], cutoff), RecentMaxCount);
    DropOlderThanAppend(x, [f], cutoff);
  }

  /** The manager's published buffers. */
  datatype IntakeState = IntakeState(last: Option<Fix>, recent: seq<Fix>, debug: seq<Fix>)

  const Empty := IntakeState(None, [], [])

  /** One iteration of the loop in `didUpdateLocations`: log the fix, and if
      it passes the filter make it the last location and insert it into the
      pruned rolling buffer. */
  function Step(st: IntakeState, f: Fix, now: int): IntakeState {
    var logged := st.(debug := st.debug + [f]);
    if Accepts(f, now) then logged.(last := Some(f), recent := Prune(st.recent + [f], now))
    else logged
  }

  /** The whole batch, one fix after the other. */
  function Ingest(st: IntakeState, batch: seq<Fix>, now: int): (r: IntakeState)
    ensures r.debug == st.debug + batch
    decreases |batch|
  {
    if batch == [] then st
    else Step(Ingest(st, batch[..|batch| - 1], now), batch[|batch| - 1], now)
  }

  /** Taking in one more fix of the batch is one more step. */
  lemma IngestNext(st: IntakeState, batch: seq<Fix>, i: nat, now: int)
    requires i < |batch|
    ensures Ingest(st, batch[..i + 1], now) == Step(Ingest(st, batch[..i], now), batch[i], now)
  {
    assert batch[..i + 1][..i] == batch[..i];
  }

  /** The fixes of a batch that pass the filter, in order. */
  function AcceptedFixes(batch: seq<Fix>, now: int): (a: seq<Fix>)
    ensures |a| <= |batch|
    decreases |batch|
  {
    if batch == [] then []
    else
      AcceptedFixes(batch[..|batch| - 1], now) +
      (if Accepts(batch[|batch| - 1], now) then [batch[|batch| - 1]] else [])
  }

  lemma {:induction false} AcceptedFixesMembers(batch: seq<Fix>, now: int)
    ensures forall x :: x in AcceptedFixes(batch, now) <==> x in batch && Accepts(x, now)
    decreases |batch|
  {
    if batch != [] {
      AcceptedFixesMembers(batch[..|batch| - 1], now);
      assert batch == batch[..|batch| - 1] + [batch[|batch| - 1]];
    }
  }

  /** What a batch does, in one formula: the log grows by the whole batch;
      if no fix passes, the rest is untouched; otherwise the last accepted
      fix becomes the last location and the buffer is the old buffer plus
      the accepted fixes, pruned once. */
  lemma {:induction false} IngestClosedForm(st: IntakeState, batch: seq<Fix>, now: int)
    ensures var r := Ingest(st, batch, now); var a := AcceptedFixes(batch, now);
      r.debug == st.debug + batch &&
      (a == [] ==> r.last == st.last && r.recent == st.recent) &&
      (a != [] ==> r.last == Some(a[|a| - 1]) && r.recent == Prune(st.recent + a, now))
    decreases |batch|
  {
    if batch != [] {
      var b' := batch[..|batch| - 1];
      var x := batch[|batch| - 1];
      IngestClosedForm(st, b', now);
      var prev := Ingest(st, b', now);
      var a' := AcceptedFixes(b', now);
      var a := AcceptedFixes(batch, now);
      var r := Ingest(st, batch, now);
      assert r == Step(prev, x, now);
      assert r.debug == st.debug + batch by {
        assert b' + [x] == batch;
        assert r.debug == prev.debug + [x];
      }
      if !Accepts(x, now) {
        assert a == a';
        assert r.last == prev.last && r.recent == prev.recent;
      } else {
        assert a == a' + [x];
        assert r.last == Some(x) && r.recent == Prune(prev.recent + [x], now);
        if a' == [] {
          assert a == [x];
        } else {
          PruneAppend(st.recent + a', x, now);
          assert st.recent + a' + [x] == st.recent + a;
        }
      }
    }
  }

  /** After a batch with an accepted fix, the buffer holds no fix older than
      now - 30 s and at most 200 fixes, all taken from the old buffer or the
      accepted fixes, in their order. */
  lemma IngestBufferBounds(st: IntakeState, batch: seq<Fix>, now: int)
    requires AcceptedFixes(batch, now) != []
    ensures var r := Ingest(st, batch, now);
      |r.recent| <= RecentMaxCount &&
      (forall x :: x in r.recent ==> x.timestamp >= now - RecentMaxAge) &&
      IsSubseq(r.recent, st.recent + AcceptedFixes(batch, now))
  {
    IngestClosedForm(st, batch, now);
    var all := st.recent + AcceptedFixes(batch, now);
    var y := DropOlderThan(all, now - RecentMaxAge);
    DropOlderThanMembers(all, now - RecentMaxAge);
    KeepNewestSubseq(y, RecentMaxCount);
    SubseqMembers(KeepNewest(y, RecentMaxCount), y);
    DropOlderThanSubseq(all, now - RecentMaxAge);
    if |y| > RecentMaxCount {
      SubseqDropPrefix(y, all, |y| - RecentMaxCount);
    }
  }

  /** Only fixes of the old buffer or accepted fixes of the batch are ever in
      the buffer or the last location. */
  lemma IngestOnlyAccepted(st: IntakeState, batch: seq<Fix>, now: int)
    ensures var r := Ingest(st, batch, now);
      (forall x :: x in r.recent ==> x in st.recent || (x in batch && Accepts(x, now))) &&
      (r.last == st.last || (r.last.Some? && r.last.value in batch && Accepts(r.last.value, now)))
  {
    IngestClosedForm(st, batch, now);
    var a := AcceptedFixes(batch, now);
    AcceptedFixesMembers(batch, now);
    if a != [] {
      var all := st.recent + a;
      DropOlderThanMembers(all, now - RecentMaxAge);
      var y := DropOlderThan(all, now - RecentMaxAge);
      KeepNewestSubseq(y, RecentMaxCount);
      SubseqMembers(KeepNewest(y, RecentMaxCount), y);
      assert a[|a| - 1] in a;
    }
  }

  /** A fix the filter rejects never reaches the buffer or the last location
      (unless an equal fix was already there). */
  lemma RejectedNeverEnters(st: IntakeState, batch: seq<Fix>, now: int, f: Fix)
    requires !Accepts(f, now) && f !in st.recent && st.last != Some(f)
    ensures f !in Ingest(st, batch, now).recent
    ensures Ingest(st, batch, now).last != Some(f)
  {
    IngestOnlyAccepted(st, batch, now);
  }

  /** Every fix in the buffer, and the last location, passed the accuracy and
      speed tests; the timestamp test depends on the clock of each batch. */
  ghost predicate QualityInvariant(st: IntakeState) {
    (forall x :: x in st.recent ==> PassedQuality(x)) &&
    (st.last.Some? ==> PassedQuality(st.last.value))
  }

  lemma IngestKeepsQuality(st: IntakeState, batch: seq<Fix>, now: int)
    requires QualityInvariant(st)
    ensures QualityInvariant(Ingest(st, batch, now))
  {
    IngestOnlyAccepted(st, batch, now);
  }

  /** One step keeps the quality invariant: the fix it may insert passed the
      filter, and pruning only removes fixes. */
  lemma StepKeepsQuality(st: IntakeState, f: Fix, now: int)
    requires QualityInvariant(st)
    ensures QualityInvariant(Step(st, f, now))
  {
    if Accepts(f, now) {
      var all := st.recent + [f];
      var y := DropOlderThan(all, now - RecentMaxAge);
      DropOlderThanMembers(all, now - RecentMaxAge);
      KeepNewestSubseq(y, RecentMaxCount);
      SubseqMembers(KeepNewest(y, RecentMaxCount), y);
    }
  }

  /** Tracker's window closure: the newest 200 entries of a snapshot of the
      debug log, minus those older than now - 200 s. */
  function TrackerWindow(all: seq<Fix>, now: int): (w: seq<Fix>)
    ensures |w| <= WindowMaxCount
  {
    DropOlderThan(KeepNewest(all, WindowMaxCount), now - WindowMaxAge)
  }

  /** The window holds at most 200 fixes, each from the newest 200 of the
      snapshot and not older than the cutoff (a fix exactly at the cutoff
      stays), in the snapshot's order. */
  lemma TrackerWindowProperties(all: seq<Fix>, now: int)
    ensures var w := TrackerWindow(all, now);
      |w| <= WindowMaxCount &&
      (forall x :: x in w <==> x in KeepNewest(all, WindowMaxCount) && x.timestamp >= now - WindowMaxAge) &&
      IsSubseq(w, all)
  {
    var cutoff := now - WindowMaxAge;
    var k := KeepNewest(all, WindowMaxCount);
    var w := DropOlderThan(k, cutoff);
    DropOlderThanMembers(k, cutoff);
    assert IsSubseq(w, all) by {
      DropOlderThanSubseq(k, cutoff);
      assert k == all[|all| - |k|..];
      SubseqTransitiveToSuffix(w, all, |all| - |k|);
    }
  }

  /** A subsequence of a suffix is a subsequence of the whole. */
  lemma {:induction false} SubseqTransitiveToSuffix(a: seq<Fix>, b: seq<Fix>, k: nat)
    requires k <= |b| && IsSubseq(a, b[k..])
    ensures IsSubseq(a, b)
    decreases |b|
  {
    if k > 0 {
      var b' := b[..|b| - 1];
      if a != [] && k < |b| {
        assert b[k..][..|b[k..]| - 1] == b'[k..];
        if a[|a| - 1] == b[|b| - 1] {
          SubseqTransitiveToSuffix(a[..|a| - 1], b', k);
        } else {
          SubseqTransitiveToSuffix(a, b', k);
        }
      }
    } else {
      assert b[0..] == b;
    }
  }

  /** The window is drawn from the unfiltered log: a fix the filter rejects
      (accuracy 100 m) is not buffered, yet it is in the tracker's window. */
  lemma WindowIncludesRejectedFix(now: int)
    ensures var f := Fix(0.0, 0.0, 0.0, 100.0, -1.0, now);
      var r := Ingest(Empty, [f], now);
      !Accepts(f, now) && r.recent == [] && r.last == None &&
      TrackerWindow(r.debug, now) == [f]
  {
    var f := Fix(0.0, 0.0, 0.0, 100.0, -1.0, now);
    assert [f][..0] == [];
  }

  /** The speed test with its comparison turned round: skip a fix whose
      reported speed is negative (invalid), keep one with a valid speed. */
  predicate AcceptsCorrected(f: Fix, now: int) {
    !BadAccuracy(f) && !FromFuture(f, now) && !(f.speed < 0.0)
  }

  /** As written, a precise, current fix of a runner moving at 3 m/s is
      rejected, and only a fix without a valid speed gets through. */
  lemma SpeedFilterRejectsMovingFix(now: int)
    ensures var f := Fix(52.0, 4.0, 0.0, 5.0, 3.0, now);
      !Accepts(f, now) && AcceptsCorrected(f, now)
    ensures var g := Fix(52.0, 4.0, 0.0, 5.0, -1.0, now);
      Accepts(g, now) && !AcceptsCorrected(g, now)
  {
  }

  /** The corrected filter accepts exactly the fixes with valid accuracy, a
      timestamp at most 5 s ahead and a valid (non-negative) speed; the
      filter as written accepts exactly the same fixes but with the speed
      test inverted. */
  lemma CorrectedFilterMeaning(f: Fix, now: int)
    ensures AcceptsCorrected(f, now) <==>
      0.0 <= f.horizontalAccuracy <= 50.0 && f.timestamp <= now + 5 && f.speed >= 0.0
    ensures Accepts(f, now) <==>
      0.0 <= f.horizontalAccuracy <= 50.0 && f.timestamp <= now + 5 && f.speed < 0.0
    ensures !(Accepts(f, now) && AcceptsCorrected(f, now))
  {
  }
}
