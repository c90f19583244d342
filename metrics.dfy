// Pacr/Utils/Extensions.swift: pace over a trailing window, path length of a
// track, the "MM:SS /km" rendering, and the per-fix pace from reported speed.
module Metrics {
  import opened Fixes
  import opened Text

  /** What every pace label shows when there is no pace to show. */
  const NoPace := "--:-- /km"

  /** Sum of the distances between consecutive fixes, each measured as
      `s[i].distance(from: s[i-1])`. */
  function PathLength(d: Metric, s: seq<Fix>): (r: real)
    ensures r >= 0.0
    decreases |s|
  {
    if |s| < 2 then 0.0 else PathLength(d, s[..|s| - 1]) + d(s[|s| - 1], s[|s| - 2])
  }

  /** Appending a fix adds exactly the leg from the previous last fix. */
  lemma PathLengthAppend(d: Metric, s: seq<Fix>, x: Fix)
    ensures PathLength(d, s + [x]) ==
      PathLength(d, s) + (if s == [] then 0.0 else d(x, s[|s| - 1]))
  {
    assert (s + [x])[..|s|] == s;
  }

  /** Total distance never shrinks when a fix is appended. */
  lemma DistanceNonDecreasing(d: Metric, s: seq<Fix>, x: Fix)
    ensures PathLength(d, s + [x]) >= PathLength(d, s)
  {
    PathLengthAppend(d, s, x);
  }

  /** `Array.distance`: nil for no fixes, otherwise the path length (0 for a
      single fix). */
  method Distance(d: Metric, s: seq<Fix>) returns (r: Option<real>)
    ensures r.None? <==> s == []
    ensures r.Some? ==> r.value == PathLength(d, s)
  {
    if |s| == 0 {
      return None;
    }
    var distance := 0.0;
    for i := 1 to |s|
      invariant distance == PathLength(d, s[..i])
    {
      assert s[..i + 1][..i] == s[..i];
      distance := distance + d(s[i], s[i - 1]);
    }
    assert s[..|s|] == s;
    return Some(distance);
  }

  /** The fixes of `s` at most `windowSeconds` older than `lastTime`, in order:
      `self.filter { last.timestamp.timeIntervalSince($0.timestamp) <= windowSeconds }`. */
  function PaceWindow(s: seq<Fix>, lastTime: int, windowSeconds: int): (w: seq<Fix>)
    ensures |w| <= |s|
    decreases |s|
  {
    if s == [] then []
    else
      PaceWindow(s[..|s| - 1], lastTime, windowSeconds) +
      (if lastTime - s[|s| - 1].timestamp <= windowSeconds then [s[|s| - 1]] else [])
  }

  lemma {:induction false} PaceWindowMembers(s: seq<Fix>, lastTime: int, windowSeconds: int)
    ensures forall x :: x in PaceWindow(s, lastTime, windowSeconds) <==>
      x in s && lastTime - x.timestamp <= windowSeconds
    decreases |s|
  {
    if s != [] {
      PaceWindowMembers(s[..|s| - 1], lastTime, windowSeconds);
      assert s == s[..|s| - 1] + [s[|s| - 1]];
    }
  }

  lemma {:induction false} PaceWindowSubseq(s: seq<Fix>, lastTime: int, windowSeconds: int)
    ensures IsSubseq(PaceWindow(s, lastTime, windowSeconds), s)
    decreases |s|
  {
    if s != [] {
      var s' := s[..|s| - 1];
      var w := PaceWindow(s, lastTime, windowSeconds);
      PaceWindowSubseq(s', lastTime, windowSeconds);
      if lastTime - s[|s| - 1].timestamp <= windowSeconds {
        assert w[..|w| - 1] == PaceWindow(s', lastTime, windowSeconds);
      } else {
        assert w == PaceWindow(s', lastTime, windowSeconds);
        SubseqExtend(w, s', s[|s| - 1]);
        assert s' + [s[|s| - 1]] == s;
      }
    }
  }

  /** For a non-negative window the newest fix always closes the window. */
  lemma PaceWindowEndsWithLast(s: seq<Fix>, windowSeconds: int)
    requires s != [] && windowSeconds >= 0
    ensures var w := PaceWindow(s, s[|s| - 1].timestamp, windowSeconds);
      w != [] && w[|w| - 1] == s[|s| - 1]
  {
  }

  /** `Array.pace(windowSeconds:)` as a value: nil without a newest fix, with
      fewer than two fixes in the window, or without positive distance and
      duration; otherwise minutes per kilometer. */
  function PaceOf(d: Metric, s: seq<Fix>, windowSeconds: int): (r: Option<real>)
    ensures s == [] ==> r == None
    ensures r.Some? ==> r.value > 0.0
  {
    if s == [] then None
    else
      var w := PaceWindow(s, s[|s| - 1].timestamp, windowSeconds);
      if |w| < 2 then None
      else
        var distance := PathLength(d, w);
        var duration := (w[|w| - 1].timestamp - w[0].timestamp) as real;
        if distance > 0.0 && duration > 0.0 then Some((duration / (distance / 1000.0)) / 60.0)
        else None
  }

  /** `Array.pace(windowSeconds:)`: windows the fixes, then accumulates the
      distance over consecutive pairs. */
  method Pace(d: Metric, s: seq<Fix>, windowSeconds: int) returns (r: Option<real>)
    ensures r == PaceOf(d, s, windowSeconds)
  {
    if |s| == 0 {
      return None;
    }
    var last := s[|s| - 1];
    var filtered := PaceWindow(s, last.timestamp, windowSeconds);
    if |filtered| < 2 {
      return None;
    }
    var distance := 0.0;
    for i := 1 to |filtered|
      invariant distance == PathLength(d, filtered[..i])
    {
      assert filtered[..i + 1][..i] == filtered[..i];
      distance := distance + d(filtered[i], filtered[i - 1]);
    }
    assert filtered[..|filtered|] == filtered;
    var duration := (filtered[|filtered| - 1].timestamp - filtered[0].timestamp) as real;
    if !(distance > 0.0 && duration > 0.0) {
      return None;
    }
    var secondsPerKm := duration / (distance / 1000.0);
    return Some(secondsPerKm / 60.0);
  }

  /** A pace exists exactly when the window holds two fixes spanning positive
      distance and time, and then pace times kilometers covered is the
      window's duration in minutes. */
  lemma PaceMeaning(d: Metric, s: seq<Fix>, windowSeconds: int)
    requires s != []
    ensures var w := PaceWindow(s, s[|s| - 1].timestamp, windowSeconds);
      PaceOf(d, s, windowSeconds).Some? <==>
        (|w| >= 2 && PathLength(d, w) > 0.0 && w[|w| - 1].timestamp > w[0].timestamp)
    ensures var w := PaceWindow(s, s[|s| - 1].timestamp, windowSeconds);
      PaceOf(d, s, windowSeconds).Some? ==>
        PaceOf(d, s, windowSeconds).value * 60.0 * (PathLength(d, w) / 1000.0) ==
        (w[|w| - 1].timestamp - w[0].timestamp) as real
  {
    var w := PaceWindow(s, s[|s| - 1].timestamp, windowSeconds);
    if PaceOf(d, s, windowSeconds).Some? {
      var km := PathLength(d, w) / 1000.0;
      var duration := (w[|w| - 1].timestamp - w[0].timestamp) as real;
      var p := PaceOf(d, s, windowSeconds).value;
      assert km > 0.0;
      assert p == (duration / km) / 60.0;
      calc {
        p * 60.0 * km;
        == (duration / km) * km;
        == duration;
      }
    }
  }

  /** A single fix never yields a pace, whatever the window. */
  lemma PaceNeedsTwoFixes(d: Metric, s: seq<Fix>, windowSeconds: int)
    requires |s| == 1
    ensures PaceOf(d, s, windowSeconds) == None
  {
    assert |PaceWindow(s, s[0].timestamp, windowSeconds)| <= 1;
  }

  /** `Int(x)` for a finite double: rounds toward zero. */
  function TruncToInt(x: real): (n: int)
    ensures x >= 0.0 ==> n >= 0 && n as real <= x < n as real + 1.0
    ensures x < 0.0 ==> n <= 0 && n as real - 1.0 < x <= n as real
  {
    if x >= 0.0 then x.Floor else -((-x).Floor)
  }

  /** The whole minutes of a pace. */
  function PaceMinutes(p: real): (m: int)
    ensures p >= 0.0 ==> m >= 0 && m as real <= p < m as real + 1.0
  {
    TruncToInt(p)
  }

  /** The whole seconds left over after the whole minutes. */
  function PaceSeconds(p: real): int {
    TruncToInt((p - PaceMinutes(p) as real) * 60.0)
  }

  /** `formatPace(minPerKm:)`: "--:-- /km" for nil or a non-finite pace,
      otherwise "%02d:%02d /km" of the truncated minutes and seconds. */
  function FormatPace(pace: Option<Float64>): (r: string)
    ensures |r| >= 9 && r[|r| - 4..] == " /km"
  {
    match pace
    case Some(Finite(p)) => Pad2(PaceMinutes(p)) + ":" + Pad2(PaceSeconds(p)) + " /km"
    case _ => NoPace
  }

  /** For a non-negative pace the seconds field is a proper second count. */
  lemma PaceSecondsInRange(p: real)
    requires p >= 0.0
    ensures 0 <= PaceSeconds(p) <= 59
  {
    var m := PaceMinutes(p);
    var frac := p - m as real;
    assert 0.0 <= frac < 1.0;
    assert 0.0 <= frac * 60.0 < 60.0;
  }

  /** A pace below 100 min/km renders as "MM:SS /km" whose two fields read
      back as whole minutes and seconds, truncated (never rounded up) from
      the pace. */
  lemma FormatPaceTruncates(p: real)
    requires 0.0 <= p && PaceMinutes(p) < 100
    ensures var r := FormatPace(Some(Finite(p)));
      |r| == 9 && r[2] == ':' && r[5..] == " /km" &&
      AllDigits(r[..2]) && AllDigits(r[3..5]) &&
      var m := ParseDigits(r[..2]); var sec := ParseDigits(r[3..5]);
      sec < 60 &&
      (m * 60 + sec) as real <= p * 60.0 < (m * 60 + sec + 1) as real
  {
    var m := PaceMinutes(p);
    var sec := PaceSeconds(p);
    PaceSecondsInRange(p);
    Pad2RoundTrip(m);
    Pad2RoundTrip(sec);
    var r := FormatPace(Some(Finite(p)));
    assert r[..2] == Pad2(m);
    assert r[3..5] == Pad2(sec);
    var frac := p - m as real;
    assert sec as real <= frac * 60.0 < sec as real + 1.0;
    assert p * 60.0 == (m * 60) as real + frac * 60.0;
  }

  /** The placeholder appears exactly when there is no finite pace. */
  lemma FormatPacePlaceholderIff(pace: Option<Float64>)
    ensures FormatPace(pace) == NoPace <==> pace.None? || pace.value.NonFinite?
  {
    if pace.Some? && pace.value.Finite? {
      var p := pace.value.value;
      Pad2SecondIsDigit(PaceMinutes(p));
      assert FormatPace(pace)[1] == Pad2(PaceMinutes(p))[1];
      assert NoPace[1] == '-';
    }
  }

  /** The two renderings pinned by the package's unit tests. */
  lemma FormatPaceExamples()
    ensures FormatPace(Some(Finite(4.75))) == "04:45 /km"
    ensures FormatPace(None) == "--:-- /km"
  {
    assert PaceMinutes(4.75) == 4;
    assert PaceSeconds(4.75) == 45;
    assert Pad2(4) == "04";
    assert Pad2(45) == "45" by {
      assert NatToString(4) == "4";
    }
  }

  /** Three fixes 5 s apart and 100 m apart: all three are in the 12 s
      window, 200 m in 10 s, i.e. 50/60 min/km, shown as "00:50 /km". */
  lemma ThreeFixScenario(d: Metric, a: Fix, b: Fix, c: Fix)
    requires a.timestamp == 0 && b.timestamp == 5 && c.timestamp == 10
    requires d(b, a) == 100.0 && d(c, b) == 100.0
    ensures PathLength(d, [a, b, c]) == 200.0
    ensures PaceOf(d, [a, b, c], 12) == Some(50.0 / 60.0)
    ensures FormatPace(Some(Finite(50.0 / 60.0))) == "00:50 /km"
  {
    var s := [a, b, c];
    assert s[..2] == [a, b] && [a, b][..1] == [a];
    assert s[..2][..1] == [a];
    assert PathLength(d, [a]) == 0.0;
    assert PathLength(d, [a, b]) == 100.0;
    assert PaceWindow(s, 10, 12) == s by {
      assert PaceWindow([a], 10, 12) == [a] by { assert [a][..0] == []; }
    }
    assert PaceMinutes(50.0 / 60.0) == 0;
    assert PaceSeconds(50.0 / 60.0) == 50;
    assert Pad2(50) == "50" by {
      assert NatToString(5) == "5";
    }
  }

  /** `CLLocation.paceMinutesPerKilometer`: (1000 / speed) / 60. It never
      returns nil; a zero speed divides to infinity and a negative speed
      gives a negative pace. */
  function PaceMinutesPerKilometer(f: Fix): (r: Option<Float64>)
    ensures r.Some?
    ensures f.speed == 0.0 <==> r.value.NonFinite?
    ensures f.speed != 0.0 ==> r.value.value * f.speed * 60.0 == 1000.0
  {
    if f.speed == 0.0 then Some(NonFinite) else Some(Finite((1000.0 / f.speed) / 60.0))
  }
}
