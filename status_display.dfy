// The freshness indicator and the "… ago" label. Pacr/UI/LocationView.swift
// and Pacr/UI/ContentView.swift carry identical copies of `statusColor(for:)`
// and `relativeTimeString(since:)`; both are modelled once here. The view's
// `now` state and the tracker's location count become parameters.
module StatusDisplay {
  import opened Fixes
  import opened Text

  datatype Color = Red | Orange | Green

  /** Red without locations, orange without an update date or when the last
      update is more than 5 s old, green otherwise. */
  function StatusColor(locationCount: nat, updateDate: Option<int>, now: int): (c: Color)
    ensures c == Red <==> locationCount == 0
    ensures c == Green <==> locationCount > 0 && updateDate.Some? && now - updateDate.value <= 5
  {
    if locationCount == 0 then Red
    else if updateDate.None? then Orange
    else if now - updateDate.value <= 5 then Green
    else Orange
  }

  /** Once stale, the indicator stays orange while time passes without a new
      update. */
  lemma StatusStaysStale(locationCount: nat, updateDate: Option<int>, now: int, later: int)
    requires StatusColor(locationCount, updateDate, now) == Orange && now <= later
    ensures StatusColor(locationCount, updateDate, later) == Orange
  {
  }

  /** `relativeTimeString(since:)`: whole seconds under a minute, then whole
      minutes under an hour, then whole hours (each division truncates). */
  function RelativeTimeString(now: int, date: int): (r: string)
    ensures |r| >= 6 && r[|r| - 4..] == " ago"
  {
    var seconds := now - date;
    if seconds < 60 then IntToString(seconds) + "s ago"
    else
      var minutes := seconds / 60;
      if minutes < 60 then NatToString(minutes) + "m ago"
      else
        var hours := minutes / 60;
        NatToString(hours) + "h ago"
  }

  /** The buckets in terms of the elapsed seconds: hours are seconds div 3600
      and the minute bucket ends at 3600 s. */
  lemma RelativeTimeBuckets(now: int, date: int)
    ensures var s := now - date; var r := RelativeTimeString(now, date);
      (s < 60 ==> r == IntToString(s) + "s ago") &&
      (60 <= s < 3600 ==> r == NatToString(s / 60) + "m ago") &&
      (3600 <= s ==> r == NatToString(s / 3600) + "h ago")
  {
    var s := now - date;
    if s >= 60 {
      var m := s / 60;
      assert m * 60 <= s < m * 60 + 60;
      assert m < 60 <==> s < 3600;
      if m >= 60 {
        var h := m / 60;
        assert h * 60 <= m < h * 60 + 60;
        assert h * 3600 <= s < h * 3600 + 3600;
        assert h == s / 3600;
      }
    }
  }

  /** For a past date the label reads back as a count and a unit such that
      the elapsed time lies within that count of units (rounded down). */
  lemma RelativeTimeReadsBack(now: int, date: int)
    requires date <= now
    ensures var s := now - date; var r := RelativeTimeString(now, date);
      |r| > 5 && AllDigits(r[..|r| - 5]) &&
      var k := ParseDigits(r[..|r| - 5]); var unit := r[|r| - 5..];
      (unit == "s ago" && k == s && s < 60) ||
      (unit == "m ago" && k * 60 <= s < (k + 1) * 60 && k < 60) ||
      (unit == "h ago" && k * 3600 <= s < (k + 1) * 3600)
  {
    var s := now - date;
    RelativeTimeBuckets(now, date);
    var r := RelativeTimeString(now, date);
    var k := if s < 60 then s else if s < 3600 then s / 60 else s / 3600;
    var unit := if s < 60 then "s ago" else if s < 3600 then "m ago" else "h ago";
    NatToStringRoundTrip(k);
    assert r == NatToString(k) + unit;
    assert r[..|r| - 5] == NatToString(k);
    assert r[|r| - 5..] == unit;
  }
}
