// Pacr/Utils/GPXWriter.swift: `makeGPX(from:trackName:)`, the GPX 1.1
// document for a track, and its number helper `fmt`. The Foundation
// formatters it relies on (`String(format: "%.6f")` and the ISO 8601 date
// formatter) are passed in as functions; the UTF-8 encoding step is left out.
module Gpx {
  import opened Fixes
  import opened Joining

  datatype Result<T, E> = Success(value: T) | Failure(error: E)

  /** The NSError thrown by the writer: its domain and code. */
  datatype GpxError = GpxError(domain: string, code: int)

  /** Replace every ',' by '.'. */
  function ReplaceCommas(s: string): (r: string)
    ensures |r| == |s|
    ensures forall i :: 0 <= i < |s| ==> r[i] == (if s[i] == ',' then '.' else s[i])
    decreases |s|
  {
    if s == [] then []
    else ReplaceCommas(s[..|s| - 1]) + [if s[|s| - 1] == ',' then '.' else s[|s| - 1]]
  }

  /** `fmt`: the "%.6f" rendering, with a decimal comma (from a locale that
      uses one) turned into a point; nothing else changes. */
  function Fmt(format: real -> string, v: real): (r: string)
    ensures ',' !in r
    ensures |r| == |format(v)|
    ensures forall i :: 0 <= i < |r| && format(v)[i] != ',' ==> r[i] == format(v)[i]
  {
    var s := format(v);
    if ',' in s then ReplaceCommas(s) else s
  }

  function Header(trackName: string, time: string): string {
    "<?xml version=\"1.0\" encoding=\"UTF-8\"?>\n" +
    "<gpx version=\"1.1\" creator=\"YourApp\"\n" +
    "xmlns=\"http://www.topografix.com/GPX/1/1\">\n" +
    "<metadata>\n" +
    "<name>" + trackName + "</name>\n" +
    "<time>" + time + "</time>\n" +
    "</metadata>\n" +
    "<trk>\n" +
    "<name>" + trackName + "</name>\n" +
    "<trkseg>"
  }

  /** One `<trkpt>` block: latitude, longitude, elevation and time of a fix. */
  function TrackPoint(format: real -> string, iso: int -> string, f: Fix): string {
    "<trkpt lat=\"" + Fmt(format, f.latitude) + "\" lon=\"" + Fmt(format, f.longitude) + "\">\n" +
    "  <ele>" + Fmt(format, f.altitude) + "</ele>\n" +
    "  <time>" + iso(f.timestamp) + "</time>\n" +
    "</trkpt>"
  }

  const Footer := "</trkseg>\n</trk>\n</gpx>"

  /** One block per fix, in input order. */
  function TrackPoints(format: real -> string, iso: int -> string, locations: seq<Fix>): (blocks: seq<string>)
    ensures |blocks| == |locations|
    ensures forall i :: 0 <= i < |locations| ==> blocks[i] == TrackPoint(format, iso, locations[i])
  {
    seq(|locations|, i requires 0 <= i < |locations| => TrackPoint(format, iso, locations[i]))
  }

  /** The whole document for a non-empty track. */
  function Document(format: real -> string, iso: int -> string, locations: seq<Fix>, trackName: string): string
    requires locations != []
  {
    Header(trackName, iso(locations[0].timestamp)) + Concat(TrackPoints(format, iso, locations)) + Footer
  }

  /** The document is the header (track name twice, time of the first fix),
      then for each fix, in order, that fix's block, then the footer. */
  lemma DocumentLayout(format: real -> string, iso: int -> string, locations: seq<Fix>, trackName: string, i: nat)
    requires i < |locations|
    ensures var blocks := TrackPoints(format, iso, locations);
      Document(format, iso, locations, trackName) ==
        Header(trackName, iso(locations[0].timestamp)) +
        Concat(blocks[..i]) + TrackPoint(format, iso, locations[i]) + Concat(blocks[i + 1..]) +
        Footer
  {
    var h := Header(trackName, iso(locations[0].timestamp));
    var blocks := TrackPoints(format, iso, locations);
    var a, x, c := Concat(blocks[..i]), blocks[i], Concat(blocks[i + 1..]);
    BlockAt(blocks, i);
    AppendAssociative(h, a + x, c);
    AppendAssociative(h, a, x);
  }

  /** `makeGPX(from:trackName:)`: throws code -1 for an empty track;
      otherwise the header, one block per fix appended in a loop, and the
      footer. */
  method MakeGpx(locations: seq<Fix>, trackName: string, format: real -> string, iso: int -> string)
    returns (r: Result<string, GpxError>)
    ensures r.Failure? <==> locations == []
    ensures r.Failure? ==> r.error == GpxError("GPXWriter", -1)
    ensures r.Success? ==> r.value == Document(format, iso, locations, trackName)
  {
    if |locations| == 0 {
      return Failure(GpxError("GPXWriter", -1));
    }
    var header := Header(trackName, iso(locations[0].timestamp));
    ghost var blocks := TrackPoints(format, iso, locations);
    var xml := header;
    ConcatEnds(blocks);
    for i := 0 to |locations|
      invariant xml == header + Concat(blocks[..i])
    {
      var block := TrackPoint(format, iso, locations[i]);
      ConcatNext(blocks, i);
      AppendAssociative(header, Concat(blocks[..i]), block);
      xml := xml + block;
    }
    xml := xml + Footer;
    return Success(xml);
  }
}
