/** The string `getGPSCoordinates` hands to the DMS parser: the EXIF GPS
    latitude and longitude as `D:M:S{ref}` each, latitude first, joined by
    one space. Numbers are kept as the text a template literal renders for
    them; the parser itself is not part of this model. */
module Gps {
  import opened Wrappers
  import opened Strings

  /** The GPS block read from an image's EXIF data. An absent array or
      reference is `None`. */
  datatype GpsTags = GpsTags(
    gpsLatitude: Option<seq<string>>,
    latitudeRef: Option<string>,
    gpsLongitude: Option<seq<string>>,
    longitudeRef: Option<string>)

  /** What a template literal renders for a value that may be `undefined`. */
  function Text(v: Option<string>): string {
    match v
    case Some(t) => t
    case None => "undefined"
  }

  /** `a[i]` in JavaScript: `undefined` past the end. */
  function Element(a: seq<string>, i: nat): Option<string> {
    if i < |a| then Some(a[i]) else None
  }

  /** `${a[0]}:${a[1]}:${a[2]}${ref}`. */
  function DmsString(a: seq<string>, ref: Option<string>): string {
    Text(Element(a, 0)) + ":" + Text(Element(a, 1)) + ":" + Text(Element(a, 2)) + Text(ref)
  }

  /** The parser's input for the tags `g`, or `None` where reading the tags
      throws: `g` is null, or one of the two arrays is missing. */
  function ParserInput(g: Option<GpsTags>): (r: Option<string>)
    ensures r.Some? <==> g.Some? && g.value.gpsLatitude.Some? && g.value.gpsLongitude.Some?
  {
    match g
    case None => None
    case Some(t) =>
      if t.gpsLatitude.None? || t.gpsLongitude.None? then None
      else
        var latString := DmsString(t.gpsLatitude.value, t.latitudeRef);
        var lonString := DmsString(t.gpsLongitude.value, t.longitudeRef);
        Some(latString + " " + lonString)
  }

  /** Whether a piece of the coordinate text can be told apart by the
      parser: it contains neither a space nor a colon. */
  predicate Plain(t: string) {
    ' ' !in t && ':' !in t
  }

  /** Whether a coordinate is three plain values and a plain reference. */
  predicate PlainCoordinate(a: seq<string>, ref: Option<string>) {
    |a| >= 3 && Plain(a[0]) && Plain(a[1]) && Plain(a[2]) && Plain(Text(ref))
  }

  /** A coordinate string splits at its colons into degrees, minutes, and
      seconds followed by the reference. */
  lemma DmsStringFields(a: seq<string>, ref: Option<string>)
    requires PlainCoordinate(a, ref)
    ensures Split(DmsString(a, ref), ':') == [a[0], a[1], a[2] + Text(ref)]
    ensures ' ' !in DmsString(a, ref)
  {
    var last := a[2] + Text(ref);
    var parts := [a[0], a[1], last];
    assert JoinWith(parts[2..], ':') == last;
    assert JoinWith(parts[1..], ':') == a[1] + ":" + last by {
      assert parts[1..][1..] == parts[2..];
    }
    assert DmsString(a, ref) == a[0] + ":" + (a[1] + ":" + last);
    assert DmsString(a, ref) == JoinWith(parts, ':');
    SplitJoinWith(parts, ':');
  }

  /** For tags whose pieces are plain, the parser's input is exactly two
      space-separated fields: the latitude string, then the longitude
      string, each of which carries its own three values and reference. */
  lemma ParserInputFields(t: GpsTags)
    requires t.gpsLatitude.Some? && PlainCoordinate(t.gpsLatitude.value, t.latitudeRef)
    requires t.gpsLongitude.Some? && PlainCoordinate(t.gpsLongitude.value, t.longitudeRef)
    ensures ParserInput(Some(t)).Some?
    ensures var fields := Split(ParserInput(Some(t)).value, ' ');
      && fields == [DmsString(t.gpsLatitude.value, t.latitudeRef), DmsString(t.gpsLongitude.value, t.longitudeRef)]
      && Split(fields[0], ':') == [t.gpsLatitude.value[0], t.gpsLatitude.value[1], t.gpsLatitude.value[2] + Text(t.latitudeRef)]
      && Split(fields[1], ':') == [t.gpsLongitude.value[0], t.gpsLongitude.value[1], t.gpsLongitude.value[2] + Text(t.longitudeRef)]
  {
    var lat := DmsString(t.gpsLatitude.value, t.latitudeRef);
    var lon := DmsString(t.gpsLongitude.value, t.longitudeRef);
    DmsStringFields(t.gpsLatitude.value, t.latitudeRef);
    DmsStringFields(t.gpsLongitude.value, t.longitudeRef);
    assert ParserInput(Some(t)).value == JoinWith([lat, lon], ' ');
    SplitJoinWith([lat, lon], ' ');
  }

  /** The format the parser expects, on the example values given in the
      comment of `getGPSCoordinates`. */
  lemma ParserInputExample()
    ensures ParserInput(Some(GpsTags(Some(["51", "30", "0.5486"]), Some("N"),
                                     Some(["0", "7", "34.4504"]), Some("W"))))
            == Some("51:30:0.5486N 0:7:34.4504W")
  {
    var lat, lon := ["51", "30", "0.5486"], ["0", "7", "34.4504"];
    assert Text(Element(lat, 0)) == "51" && Text(Element(lat, 1)) == "30" && Text(Element(lat, 2)) == "0.5486";
    assert Text(Element(lon, 0)) == "0" && Text(Element(lon, 1)) == "7" && Text(Element(lon, 2)) == "34.4504";
    assert DmsString(lat, Some("N")) == "51:30:0.5486N";
    assert DmsString(lon, Some("W")) == "0:7:34.4504W";
    assert "51:30:0.5486N" + " " + "0:7:34.4504W" == "51:30:0.5486N 0:7:34.4504W";
  }
}
