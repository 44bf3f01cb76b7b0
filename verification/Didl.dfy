/** DIDL-Lite documents: the objects, the element tree each stands for, and the renderer as it runs. */
module Didl {
  import opened Bytes
  import opened Decimal
  import opened Xml

  const NS_DIDL := "urn:schemas-upnp-org:metadata-1-0/DIDL-Lite/"
  const NS_DC := "http://purl.org/dc/elements/1.1/"
  const NS_UPNP := "urn:schemas-upnp-org:metadata-1-0/upnp/"
  const NS_DLNA := "urn:schemas-dlna-org:metadata-1-0/"
  const NS_PV := "http://www.pv.com/pvns/"
  const NS_SEC := "http://www.sec.co.kr/dlna"

  const IMAGE_INFO := "http-get:*:image/jpeg:*"

  const VIDEO_FLAGS := "01700000000000000000000000000000"

  function VideoProtocolInfo(mime: string): string {
    "http-get:*:" + (if mime == "" then "video/mpeg" else mime) + ":DLNA.ORG_OP=01;DLNA.ORG_CI=0;DLNA.ORG_FLAGS="
    + VIDEO_FLAGS
  }

  function SubtitleProtocolInfo(mime: string): string {
    "http-get:*:" + (if mime == "" then "text/plain" else mime) + ":*"
  }

  datatype Subtitle = Subtitle(url: string, mime: string, typ: string)

  datatype Resource = Resource(
    url: string, protocolInfo: string, size: int, duration: int, width: int, height: int, subtitleUri: string)

  datatype Date = Date(year: nat, month: nat, day: nat, hour: nat, minute: nat, second: nat)

  datatype Object = Object(
    id: string, parentId: string, title: string, cls: string, date: Option<Date>,
    resources: seq<Resource>, subtitles: seq<Subtitle>, artwork: string, childCount: int, isItem: bool)

  function DateText(d: Date): string {
    Padded(d.year, 4) + "-" + Padded(d.month, 2) + "-" + Padded(d.day, 2) + "T"
    + Padded(d.hour, 2) + ":" + Padded(d.minute, 2) + ":" + Padded(d.second, 2)
  }

  /** A duration in nanoseconds as H+:MM:SS.mmm. */
  function Clock(h: nat, m: nat, s: nat, ms: nat): string {
    Dec(h) + (":" + Padded(m, 2) + ":" + Padded(s, 2) + "." + Padded(ms, 3))
  }

  function DurationText(d: nat): string {
    Clock(d / 3_600_000_000_000, d / 60_000_000_000 % 60, d / 1_000_000_000 % 60, d / 1_000_000 % 1000)
  }

  method FormatDuration(duration: int) returns (t: string)
    ensures duration <= 0 ==> t == ""
    ensures duration > 0 ==> t == DurationText(duration)
  {
    if duration <= 0 {
      return "";
    }
    var d: nat := duration;
    var h := d / 3_600_000_000_000;
    d := d - h * 3_600_000_000_000;
    var m := d / 60_000_000_000;
    d := d - m * 60_000_000_000;
    var s := d / 1_000_000_000;
    d := d - s * 1_000_000_000;
    Units(duration, h, m, s, d);
    t := Clock(h, m, s, d / 1_000_000);
  }

  lemma Units(duration: nat, h: nat, m: nat, s: nat, rest: nat)
    requires duration == h * 3_600_000_000_000 + m * 60_000_000_000 + s * 1_000_000_000 + rest
    requires m < 60 && s < 60 && rest < 1_000_000_000
    ensures h == duration / 3_600_000_000_000 && m == duration / 60_000_000_000 % 60
    ensures s == duration / 1_000_000_000 % 60 && rest / 1_000_000 == duration / 1_000_000 % 1000
  {
    assert duration / 60_000_000_000 == h * 60 + m;
    assert duration / 1_000_000_000 == h * 3600 + m * 60 + s;
    assert duration / 1_000_000 == (h * 3600 + m * 60 + s) * 1000 + rest / 1_000_000;
  }

  /** Reads H+:MM:SS.mmm back, in milliseconds. */
  function ParseClock(t: string): Option<nat> {
    var n := |t|;
    if n < 11 || t[n - 4] != '.' || t[n - 7] != ':' || t[n - 10] != ':' then None
    else
      var ms, s, m, h := Undec(t[n - 3..]), Undec(t[n - 6..n - 4]), Undec(t[n - 9..n - 7]), Undec(t[..n - 10]);
      if ms.None? || s.None? || m.None? || h.None? then None
      else Some(((h.value * 60 + m.value) * 60 + s.value) * 1000 + ms.value)
  }

  /** A reader recovers the duration to the millisecond. */
  lemma DurationReads(d: nat)
    ensures ParseClock(DurationText(d)) == Some(d / 1_000_000)
  {
    hide Undec, Dec, Padded;
    var h, m, s, ms := d / 3_600_000_000_000, d / 60_000_000_000 % 60, d / 1_000_000_000 % 60, d / 1_000_000 % 1000;
    DecReads(h);
    PaddedReads(m, 2);
    PaddedReads(s, 2);
    PaddedReads(ms, 3);
    TwoDigits(m);
    TwoDigits(s);
    ThreeDigits(ms);
    ClockParts(Dec(h), Padded(m, 2), Padded(s, 2), Padded(ms, 3));
    assert d / 1_000_000 == ((h * 60 + m) * 60 + s) * 1000 + ms by {
      assert d / 1_000_000_000 == d / 1_000_000 / 1000 && d / 60_000_000_000 == d / 1_000_000_000 / 60;
      assert d / 3_600_000_000_000 == d / 60_000_000_000 / 60;
    }
  }

  lemma ClockParts(h: string, m: string, s: string, ms: string)
    requires h != "" && |m| == 2 && |s| == 2 && |ms| == 3
    ensures var t := h + (":" + m + ":" + s + "." + ms);
            var n := |t|;
            && n >= 11 && t[n - 4] == '.' && t[n - 7] == ':' && t[n - 10] == ':'
            && t[n - 3..] == ms && t[n - 6..n - 4] == s && t[n - 9..n - 7] == m && t[..n - 10] == h
  {
  }

  // The element tree a document means.

  /** An element whose content is one run of text, forbidden runes dropped. */
  function Leaf(name: string, attrs: seq<(string, string)>, text: string): Xml {
    Element(name, attrs, if Filter(text) == "" then [] else [Text(Filter(text))])
  }

  function ResourceAttrs(r: Resource): seq<(string, string)> {
    [("protocolInfo", Filter(r.protocolInfo))]
    + (if r.size > 0 then [("size", Dec(r.size))] else [])
    + (if r.duration > 0 then [("duration", DurationText(r.duration))] else [])
    + (if r.width > 0 && r.height > 0 then [("resolution", Dec(r.width) + "x" + Dec(r.height))] else [])
    + (if r.subtitleUri != "" then [("pv:subtitleFileUri", Filter(r.subtitleUri))] else [])
  }

  function ResourceTree(r: Resource): Xml {
    Leaf("res", ResourceAttrs(r), r.url)
  }

  function SubtitleTree(s: Subtitle): Xml {
    Leaf("res", [("protocolInfo", Filter(SubtitleProtocolInfo(s.mime)))], s.url)
  }

  function ResourceTrees(rs: seq<Resource>): (xs: seq<Xml>)
    ensures |xs| == |rs| && forall i :: 0 <= i < |rs| ==> xs[i] == ResourceTree(rs[i])
  {
    seq(|rs|, i requires 0 <= i < |rs| => ResourceTree(rs[i]))
  }

  function SubtitleTrees(ss: seq<Subtitle>): (xs: seq<Xml>)
    ensures |xs| == |ss| && forall i :: 0 <= i < |ss| ==> xs[i] == SubtitleTree(ss[i])
  {
    seq(|ss|, i requires 0 <= i < |ss| => SubtitleTree(ss[i]))
  }

  /** The first subtitle, advertised the Samsung way and as pv:subtitlefile. */
  function PrimaryTrees(ss: seq<Subtitle>): seq<Xml> {
    if ss == [] || ss[0].url == "" then []
    else [
      Leaf("sec:CaptionInfo", [("sec:type", Filter(ss[0].typ))], ss[0].url),
      Leaf("sec:CaptionInfoEx", [("sec:type", Filter(ss[0].typ))], ss[0].url),
      Leaf("pv:subtitlefile", [], ss[0].url)]
  }

  function ObjectAttrs(o: Object): seq<(string, string)> {
    [("id", Filter(o.id)), ("parentID", Filter(o.parentId)), ("restricted", "1")]
    + if !o.isItem && o.childCount > 0 then [("childCount", Dec(o.childCount))] else []
  }

  function HeadTrees(o: Object): seq<Xml> {
    [Leaf("dc:title", [], o.title), Leaf("upnp:class", [], o.cls)]
    + (if o.date.Some? then [Leaf("dc:date", [], DateText(o.date.value))] else [])
    + (if o.isItem && o.artwork != "" then
         [Leaf("upnp:albumArtURI", [("dlna:profileID", "JPEG_TN")], o.artwork)] else [])
  }

  function ArtworkTrees(o: Object): seq<Xml> {
    if o.isItem && o.artwork != "" then [Leaf("res", [("protocolInfo", IMAGE_INFO)], o.artwork)] else []
  }

  function TailTrees(o: Object): seq<Xml> {
    if o.isItem then SubtitleTrees(o.subtitles) + PrimaryTrees(o.subtitles) else []
  }

  function ObjectKids(o: Object): seq<Xml> {
    HeadTrees(o) + ResourceTrees(o.resources) + ArtworkTrees(o) + TailTrees(o)
  }

  function Tag(o: Object): string {
    if o.isItem then "item" else "container"
  }

  function ObjectTree(o: Object): Xml {
    Element(Tag(o), ObjectAttrs(o), ObjectKids(o))
  }

  function ObjectTrees(os: seq<Object>): (xs: seq<Xml>)
    ensures |xs| == |os| && forall i :: 0 <= i < |os| ==> xs[i] == ObjectTree(os[i])
  {
    seq(|os|, i requires 0 <= i < |os| => ObjectTree(os[i]))
  }

  const NAMESPACES: seq<(string, string)> := [
    ("xmlns", NS_DIDL), ("xmlns:dc", NS_DC), ("xmlns:upnp", NS_UPNP), ("xmlns:dlna", NS_DLNA), ("xmlns:pv", NS_PV),
    ("xmlns:sec", NS_SEC)]

  function DocumentTree(os: seq<Object>): Xml {
    Element("DIDL-Lite", NAMESPACES, ObjectTrees(os))
  }
}
