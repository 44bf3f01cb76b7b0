/** A client that reads a Browse answer, and what it is told of each object. */
module DidlClient {
  import opened Bytes
  import opened Decimal
  import opened Xml
  import opened Didl
  import opened DidlReading
  import opened DidlRender
  import opened DidlRoundTrip
  import opened Objects

  /** One resource: durations in milliseconds, dimensions as width and height. */
  datatype Media = Media(
    url: string, protocolInfo: Option<string>, size: Option<nat>, millis: Option<nat>, pixels: Option<(nat, nat)>,
    captions: Option<string>)

  /** A picture or a caption file: its kind, and where it is. */
  datatype Link = Link(kind: Option<string>, url: string)

  datatype Entry = Entry(
    isItem: bool, id: Option<string>, parent: Option<string>, restricted: Option<string>, children: Option<nat>,
    title: Option<string>, cls: Option<string>, date: Option<Date>, picture: Option<Link>, media: seq<Media>,
    caption: Option<Link>, captionEx: Option<Link>, captionFile: Option<string>)

  function Number(t: Option<string>): Option<nat> {
    if t.None? then None else Undec(t.value)
  }

  function Millis(t: Option<string>): Option<nat> {
    if t.None? then None else ParseClock(t.value)
  }

  /** Width, "x", height. */
  function Pixels(t: Option<string>): Option<(nat, nat)> {
    if t.None? then None
    else
      match CutAt(t.value, 'x')
      case None => None
      case Some((w, h)) => if Undec(w).None? || Undec(h).None? then None else Some((Undec(w).value, Undec(h).value))
  }

  /** Reads YYYY-MM-DDThh:mm:ss back. */
  function ParseDate(t: string): Option<Date> {
    var n := |t|;
    if n < 19 || t[n - 3] != ':' || t[n - 6] != ':' || t[n - 9] != 'T' || t[n - 12] != '-' || t[n - 15] != '-' then None
    else
      var y, mo, d := Undec(t[..n - 15]), Undec(t[n - 14..n - 12]), Undec(t[n - 11..n - 9]);
      var h, mi, s := Undec(t[n - 8..n - 6]), Undec(t[n - 5..n - 3]), Undec(t[n - 2..]);
      if y.None? || mo.None? || d.None? || h.None? || mi.None? || s.None? then None
      else Some(Date(y.value, mo.value, d.value, h.value, mi.value, s.value))
  }

  function TextOf(x: Option<Xml>): Option<string> {
    if x.None? then None else Some(Content(x.value))
  }

  function DateOf(t: Option<string>): Option<Date> {
    if t.None? then None else ParseDate(t.value)
  }

  function LinkOf(x: Option<Xml>, kind: string): Option<Link> {
    if x.None? then None else Some(Link(Attr(x.value, kind), Content(x.value)))
  }

  function ReadMedia(x: Xml): Media {
    Media(Content(x), Attr(x, "protocolInfo"), Number(Attr(x, "size")), Millis(Attr(x, "duration")),
          Pixels(Attr(x, "resolution")), Attr(x, "pv:subtitleFileUri"))
  }

  function ReadMedias(xs: seq<Xml>): (r: seq<Media>)
    ensures |r| == |xs| && forall i :: 0 <= i < |r| ==> r[i] == ReadMedia(xs[i])
  {
    seq(|xs|, i requires 0 <= i < |xs| => ReadMedia(xs[i]))
  }

  function ReadEntry(x: Xml): Entry
    requires x.Element?
  {
    Entry(
      x.name == "item", Attr(x, "id"), Attr(x, "parentID"), Attr(x, "restricted"), Number(Attr(x, "childCount")),
      TextOf(Find(x.kids, "dc:title")), TextOf(Find(x.kids, "upnp:class")), DateOf(TextOf(Find(x.kids, "dc:date"))),
      LinkOf(Find(x.kids, "upnp:albumArtURI"), "dlna:profileID"), ReadMedias(All(x.kids, "res")),
      LinkOf(Find(x.kids, "sec:CaptionInfo"), "sec:type"), LinkOf(Find(x.kids, "sec:CaptionInfoEx"), "sec:type"),
      TextOf(Find(x.kids, "pv:subtitlefile")))
  }

  /** The items and containers of a document, in order. */
  function ReadEntries(xs: seq<Xml>): seq<Entry> {
    if xs == [] then []
    else
      (if Called(xs[0], "item") || Called(xs[0], "container") then [ReadEntry(xs[0])] else []) + ReadEntries(xs[1..])
  }

  function ReadAnswer(x: Xml): seq<Entry> {
    if Called(x, "DIDL-Lite") then ReadEntries(x.kids) else []
  }

  // What an entry is to say of an object.

  /** Two digits are enough for all but the year. */
  predicate Calendar(d: Date) {
    d.month < 100 && d.day < 100 && d.hour < 100 && d.minute < 100 && d.second < 100
  }

  predicate ShowsResource(m: Media, r: Resource) {
    && m.url == Filter(r.url) && m.protocolInfo == Some(Filter(r.protocolInfo))
    && m.size == (if r.size > 0 then Some(r.size as nat) else None)
    && m.millis == (if r.duration > 0 then Some((r.duration / 1_000_000) as nat) else None)
    && m.pixels == (if r.width > 0 && r.height > 0 then Some((r.width as nat, r.height as nat)) else None)
    && m.captions == (if r.subtitleUri != "" then Some(Filter(r.subtitleUri)) else None)
  }

  /** A resource that is only a place and a kind of file. */
  predicate ShowsFile(m: Media, url: string, protocolInfo: string) {
    m == Media(Filter(url), Some(Filter(protocolInfo)), None, None, None, None)
  }

  predicate ShowsSubtitles(ms: seq<Media>, ss: seq<Subtitle>) {
    |ms| == |ss|
    && forall i :: 0 <= i < |ss| ==>
         ShowsFile(ms[i], ss[i].url, "http-get:*:" + (if ss[i].mime == "" then "text/plain" else ss[i].mime) + ":*")
  }

  /** The resources, then for an item its picture and its subtitles. */
  predicate ShowsMedia(ms: seq<Media>, o: Object) {
    var n, p := |o.resources|, if o.isItem && o.artwork != "" then 1 else 0;
    && n + p <= |ms|
    && (forall i :: 0 <= i < n ==> ShowsResource(ms[i], o.resources[i]))
    && (p == 1 ==> ShowsFile(ms[n], o.artwork, "http-get:*:image/jpeg:*"))
    && ShowsSubtitles(ms[n + p..], if o.isItem then o.subtitles else [])
  }

  /** Of an item with subtitles, the first one stands in the caption elements too. */
  predicate ShowsCaptions(e: Entry, o: Object) {
    var link := if o.isItem && o.subtitles != [] && o.subtitles[0].url != "" then
                  Some(Link(Some(Filter(o.subtitles[0].typ)), Filter(o.subtitles[0].url)))
                else None;
    && e.caption == link && e.captionEx == link
    && e.captionFile == if link.Some? then Some(link.value.url) else None
  }

  predicate ShowsHead(e: Entry, o: Object) {
    && e.title == Some(Filter(o.title)) && e.cls == Some(Filter(o.cls))
    && (o.date.None? ==> e.date == None)
    && (o.date.Some? && Calendar(o.date.value) ==> e.date == o.date)
    && e.picture == if o.isItem && o.artwork != "" then Some(Link(Some("JPEG_TN"), Filter(o.artwork))) else None
  }

  predicate ShowsIdentity(e: Entry, o: Object) {
    && e.isItem == o.isItem && e.id == Some(Filter(o.id)) && e.parent == Some(Filter(o.parentId))
    && e.restricted == Some("1")
    && e.children == if !o.isItem && o.childCount > 0 then Some(o.childCount as nat) else None
  }

  predicate Shows(e: Entry, o: Object) {
    ShowsIdentity(e, o) && ShowsHead(e, o) && ShowsMedia(e.media, o) && ShowsCaptions(e, o)
  }

  predicate ShowsAll(es: seq<Entry>, os: seq<Object>) {
    |es| == |os| && forall i :: 0 <= i < |os| ==> Shows(es[i], os[i])
  }

  // Reading values back.

  lemma DateReads(d: Date)
    requires Calendar(d)
    ensures ParseDate(DateText(d)) == Some(d)
  {
    hide Undec, Dec, Padded;
    PaddedReads(d.year, 4);
    PaddedReads(d.month, 2);
    PaddedReads(d.day, 2);
    PaddedReads(d.hour, 2);
    PaddedReads(d.minute, 2);
    PaddedReads(d.second, 2);
    TwoDigits(d.month);
    TwoDigits(d.day);
    TwoDigits(d.hour);
    TwoDigits(d.minute);
    TwoDigits(d.second);
    DateParts(Padded(d.year, 4), Padded(d.month, 2), Padded(d.day, 2), Padded(d.hour, 2), Padded(d.minute, 2),
              Padded(d.second, 2));
  }

  lemma DateParts(y: string, mo: string, d: string, h: string, mi: string, s: string)
    requires |y| >= 4 && |mo| == |d| == |h| == |mi| == |s| == 2
    ensures var t := y + "-" + mo + "-" + d + "T" + h + ":" + mi + ":" + s;
            var n := |t|;
            && n >= 19 && t[n - 3] == ':' && t[n - 6] == ':' && t[n - 9] == 'T' && t[n - 12] == '-' && t[n - 15] == '-'
            && t[..n - 15] == y && t[n - 14..n - 12] == mo && t[n - 11..n - 9] == d
            && t[n - 8..n - 6] == h && t[n - 5..n - 3] == mi && t[n - 2..] == s
  {
    var t := y + "-" + mo + "-" + d + "T" + h + ":" + mi + ":" + s;
    assert t == y + ("-" + (mo + ("-" + (d + ("T" + (h + (":" + (mi + (":" + s)))))))));
  }

  lemma DigitsClean(s: string)
    requires forall c :: c in s ==> IsDigit(c)
    ensures Clean(s)
  {
  }

  lemma CleanConcat(a: string, b: string)
    requires Clean(a) && Clean(b)
    ensures Clean(a + b)
  {
    hide ValidXmlChar;
  }

  lemma DateClean(d: Date)
    ensures Filter(DateText(d)) == DateText(d)
  {
    hide Padded, Clean, Filter;
    DigitsClean(Padded(d.year, 4));
    DigitsClean(Padded(d.month, 2));
    DigitsClean(Padded(d.day, 2));
    DigitsClean(Padded(d.hour, 2));
    DigitsClean(Padded(d.minute, 2));
    DigitsClean(Padded(d.second, 2));
    SeparatorsClean();
    CleanConcat(Padded(d.year, 4), "-");
    CleanConcat(Padded(d.year, 4) + "-", Padded(d.month, 2));
    CleanConcat(Padded(d.year, 4) + "-" + Padded(d.month, 2), "-");
    CleanConcat(Padded(d.year, 4) + "-" + Padded(d.month, 2) + "-", Padded(d.day, 2));
    var day := Padded(d.year, 4) + "-" + Padded(d.month, 2) + "-" + Padded(d.day, 2);
    CleanConcat(day, "T");
    CleanConcat(day + "T", Padded(d.hour, 2));
    CleanConcat(day + "T" + Padded(d.hour, 2), ":");
    CleanConcat(day + "T" + Padded(d.hour, 2) + ":", Padded(d.minute, 2));
    CleanConcat(day + "T" + Padded(d.hour, 2) + ":" + Padded(d.minute, 2), ":");
    CleanConcat(day + "T" + Padded(d.hour, 2) + ":" + Padded(d.minute, 2) + ":", Padded(d.second, 2));
    FilterClean(DateText(d));
  }

  lemma SeparatorsClean()
    ensures Clean("-") && Clean("T") && Clean(":")
  {
  }

  lemma PixelsRead(w: nat, h: nat)
    ensures Pixels(Some(Dec(w) + "x" + Dec(h))) == Some((w, h))
  {
    hide Dec, Undec, CutAt;
    DecReads(w);
    DecReads(h);
    assert !IsDigit('x');
    CutReads(Dec(w), 'x', Dec(h));
    assert Dec(w) + "x" + Dec(h) == Dec(w) + (['x'] + Dec(h));
  }

  // Resources.

  lemma MeasureNamesDiffer()
    ensures "protocolInfo" != "size" && "protocolInfo" != "duration" && "protocolInfo" != "resolution"
    ensures "protocolInfo" != "pv:subtitleFileUri" && "size" != "duration" && "size" != "resolution"
    ensures "size" != "pv:subtitleFileUri" && "duration" != "resolution" && "duration" != "pv:subtitleFileUri"
    ensures "resolution" != "pv:subtitleFileUri"
  {
  }

  /** Looking a name up in five runs of attributes. */
  lemma AmongFive(a: seq<(string, string)>, b: seq<(string, string)>, c: seq<(string, string)>, d: seq<(string, string)>,
                  e: seq<(string, string)>, name: string)
    ensures AttrOf(a + b + c + d + e, name)
            == Or(Or(Or(Or(AttrOf(a, name), AttrOf(b, name)), AttrOf(c, name)), AttrOf(d, name)), AttrOf(e, name))
  {
    hide AttrOf, Or;
    AttrConcat(a + b + c + d, e, name);
    AttrConcat(a + b + c, d, name);
    AttrConcat(a + b, c, name);
    AttrConcat(a, b, name);
  }

  lemma InOneOrNone(there: bool, m: string, v: string, name: string)
    ensures AttrOf(if there then [(m, v)] else [], name) == if there && m == name then Some(v) else None
  {
    AttrOne(m, v, name);
  }

  lemma ResourceAttrOf(r: Resource, name: string)
    ensures AttrOf(ResourceAttrs(r), name)
            == if name == "protocolInfo" then Some(Filter(r.protocolInfo))
               else if name == "size" && r.size > 0 then Some(Dec(r.size))
               else if name == "duration" && r.duration > 0 then Some(DurationText(r.duration))
               else if name == "resolution" && r.width > 0 && r.height > 0 then Some(Dec(r.width) + "x" + Dec(r.height))
               else if name == "pv:subtitleFileUri" && r.subtitleUri != "" then Some(Filter(r.subtitleUri))
               else None
  {
    MeasureNamesDiffer();
    hide Filter, Dec, DurationText, AttrOf;
    var a := [("protocolInfo", Filter(r.protocolInfo))];
    var b := if r.size > 0 then [("size", Dec(r.size))] else [];
    var c := if r.duration > 0 then [("duration", DurationText(r.duration))] else [];
    var d := if r.width > 0 && r.height > 0 then [("resolution", Dec(r.width) + "x" + Dec(r.height))] else [];
    var e := if r.subtitleUri != "" then [("pv:subtitleFileUri", Filter(r.subtitleUri))] else [];
    AmongFive(a, b, c, d, e, name);
    AttrOne("protocolInfo", Filter(r.protocolInfo), name);
    InOneOrNone(r.size > 0, "size", if r.size > 0 then Dec(r.size) else "", name);
    InOneOrNone(r.duration > 0, "duration", if r.duration > 0 then DurationText(r.duration) else "", name);
    InOneOrNone(r.width > 0 && r.height > 0, "resolution",
                if r.width > 0 && r.height > 0 then Dec(r.width) + "x" + Dec(r.height) else "", name);
    InOneOrNone(r.subtitleUri != "", "pv:subtitleFileUri", Filter(r.subtitleUri), name);
    assert ResourceAttrs(r) == a + b + c + d + e;
  }

  lemma LeafIs(name: string, attrs: seq<(string, string)>, text: string)
    ensures var x := Leaf(name, attrs, text);
            x.Element? && x.name == name && x.attrs == attrs && Called(x, name) && Content(x) == Filter(text)
  {
    LeafContent(name, attrs, text);
    hide Filter, Content;
  }

  lemma ResourceShown(r: Resource)
    ensures Called(ResourceTree(r), "res") && ShowsResource(ReadMedia(ResourceTree(r)), r)
  {
    hide Filter, Dec, Undec, DurationText, ParseClock, AttrOf, ResourceAttrs, Leaf, Content, CutAt, Pixels;
    MeasureNamesDiffer();
    LeafIs("res", ResourceAttrs(r), r.url);
    ResourceAttrOf(r, "protocolInfo");
    ResourceAttrOf(r, "size");
    ResourceAttrOf(r, "duration");
    ResourceAttrOf(r, "resolution");
    ResourceAttrOf(r, "pv:subtitleFileUri");
    if r.size > 0 {
      DecReads(r.size);
    }
    if r.duration > 0 {
      DurationReads(r.duration);
    }
    if r.width > 0 && r.height > 0 {
      PixelsRead(r.width, r.height);
    }
    NoPixels();
  }

  lemma NoPixels()
    ensures Pixels(None) == None
  {
  }

  /** A leaf with only a protocolInfo. */
  lemma FileShown(info: string, url: string)
    ensures var x := Leaf("res", [("protocolInfo", info)], url);
            x.Element? && Called(x, "res") && ReadMedia(x) == Media(Filter(url), Some(info), None, None, None, None)
  {
    hide Filter, AttrOf, Leaf, Content;
    MeasureNamesDiffer();
    NoPixels();
    LeafIs("res", [("protocolInfo", info)], url);
    AttrOne("protocolInfo", info, "protocolInfo");
    AttrOne("protocolInfo", info, "size");
    AttrOne("protocolInfo", info, "duration");
    AttrOne("protocolInfo", info, "resolution");
    AttrOne("protocolInfo", info, "pv:subtitleFileUri");
  }

  lemma SubtitleShown(s: Subtitle)
    ensures var x := SubtitleTree(s);
            && Called(x, "res")
            && ShowsFile(ReadMedia(x), s.url, "http-get:*:" + (if s.mime == "" then "text/plain" else s.mime) + ":*")
  {
    hide Filter, Leaf, ReadMedia;
    FileShown(Filter(SubtitleProtocolInfo(s.mime)), s.url);
  }

  lemma ImageShown(url: string)
    ensures var x := Leaf("res", [("protocolInfo", IMAGE_INFO)], url);
            Called(x, "res") && ShowsFile(ReadMedia(x), url, "http-get:*:image/jpeg:*")
  {
    hide Filter, Leaf, ReadMedia, EscapedAttr, EscapedText, AllPrintable, Clean;
    ConstantsPrint();
    PrintableIsEscaped(IMAGE_INFO);
    FileShown(IMAGE_INFO, url);
  }

  // The children of an object, part by part.

  lemma ChildNamesDiffer()
    ensures "dc:title" != "upnp:class" && "dc:title" != "dc:date" && "dc:title" != "upnp:albumArtURI" && "dc:title" != "res"
    ensures "upnp:class" != "dc:date" && "upnp:class" != "upnp:albumArtURI" && "upnp:class" != "res"
    ensures "dc:date" != "upnp:albumArtURI" && "dc:date" != "res" && "upnp:albumArtURI" != "res"
  {
  }

  lemma CaptionNamesDiffer()
    ensures "sec:CaptionInfo" != "sec:CaptionInfoEx" && "sec:CaptionInfo" != "pv:subtitlefile"
    ensures "sec:CaptionInfoEx" != "pv:subtitlefile"
    ensures "sec:CaptionInfo" != "res" && "sec:CaptionInfoEx" != "res" && "pv:subtitlefile" != "res"
    ensures "sec:CaptionInfo" != "dc:title" && "sec:CaptionInfo" != "upnp:class" && "sec:CaptionInfo" != "dc:date"
    ensures "sec:CaptionInfo" != "upnp:albumArtURI"
  {
    assert "sec:CaptionInfo"[0] != "pv:subtitlefile"[0];
  }

  lemma OtherCaptionNamesDiffer()
    ensures "sec:CaptionInfoEx" != "dc:title" && "sec:CaptionInfoEx" != "upnp:class" && "sec:CaptionInfoEx" != "dc:date"
    ensures "sec:CaptionInfoEx" != "upnp:albumArtURI" && "pv:subtitlefile" != "dc:title" && "pv:subtitlefile" != "upnp:class"
    ensures "pv:subtitlefile" != "dc:date" && "pv:subtitlefile" != "upnp:albumArtURI"
  {
  }

  /** Looking for a child in up to four leaves. */
  lemma FindInFour(a: Xml, b: Xml, hasC: bool, c: Xml, hasD: bool, d: Xml, name: string)
    ensures var xs := [a, b] + (if hasC then [c] else []) + (if hasD then [d] else []);
            && Find(xs, name) == (if Called(a, name) then Some(a) else if Called(b, name) then Some(b)
                                  else if hasC && Called(c, name) then Some(c) else if hasD && Called(d, name) then Some(d)
                                  else None)
            && (!Called(a, name) && !Called(b, name) && !Called(c, name) && !Called(d, name) ==> All(xs, name) == [])
  {
    hide Find, All, Called;
    var cs, ds := if hasC then [c] else [], if hasD then [d] else [];
    assert [a, b] == [a] + [b];
    FindConcat([a, b] + cs, ds, name);
    FindConcat([a, b], cs, name);
    FindConcat([a], [b], name);
    AllConcat([a, b] + cs, ds, name);
    AllConcat([a, b], cs, name);
    AllConcat([a], [b], name);
    One(a, name);
    One(b, name);
    One(c, name);
    One(d, name);
  }

  /** The head holds title, class, date and picture, each once or not at all, and nothing else. */
  lemma HeadHolds(o: Object, name: string)
    ensures Find(HeadTrees(o), name)
            == if name == "dc:title" then Some(Leaf("dc:title", [], o.title))
               else if name == "upnp:class" then Some(Leaf("upnp:class", [], o.cls))
               else if name == "dc:date" && o.date.Some? then Some(Leaf("dc:date", [], DateText(o.date.value)))
               else if name == "upnp:albumArtURI" && o.isItem && o.artwork != "" then
                 Some(Leaf("upnp:albumArtURI", [("dlna:profileID", "JPEG_TN")], o.artwork))
               else None
    ensures name == "res" ==> All(HeadTrees(o), name) == []
  {
    ChildNamesDiffer();
    hide Find, All, Leaf, DateText, Content;
    var date := if o.date.Some? then Leaf("dc:date", [], DateText(o.date.value)) else Leaf("dc:date", [], "");
    var art := Leaf("upnp:albumArtURI", [("dlna:profileID", "JPEG_TN")], o.artwork);
    LeafIs("dc:title", [], o.title);
    LeafIs("upnp:class", [], o.cls);
    LeafIs("dc:date", [], if o.date.Some? then DateText(o.date.value) else "");
    LeafIs("upnp:albumArtURI", [("dlna:profileID", "JPEG_TN")], o.artwork);
    FindInFour(Leaf("dc:title", [], o.title), Leaf("upnp:class", [], o.cls), o.date.Some?, date,
               o.isItem && o.artwork != "", art, name);
  }

  /** Nothing but resources. */
  lemma ResourcesHold(xs: seq<Xml>, name: string)
    requires forall i :: 0 <= i < |xs| ==> Called(xs[i], "res")
    ensures All(xs, "res") == xs && (name != "res" ==> Find(xs, name) == None)
  {
    hide Find, All;
    AllCalled(xs, "res");
    if name != "res" {
      NoneCalled(xs, name);
    }
  }

  lemma ResourcePartsShown(o: Object)
    ensures forall i :: 0 <= i < |o.resources| ==>
              Called(ResourceTrees(o.resources)[i], "res") && ShowsResource(ReadMedia(ResourceTrees(o.resources)[i]), o.resources[i])
  {
    hide ResourceTree, ReadMedia, ShowsResource;
    forall i | 0 <= i < |o.resources|
      ensures Called(ResourceTrees(o.resources)[i], "res")
              && ShowsResource(ReadMedia(ResourceTrees(o.resources)[i]), o.resources[i])
    {
      ResourceShown(o.resources[i]);
    }
  }

  lemma SubtitlePartsShown(ss: seq<Subtitle>)
    ensures forall i :: 0 <= i < |ss| ==> Called(SubtitleTrees(ss)[i], "res")
    ensures ShowsSubtitles(ReadMedias(SubtitleTrees(ss)), ss)
  {
    hide SubtitleTree, ReadMedia, ShowsFile;
    forall i | 0 <= i < |ss|
      ensures Called(SubtitleTrees(ss)[i], "res")
      ensures ShowsFile(ReadMedia(SubtitleTrees(ss)[i]), ss[i].url,
                        "http-get:*:" + (if ss[i].mime == "" then "text/plain" else ss[i].mime) + ":*")
    {
      SubtitleShown(ss[i]);
    }
  }

  /** The caption elements, when there is a first subtitle with a place. */
  lemma PrimaryHolds(ss: seq<Subtitle>, name: string)
    ensures Find(PrimaryTrees(ss), name)
            == if ss == [] || ss[0].url == "" then None
               else if name == "sec:CaptionInfo" || name == "sec:CaptionInfoEx" then
                 Some(Leaf(name, [("sec:type", Filter(ss[0].typ))], ss[0].url))
               else if name == "pv:subtitlefile" then Some(Leaf(name, [], ss[0].url))
               else None
    ensures name == "res" ==> All(PrimaryTrees(ss), name) == []
  {
    CaptionNamesDiffer();
    hide Find, All, Leaf, Content, Filter;
    if ss == [] || ss[0].url == "" {
      NoneCalled(PrimaryTrees(ss), name);
    } else {
      var attrs := [("sec:type", Filter(ss[0].typ))];
      var a, b := Leaf("sec:CaptionInfo", attrs, ss[0].url), Leaf("sec:CaptionInfoEx", attrs, ss[0].url);
      var c := Leaf("pv:subtitlefile", [], ss[0].url);
      LeafIs("sec:CaptionInfo", attrs, ss[0].url);
      LeafIs("sec:CaptionInfoEx", attrs, ss[0].url);
      LeafIs("pv:subtitlefile", [], ss[0].url);
      FindInFour(a, b, true, c, false, c, name);
      assert PrimaryTrees(ss) == [a, b] + [c] + [];
    }
  }

  lemma MiddleHolds(o: Object, name: string)
    requires name != "res"
    ensures Find(ResourceTrees(o.resources), name) == None && Find(ArtworkTrees(o), name) == None
    ensures Find(SubtitleTrees(o.subtitles), name) == None
    ensures All(ResourceTrees(o.resources), "res") == ResourceTrees(o.resources) && All(ArtworkTrees(o), "res") == ArtworkTrees(o)
    ensures All(SubtitleTrees(o.subtitles), "res") == SubtitleTrees(o.subtitles)
  {
    hide Find, All, ResourceTrees, SubtitleTrees, Leaf, ReadMedia, ShowsResource, ShowsFile, ShowsSubtitles, ReadMedias, Called;
    ResourcePartsShown(o);
    ResourcesHold(ResourceTrees(o.resources), name);
    ImageShown(o.artwork);
    ResourcesHold(ArtworkTrees(o), name);
    SubtitlePartsShown(o.subtitles);
    ResourcesHold(SubtitleTrees(o.subtitles), name);
  }

  /** A child of a name is in the head, or among the captions; the resources are in between. */
  lemma KidsHold(o: Object, name: string)
    requires name != "res"
    ensures Find(ObjectKids(o), name)
            == Or(Find(HeadTrees(o), name), if o.isItem then Find(PrimaryTrees(o.subtitles), name) else None)
  {
    hide Find, All, HeadTrees, ResourceTrees, ArtworkTrees, SubtitleTrees, PrimaryTrees;
    var h, r, a, t := HeadTrees(o), ResourceTrees(o.resources), ArtworkTrees(o), TailTrees(o);
    FindConcat(h + r + a, t, name);
    FindConcat(h + r, a, name);
    FindConcat(h, r, name);
    FindConcat(SubtitleTrees(o.subtitles), PrimaryTrees(o.subtitles), name);
    MiddleHolds(o, name);
    NoneCalled([], name);
  }

  /** All resources of an object. */
  lemma ResourcesOf(o: Object)
    ensures All(ObjectKids(o), "res")
            == ResourceTrees(o.resources) + ArtworkTrees(o) + if o.isItem then SubtitleTrees(o.subtitles) else []
  {
    hide Find, All, HeadTrees, ResourceTrees, ArtworkTrees, SubtitleTrees, PrimaryTrees;
    var h, r, a, t := HeadTrees(o), ResourceTrees(o.resources), ArtworkTrees(o), TailTrees(o);
    AllConcat(h + r + a, t, "res");
    AllConcat(h + r, a, "res");
    AllConcat(h, r, "res");
    AllConcat(SubtitleTrees(o.subtitles), PrimaryTrees(o.subtitles), "res");
    HeadHolds(o, "res");
    MiddleHolds(o, "");
    PrimaryHolds(o.subtitles, "res");
    NoneCalled([], "res");
  }

  lemma MediasOf(r: seq<Xml>, a: seq<Xml>, s: seq<Xml>)
    ensures var ms := ReadMedias(r + a + s);
            && |ms| == |r| + |a| + |s| && ms[|r| + |a|..] == ReadMedias(s)
            && (forall i :: 0 <= i < |r| ==> ms[i] == ReadMedia(r[i])) && (a != [] ==> ms[|r|] == ReadMedia(a[0]))
  {
    hide ReadMedia;
  }

  lemma MediaShown(o: Object)
    ensures ShowsMedia(ReadMedias(All(ObjectKids(o), "res")), o)
  {
    hide All, ObjectKids, ResourceTrees, SubtitleTrees, Leaf, ReadMedia, ReadMedias, ShowsResource, ShowsFile, ShowsSubtitles,
      Called;
    ResourcesOf(o);
    ResourcePartsShown(o);
    ImageShown(o.artwork);
    var ss := if o.isItem then o.subtitles else [];
    SubtitlePartsShown(ss);
    assert SubtitleTrees(ss) == if o.isItem then SubtitleTrees(o.subtitles) else [];
    MediasOf(ResourceTrees(o.resources), ArtworkTrees(o), SubtitleTrees(ss));
  }

  lemma CaptionsShown(o: Object)
    ensures ShowsCaptions(ReadEntry(ObjectTree(o)), o)
  {
    hide Find, All, ObjectKids, HeadTrees, PrimaryTrees, ReadMedias, AttrOf, ObjectAttrs, Leaf, Content, Filter, DateOf, TextIn;
    CaptionNamesDiffer();
    OtherCaptionNamesDiffer();
    KidsHold(o, "sec:CaptionInfo");
    KidsHold(o, "sec:CaptionInfoEx");
    KidsHold(o, "pv:subtitlefile");
    HeadHolds(o, "sec:CaptionInfo");
    HeadHolds(o, "sec:CaptionInfoEx");
    HeadHolds(o, "pv:subtitlefile");
    PrimaryHolds(o.subtitles, "sec:CaptionInfo");
    PrimaryHolds(o.subtitles, "sec:CaptionInfoEx");
    PrimaryHolds(o.subtitles, "pv:subtitlefile");
    if o.subtitles != [] {
      var attrs := [("sec:type", Filter(o.subtitles[0].typ))];
      LeafIs("sec:CaptionInfo", attrs, o.subtitles[0].url);
      LeafIs("sec:CaptionInfoEx", attrs, o.subtitles[0].url);
      LeafIs("pv:subtitlefile", [], o.subtitles[0].url);
      AttrOne("sec:type", Filter(o.subtitles[0].typ), "sec:type");
    }
  }

  lemma HeadShown(o: Object)
    ensures ShowsHead(ReadEntry(ObjectTree(o)), o)
  {
    hide Find, All, ObjectKids, HeadTrees, PrimaryTrees, ReadMedias, AttrOf, ObjectAttrs, Leaf, Content, Filter, ParseDate,
      DateText, Calendar;
    ChildNamesDiffer();
    CaptionNamesDiffer();
    OtherCaptionNamesDiffer();
    KidsHold(o, "dc:title");
    KidsHold(o, "upnp:class");
    KidsHold(o, "dc:date");
    KidsHold(o, "upnp:albumArtURI");
    HeadHolds(o, "dc:title");
    HeadHolds(o, "upnp:class");
    HeadHolds(o, "dc:date");
    HeadHolds(o, "upnp:albumArtURI");
    PrimaryHolds(o.subtitles, "dc:date");
    PrimaryHolds(o.subtitles, "upnp:albumArtURI");
    LeafIs("dc:title", [], o.title);
    LeafIs("upnp:class", [], o.cls);
    LeafIs("upnp:albumArtURI", [("dlna:profileID", "JPEG_TN")], o.artwork);
    AttrOne("dlna:profileID", "JPEG_TN", "dlna:profileID");
    if o.date.Some? {
      LeafIs("dc:date", [], DateText(o.date.value));
      DateClean(o.date.value);
      if Calendar(o.date.value) {
        DateReads(o.date.value);
      }
    }
  }

  lemma ObjectNamesDiffer()
    ensures "id" != "parentID" && "id" != "restricted" && "id" != "childCount" && "parentID" != "restricted"
    ensures "parentID" != "childCount" && "restricted" != "childCount" && "item" != "container"
  {
    assert "restricted"[0] != "childCount"[0];
  }

  lemma ObjectAttrOf(o: Object, name: string)
    ensures AttrOf(ObjectAttrs(o), name)
            == if name == "id" then Some(Filter(o.id)) else if name == "parentID" then Some(Filter(o.parentId))
               else if name == "restricted" then Some("1")
               else if name == "childCount" && !o.isItem && o.childCount > 0 then Some(Dec(o.childCount))
               else None
  {
    ObjectNamesDiffer();
    hide Filter, Dec, AttrOf;
    var a, b, c := [("id", Filter(o.id))], [("parentID", Filter(o.parentId))], [("restricted", "1")];
    var d := if !o.isItem && o.childCount > 0 then [("childCount", Dec(o.childCount))] else [];
    AmongFive(a, b, c, d, [], name);
    AttrOne("id", Filter(o.id), name);
    AttrOne("parentID", Filter(o.parentId), name);
    AttrOne("restricted", "1", name);
    InOneOrNone(!o.isItem && o.childCount > 0, "childCount", if !o.isItem && o.childCount > 0 then Dec(o.childCount) else "",
                name);
    assert ObjectAttrs(o) == a + b + c + d + [];
  }

  lemma IdentityShown(o: Object)
    ensures ShowsIdentity(ReadEntry(ObjectTree(o)), o)
  {
    hide Find, All, ObjectKids, ReadMedias, AttrOf, ObjectAttrs, Filter, Dec, Undec, DateOf, LinkOf, TextOf;
    ObjectNamesDiffer();
    ObjectAttrOf(o, "id");
    ObjectAttrOf(o, "parentID");
    ObjectAttrOf(o, "restricted");
    ObjectAttrOf(o, "childCount");
    if o.childCount > 0 {
      DecReads(o.childCount);
    }
  }

  lemma ObjectShown(o: Object)
    ensures var x := ObjectTree(o);
            (Called(x, "item") || Called(x, "container")) && Shows(ReadEntry(x), o)
  {
    hide ShowsIdentity, ShowsHead, ShowsCaptions, ShowsMedia, All, Find, ObjectKids, ObjectAttrs;
    IdentityShown(o);
    HeadShown(o);
    CaptionsShown(o);
    MediaShown(o);
  }

  lemma {:induction false} ObjectsShown(os: seq<Object>)
    ensures ShowsAll(ReadEntries(ObjectTrees(os)), os)
  {
    hide Shows, ReadEntry, ObjectTree, Called;
    if os != [] {
      ObjectShown(os[0]);
      ObjectsShown(os[1..]);
      assert ObjectTrees(os)[1..] == ObjectTrees(os[1..]);
    }
  }

  /**
   * A client that parses the rendered document is told each object's own identifiers, title, class, date, picture,
   * resources with their sizes, durations and dimensions, and captions, in order; only forbidden characters are missing.
   */
  lemma AnswerShowsObjects(objs: seq<Object>, doc: string)
    requires doc == Print(DocumentTree(objs))
    ensures ParseDocument(doc).Some? && ShowsAll(ReadAnswer(ParseDocument(doc).value), objs)
  {
    hide Print, ParseDocument, ReadEntries, ShowsAll, ObjectTrees;
    DocumentRoundTrip(objs);
    ObjectsShown(objs);
  }

  // What the library's nodes become.

  predicate ShowsSubtitleOf(m: Media, s: Server, v: Video, i: nat)
    requires i < |v.subs|
  {
    && m.url == Filter(s.base + ("/subs/" + (Dec(v.id) + ("/" + (Dec(i) + ("/" + s.escape(v.subs[i].name)))))))
    && m.protocolInfo == Some(Filter("http-get:*:" + (if v.subs[i].mime == "" then "text/plain" else v.subs[i].mime) + ":*"))
  }

  predicate ShowsTracks(ms: seq<Media>, s: Server, v: Video) {
    |ms| == |v.subs| && forall i :: 0 <= i < |v.subs| ==> ShowsSubtitleOf(ms[i], s, v, i)
  }

  /** The file itself: where it is, how it can be had, how large, how long and how wide it is, and its first captions. */
  predicate ShowsFilm(m: Media, s: Server, v: Video) {
    && m.url == Filter(s.base + "/media/" + Dec(v.id) + "/" + s.escape(v.fileName))
    && m.protocolInfo == Some(Filter("http-get:*:" + (if v.mime == "" then "video/mpeg" else v.mime)
         + ":DLNA.ORG_OP=01;DLNA.ORG_CI=0;DLNA.ORG_FLAGS=" + "01700000000000000000000000000000"))
    && m.size == (if v.size > 0 then Some(v.size as nat) else None)
    && m.millis == (if v.duration > 0 then Some((v.duration / 1_000_000) as nat) else None)
    && m.pixels == (if v.width > 0 && v.height > 0 then Some((v.width as nat, v.height as nat)) else None)
  }

  /** A video is an item with its file, then its picture if pictures can be made, then its subtitles. */
  predicate ShowsVideo(e: Entry, s: Server, v: Video) {
    var p, picture := if s.thumbnails then 1 else 0, Filter(s.base + "/thumb/" + Dec(v.id) + ".jpg");
    && e.isItem && e.id == Some(Dec(v.id)) && e.parent == Some(Dec(v.parentId)) && e.title == Some(Filter(v.title))
    && e.cls == Some("object.item.videoItem")
    && |e.media| == 1 + p + |v.subs| && ShowsFilm(e.media[0], s, v)
    && (s.thumbnails ==> e.picture == Some(Link(Some("JPEG_TN"), picture)) && e.media[1].url == picture)
    && (!s.thumbnails ==> e.picture == None)
    && ShowsTracks(e.media[1 + p..], s, v)
    && (v.subs == [] ==> e.media[0].captions == None && e.caption == None)
    && (v.subs != [] ==>
          && e.media[0].captions == Some(e.media[1 + p].url)
          && e.caption == Some(Link(Some(Filter(v.subs[0].typ)), e.media[1 + p].url)))
  }

  predicate ShowsNode(e: Entry, s: Server, n: Node) {
    match n
    case Film(v) => ShowsVideo(e, s, v)
    case Folder(id, parentId, title, date, children) =>
      && !e.isItem && e.id == Some(Dec(id)) && e.parent == Some(Dec(parentId)) && e.title == Some(Filter(title))
      && e.cls == Some("object.container.storageFolder") && e.children == (if children > 0 then Some(children) else None)
      && e.media == []
  }

  lemma ClassesPrint()
    ensures AllPrintable("object.item.videoItem") && AllPrintable("object.container.storageFolder")
  {
  }

  lemma ClassesClean()
    ensures Filter("object.item.videoItem") == "object.item.videoItem"
    ensures Filter("object.container.storageFolder") == "object.container.storageFolder"
  {
    ClassesPrint();
    hide AllPrintable, Filter, EscapedText, EscapedAttr, Clean;
    PrintableIsEscaped("object.item.videoItem");
    PrintableIsEscaped("object.container.storageFolder");
  }

  lemma VideoShown(e: Entry, s: Server, v: Video)
    requires Shows(e, VideoObject(s, v))
    ensures ShowsVideo(e, s, v)
  {
    hide Filter, Dec, Clean, ShowsIdentity, ShowsHead, ShowsMedia, ShowsCaptions, ShowsTracks, ShowsFilm;
    VideoIdentity(e, s, v);
    VideoMedia(e, s, v);
    VideoCaptions(e, s, v);
  }

  lemma VideoIdentity(e: Entry, s: Server, v: Video)
    requires Shows(e, VideoObject(s, v))
    ensures e.isItem && e.id == Some(Dec(v.id)) && e.parent == Some(Dec(v.parentId)) && e.title == Some(Filter(v.title))
    ensures e.cls == Some("object.item.videoItem")
    ensures e.picture == if s.thumbnails then Some(Link(Some("JPEG_TN"), Filter(s.base + "/thumb/" + Dec(v.id) + ".jpg"))) else None
  {
    hide Filter, Dec, ShowsMedia, ShowsCaptions, Calendar, VideoResource, MediaUrl;
    DecFiltered(v.id);
    DecFiltered(v.parentId);
    ClassesClean();
  }

  lemma VideoMedia(e: Entry, s: Server, v: Video)
    requires Shows(e, VideoObject(s, v))
    ensures var p := if s.thumbnails then 1 else 0;
            && |e.media| == 1 + p + |v.subs| && ShowsFilm(e.media[0], s, v)
            && (s.thumbnails ==> e.media[1].url == Filter(s.base + "/thumb/" + Dec(v.id) + ".jpg"))
            && ShowsTracks(e.media[1 + p..], s, v)
            && e.media[0].captions == (if v.subs == [] then None else Some(e.media[1 + p].url))
            && (v.subs != [] ==> e.media[1 + p].url == Filter(SubtitleUrl(s, v, 0)))
  {
    hide Filter, Dec, ShowsIdentity, ShowsHead, ShowsCaptions;
    var o := VideoObject(s, v);
    var p := if s.thumbnails then 1 else 0;
    assert ShowsResource(e.media[0], o.resources[0]);
    assert o.artwork != "" <==> s.thumbnails;
    forall i | 0 <= i < |v.subs|
      ensures ShowsSubtitleOf(e.media[1 + p..][i], s, v, i)
      ensures e.media[1 + p..][i].url == Filter(SubtitleUrl(s, v, i))
    {
      assert ShowsFile(e.media[1 + p..][i], o.subtitles[i].url,
                       "http-get:*:" + (if v.subs[i].mime == "" then "text/plain" else v.subs[i].mime) + ":*");
    }
    assert v.subs != [] ==> SubtitleUrl(s, v, 0) != "" && e.media[1 + p..][0] == e.media[1 + p];
  }

  lemma VideoCaptions(e: Entry, s: Server, v: Video)
    requires Shows(e, VideoObject(s, v))
    ensures e.caption == if v.subs == [] then None else Some(Link(Some(Filter(v.subs[0].typ)), Filter(SubtitleUrl(s, v, 0))))
  {
    hide Filter, Dec, ShowsIdentity, ShowsHead, ShowsMedia;
    assert v.subs != [] ==> SubtitleUrl(s, v, 0) != "";
  }

  lemma FolderShown(e: Entry, s: Server, n: Node)
    requires n.Folder? && Shows(e, NodeObject(s, n))
    ensures ShowsNode(e, s, n)
  {
    hide Filter, Dec, ShowsResource, ShowsFile, Calendar;
    DecFiltered(n.id);
    DecFiltered(n.parentId);
    ClassesClean();
    assert e.media[0..] == e.media;
  }

  /** From nodes to what the client sees: each node's own number, parent, title, place, size, duration, dimensions and captions. */
  lemma AnswerShowsNodes(s: Server, nodes: seq<Node>, objs: seq<Object>, doc: string)
    requires |objs| == |nodes| && forall i :: 0 <= i < |nodes| ==> objs[i] == NodeObject(s, nodes[i])
    requires doc == Print(DocumentTree(objs))
    ensures ParseDocument(doc).Some?
    ensures var es := ReadAnswer(ParseDocument(doc).value);
            |es| == |nodes| && forall i :: 0 <= i < |nodes| ==> ShowsNode(es[i], s, nodes[i])
  {
    hide Print, ParseDocument, ReadAnswer, DocumentTree, Shows, ShowsVideo;
    AnswerShowsObjects(objs, doc);
    var es := ReadAnswer(ParseDocument(doc).value);
    forall i | 0 <= i < |nodes|
      ensures ShowsNode(es[i], s, nodes[i])
    {
      if nodes[i].Film? {
        VideoShown(es[i], s, nodes[i].video);
      } else {
        FolderShown(es[i], s, nodes[i]);
      }
    }
  }

  // One duration and one date, character by character.

  /** The digits of small numbers, padded to two or three places. */
  lemma SmallNumbers(n: nat)
    requires n < 10
    ensures Dec(n) == [Digit(n)] && Padded(n, 2) == ['0', Digit(n)]
  {
    assert Zeros(1) == "0" + Zeros(0);
  }

  lemma TwoPlaces(n: nat)
    requires 10 <= n < 100
    ensures Dec(n) == [Digit(n / 10), Digit(n % 10)] && Padded(n, 2) == Dec(n)
  {
    SmallNumbers(n / 10);
  }

  lemma ThreePlaces(n: nat)
    requires 100 <= n < 1000
    ensures Dec(n) == Dec(n / 10) + [Digit(n % 10)] && Padded(n, 3) == Dec(n) && |Dec(n)| == 3
  {
    TwoPlaces(n / 10);
  }

  lemma FourPlaces(n: nat)
    requires 1000 <= n < 10000
    ensures Dec(n) == Dec(n / 10) + [Digit(n % 10)] && Padded(n, 4) == Dec(n)
  {
    ThreePlaces(n / 10);
  }

  lemma JoinedClock(h: string, m: string, s: string, ms: string)
    requires h == "1" && m == "23" && s == "45" && ms == "678"
    ensures h + (":" + m + ":" + s + "." + ms) == "1:23:45.678"
  {
  }

  lemma KnownDuration()
    ensures DurationText(5_025_678_000_000) == "1:23:45.678"
  {
    hide Dec, Padded;
    SmallNumbers(1);
    TwoPlaces(23);
    TwoPlaces(45);
    TwoPlaces(67);
    ThreePlaces(678);
    JoinedClock(Dec(1), Padded(23, 2), Padded(45, 2), Padded(678, 3));
  }

  lemma JoinedDate(y: string, mo: string, d: string, h: string, mi: string, s: string)
    requires y == "2024" && mo == "02" && d == "09" && h == "21" && mi == "05" && s == "07"
    ensures y + "-" + mo + "-" + d + "T" + h + ":" + mi + ":" + s == "2024-02-09T21:05:07"
  {
  }

  lemma KnownDate()
    ensures DateText(Date(2024, 2, 9, 21, 5, 7)) == "2024-02-09T21:05:07"
  {
    hide Dec, Padded;
    TwoPlaces(20);
    ThreePlaces(202);
    FourPlaces(2024);
    SmallNumbers(2);
    SmallNumbers(9);
    TwoPlaces(21);
    SmallNumbers(5);
    SmallNumbers(7);
    JoinedDate(Padded(2024, 4), Padded(2, 2), Padded(9, 2), Padded(21, 2), Padded(5, 2), Padded(7, 2));
  }
}
