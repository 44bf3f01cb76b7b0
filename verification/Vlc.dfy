/**
 * The subtitle tracks VLC collects from an item: the Samsung caption element, the
 * attribute on the video resource and every text resource, as a set keyed by URL and
 * listed in key order. Three redundant channels come to one track for each file.
 */
module Vlc {
  import opened Bytes
  import opened Decimal
  import opened Ordering
  import opened Xml
  import opened Didl
  import opened DidlReading
  import opened Objects

  /** Contents of the children of a name. */
  function Contents(kids: seq<Xml>, name: string): seq<string> {
    if kids == [] then [] else (if Called(kids[0], name) then [Content(kids[0])] else []) + Contents(kids[1..], name)
  }

  const TEXT_INFO := "http-get:*:text/"

  predicate IsTextResource(x: Xml) {
    Called(x, "res") && AttrOf(x.attrs, "protocolInfo").Some? && TEXT_INFO <= AttrOf(x.attrs, "protocolInfo").value
  }

  function TextResources(kids: seq<Xml>): seq<string> {
    if kids == [] then [] else (if IsTextResource(kids[0]) then [Content(kids[0])] else []) + TextResources(kids[1..])
  }

  function UriAttr(x: Xml): seq<string> {
    if Called(x, "res") && AttrOf(x.attrs, "pv:subtitleFileUri").Some? then [AttrOf(x.attrs, "pv:subtitleFileUri").value]
    else []
  }

  function UriAttrs(kids: seq<Xml>): seq<string> {
    if kids == [] then [] else UriAttr(kids[0]) + UriAttrs(kids[1..])
  }

  /** The caption element, or failing that its Ex form. */
  function Caption(kids: seq<Xml>): seq<string> {
    var c, ex := Contents(kids, "sec:CaptionInfo"), Contents(kids, "sec:CaptionInfoEx");
    if c != [] then [c[0]] else if ex != [] then [ex[0]] else []
  }

  /** Adding a key to a set that is kept in key order. */
  function Inserted(s: seq<string>, x: string): seq<string> {
    if s == [] || Before(x, s[0]) then [x] + s else if x == s[0] then s else [s[0]] + Inserted(s[1..], x)
  }

  /** The set of some keys, listed in key order. */
  function KeySet(s: seq<string>): seq<string> {
    if s == [] then [] else Inserted(KeySet(s[..|s| - 1]), s[|s| - 1])
  }

  function Tracks(item: Xml): seq<string> {
    if item.Text? then [] else KeySet(Caption(item.kids) + UriAttrs(item.kids) + TextResources(item.kids))
  }

  // Collecting from concatenated children.

  lemma {:induction false} TextConcat(a: seq<Xml>, b: seq<Xml>)
    ensures TextResources(a + b) == TextResources(a) + TextResources(b)
  {
    hide IsTextResource, Content;
    if a == [] {
      assert a + b == b;
    } else {
      assert (a + b)[1..] == a[1..] + b;
      TextConcat(a[1..], b);
    }
  }

  lemma {:induction false} UriConcat(a: seq<Xml>, b: seq<Xml>)
    ensures UriAttrs(a + b) == UriAttrs(a) + UriAttrs(b)
  {
    hide UriAttr;
    if a == [] {
      assert a + b == b;
    } else {
      assert (a + b)[1..] == a[1..] + b;
      UriConcat(a[1..], b);
    }
  }

  lemma {:induction false} ContentsConcat(a: seq<Xml>, b: seq<Xml>, name: string)
    ensures Contents(a + b, name) == Contents(a, name) + Contents(b, name)
  {
    hide Content, Called;
    if a == [] {
      assert a + b == b;
    } else {
      assert (a + b)[1..] == a[1..] + b;
      ContentsConcat(a[1..], b, name);
    }
  }

  lemma CollectConcat(a: seq<Xml>, b: seq<Xml>)
    ensures TextResources(a + b) == TextResources(a) + TextResources(b) && UriAttrs(a + b) == UriAttrs(a) + UriAttrs(b)
    ensures Contents(a + b, "sec:CaptionInfo") == Contents(a, "sec:CaptionInfo") + Contents(b, "sec:CaptionInfo")
  {
    hide *;
    TextConcat(a, b);
    UriConcat(a, b);
    ContentsConcat(a, b, "sec:CaptionInfo");
  }

  /** An element that carries no track in any of the three ways. */
  predicate Silent(x: Xml) {
    !IsTextResource(x) && UriAttr(x) == [] && !Called(x, "sec:CaptionInfo")
  }

  lemma {:induction false} SilentCollects(xs: seq<Xml>)
    requires forall i :: 0 <= i < |xs| ==> Silent(xs[i])
    ensures TextResources(xs) == [] && UriAttrs(xs) == [] && Contents(xs, "sec:CaptionInfo") == []
  {
    hide IsTextResource, UriAttr, Content, Called;
    if xs != [] {
      assert Silent(xs[0]);
      SilentCollects(xs[1..]);
    }
  }

  lemma ResNamesDiffer()
    ensures "dc:title" != "res" && "upnp:class" != "res" && "dc:date" != "res" && "upnp:albumArtURI" != "res"
    ensures "sec:CaptionInfo" != "res" && "sec:CaptionInfoEx" != "res" && "pv:subtitlefile" != "res"
    ensures "dc:title" != "sec:CaptionInfo" && "upnp:class" != "sec:CaptionInfo" && "dc:date" != "sec:CaptionInfo"
    ensures "upnp:albumArtURI" != "sec:CaptionInfo" && "sec:CaptionInfoEx" != "sec:CaptionInfo"
    ensures "pv:subtitlefile" != "sec:CaptionInfo" && "protocolInfo" != "pv:subtitleFileUri"
    ensures "size" != "pv:subtitleFileUri" && "duration" != "pv:subtitleFileUri" && "resolution" != "pv:subtitleFileUri"
  {
  }

  lemma OtherLeafSilent(name: string, attrs: seq<(string, string)>, text: string)
    requires name != "res" && name != "sec:CaptionInfo"
    ensures Silent(Leaf(name, attrs, text))
  {
    hide AttrOf;
  }

  /** A res leaf with only a protocolInfo. */
  lemma PlainRes(info: string, url: string)
    ensures var x := Leaf("res", [("protocolInfo", info)], url);
            && (IsTextResource(x) <==> TEXT_INFO <= info) && UriAttr(x) == [] && !Called(x, "sec:CaptionInfo")
            && Content(x) == Filter(url)
  {
    ResNamesDiffer();
    LeafContent("res", [("protocolInfo", info)], url);
    hide Filter, Content;
    var attrs := [("protocolInfo", info)];
    assert attrs[1..] == [];
    assert AttrOf(attrs, "protocolInfo") == Some(info);
    assert AttrOf(attrs, "pv:subtitleFileUri") == None;
  }

  /** An item's head carries no tracks. */
  lemma HeadSilent(o: Object)
    ensures forall i :: 0 <= i < |HeadTrees(o)| ==> Silent(HeadTrees(o)[i])
  {
    hide Silent, Leaf, DateText;
    ResNamesDiffer();
    OtherLeafSilent("dc:title", [], o.title);
    OtherLeafSilent("upnp:class", [], o.cls);
    if o.date.Some? {
      OtherLeafSilent("dc:date", [], DateText(o.date.value));
    }
    OtherLeafSilent("upnp:albumArtURI", [("dlna:profileID", "JPEG_TN")], o.artwork);
  }

  lemma NotText(info: string)
    requires |info| >= 16 && info[11] == 'v'
    ensures !(TEXT_INFO <= info)
  {
    assert TEXT_INFO[11] == 't' && |TEXT_INFO| == 16;
  }

  lemma ImageIsNotText()
    ensures !(TEXT_INFO <= IMAGE_INFO)
  {
    assert TEXT_INFO[11] == 't' && IMAGE_INFO[11] == 'i';
  }

  lemma ArtworkSilent(o: Object)
    ensures forall i :: 0 <= i < |ArtworkTrees(o)| ==> Silent(ArtworkTrees(o)[i])
  {
    PlainRes(IMAGE_INFO, o.artwork);
    ImageIsNotText();
  }

  const HTTP_GET := "http-get:*:"

  lemma HttpGetClean()
    ensures Filter(HTTP_GET) == HTTP_GET
  {
    FilterClean(HTTP_GET);
  }

  lemma InfoFiltered(start: string, mime: string, rest: string)
    requires Filter(start) == start
    ensures Filter(start + mime + rest) == start + (Filter(mime) + Filter(rest))
  {
    hide Filter;
    FilterConcat(start, mime);
    FilterConcat(start + mime, rest);
  }

  lemma PrefixFiltered(mime: string, rest: string)
    ensures Filter(HTTP_GET + mime + rest) == HTTP_GET + (Filter(mime) + Filter(rest))
  {
    hide Filter;
    HttpGetClean();
    InfoFiltered(HTTP_GET, mime, rest);
  }

  lemma FilteredPrefix(p: string, s: string)
    requires p <= s && Clean(p)
    ensures p <= Filter(s)
  {
    FilterClean(p);
    FilterConcat(p, s[|p|..]);
    assert s == p + s[|p|..];
  }

  /** A subtitle resource is a text resource whenever its MIME type is a text one. */
  lemma SubtitleInfoIsText(mime: string)
    requires mime == "" || "text/" <= mime
    ensures TEXT_INFO <= Filter(SubtitleProtocolInfo(mime))
  {
    var m := if mime == "" then "text/plain" else mime;
    assert "text/" <= m;
    FilteredPrefix("text/", m);
    PrefixFiltered(m, ":*");
    hide Filter;
    var f := HTTP_GET + (Filter(m) + Filter(":*"));
    assert TEXT_INFO == HTTP_GET + "text/";
    assert TEXT_INFO <= f;
  }

  /** A video resource is not. */
  lemma VideoInfoIsNotText(mime: string)
    requires mime == "" || "video/" <= mime
    ensures !(TEXT_INFO <= Filter(VideoProtocolInfo(mime)))
  {
    var m := if mime == "" then "video/mpeg" else mime;
    var rest := ":DLNA.ORG_OP=01;DLNA.ORG_CI=0;DLNA.ORG_FLAGS=" + VIDEO_FLAGS;
    assert "video/" <= m;
    FilteredPrefix("video/", m);
    hide Filter;
    PrefixFiltered(m, rest);
    assert VideoProtocolInfo(mime) == HTTP_GET + m + rest;
    var f := HTTP_GET + (Filter(m) + Filter(rest));
    assert Filter(m)[0] == 'v' && f[11] == 'v' && |f| >= 16;
    NotText(f);
  }

  lemma VideoAttrs(r: Resource)
    ensures AttrOf(ResourceAttrs(r), "protocolInfo") == Some(Filter(r.protocolInfo))
    ensures AttrOf(ResourceAttrs(r), "pv:subtitleFileUri")
            == if r.subtitleUri == "" then None else Some(Filter(r.subtitleUri))
  {
    hide Filter, Dec, DurationText;
    ResNamesDiffer();
    var a := ResourceAttrs(r);
    var u: seq<(string, string)> := if r.subtitleUri != "" then [("pv:subtitleFileUri", Filter(r.subtitleUri))] else [];
    var m := (if r.size > 0 then [("size", Dec(r.size))] else [])
             + (if r.duration > 0 then [("duration", DurationText(r.duration))] else [])
             + (if r.width > 0 && r.height > 0 then [("resolution", Dec(r.width) + "x" + Dec(r.height))] else []);
    var p := [("protocolInfo", Filter(r.protocolInfo))];
    assert a == p + (m + u);
    AttrSkips(p, m + u, "pv:subtitleFileUri");
    AttrSkips(m, u, "pv:subtitleFileUri");
    assert u != [] ==> u[1..] == [];
  }

  lemma {:induction false} AttrSkips(a: seq<(string, string)>, b: seq<(string, string)>, name: string)
    requires forall i :: 0 <= i < |a| ==> a[i].0 != name
    ensures AttrOf(a + b, name) == AttrOf(b, name)
  {
    if a == [] {
      assert a + b == b;
    } else {
      assert (a + b)[1..] == a[1..] + b;
      AttrSkips(a[1..], b, name);
    }
  }

  /** The video resource is silent except for its attribute. */
  lemma VideoResourceCollects(r: Resource)
    requires !(TEXT_INFO <= Filter(r.protocolInfo))
    ensures var xs := ResourceTrees([r]);
            && TextResources(xs) == [] && Contents(xs, "sec:CaptionInfo") == []
            && UriAttrs(xs) == if r.subtitleUri == "" then [] else [Filter(r.subtitleUri)]
  {
    ResNamesDiffer();
    VideoAttrs(r);
    hide Filter, ResourceAttrs;
    var xs := ResourceTrees([r]);
    assert xs == [ResourceTree(r)];
    var x := ResourceTree(r);
    assert x.name == "res" && x.attrs == ResourceAttrs(r);
    assert !IsTextResource(x) && !Called(x, "sec:CaptionInfo");
    assert xs[1..] == [];
  }

  /** Filtered subtitle URLs, in order. */
  function Urls(ss: seq<Subtitle>): (r: seq<string>)
    ensures |r| == |ss| && forall i :: 0 <= i < |r| ==> r[i] == Filter(ss[i].url)
  {
    seq(|ss|, i requires 0 <= i < |ss| => Filter(ss[i].url))
  }

  predicate TextMime(s: Subtitle) {
    s.mime == "" || "text/" <= s.mime
  }

  lemma {:induction false} SubtitlesCollect(ss: seq<Subtitle>)
    requires forall i :: 0 <= i < |ss| ==> TextMime(ss[i])
    ensures TextResources(SubtitleTrees(ss)) == Urls(ss)
    ensures UriAttrs(SubtitleTrees(ss)) == [] && Contents(SubtitleTrees(ss), "sec:CaptionInfo") == []
  {
    hide IsTextResource, UriAttr, Content, Called, Filter, SubtitleProtocolInfo, Leaf;
    if ss != [] {
      assert TextMime(ss[0]);
      SubtitleInfoIsText(ss[0].mime);
      PlainRes(Filter(SubtitleProtocolInfo(ss[0].mime)), ss[0].url);
      SubtitlesCollect(ss[1..]);
      assert SubtitleTrees(ss)[1..] == SubtitleTrees(ss[1..]);
      assert Urls(ss) == [Filter(ss[0].url)] + Urls(ss[1..]);
    }
  }

  lemma PrimaryCollects(ss: seq<Subtitle>)
    requires ss != [] && ss[0].url != ""
    ensures var xs := PrimaryTrees(ss);
            && TextResources(xs) == [] && UriAttrs(xs) == [] && Contents(xs, "sec:CaptionInfo") == [Filter(ss[0].url)]
  {
    hide Filter, IsTextResource, UriAttr, Content, Leaf, Called;
    var attrs := [("sec:type", Filter(ss[0].typ))];
    var c := Leaf("sec:CaptionInfo", attrs, ss[0].url);
    var rest := [Leaf("sec:CaptionInfoEx", attrs, ss[0].url), Leaf("pv:subtitlefile", [], ss[0].url)];
    CaptionCollects(attrs, ss[0].url);
    ResNamesDiffer();
    OtherLeafSilent("sec:CaptionInfoEx", attrs, ss[0].url);
    OtherLeafSilent("pv:subtitlefile", [], ss[0].url);
    SilentCollects(rest);
    assert PrimaryTrees(ss) == [c] + rest;
    assert ([c] + rest)[1..] == rest;
  }

  lemma CaptionCollects(attrs: seq<(string, string)>, url: string)
    ensures var x := Leaf("sec:CaptionInfo", attrs, url);
            && !IsTextResource(x) && UriAttr(x) == [] && Called(x, "sec:CaptionInfo") && Content(x) == Filter(url)
  {
    ResNamesDiffer();
    LeafContent("sec:CaptionInfo", attrs, url);
    hide AttrOf, Filter, Content;
  }

  /** What the rendered item offers through each channel. */
  lemma ItemCollects(o: Object)
    requires o.isItem && |o.resources| == 1 && !(TEXT_INFO <= Filter(o.resources[0].protocolInfo))
    requires forall i :: 0 <= i < |o.subtitles| ==> TextMime(o.subtitles[i])
    requires o.subtitles == [] ==> o.resources[0].subtitleUri == ""
    requires o.subtitles != [] ==> o.subtitles[0].url == o.resources[0].subtitleUri != ""
    ensures var kids := ObjectKids(o);
            var first := if o.subtitles == [] then [] else [Filter(o.subtitles[0].url)];
            TextResources(kids) == Urls(o.subtitles) && UriAttrs(kids) == first && Contents(kids, "sec:CaptionInfo") == first
  {
    hide Filter, TextResources, UriAttrs, Contents, HeadTrees, ResourceTrees, ArtworkTrees, SubtitleTrees, PrimaryTrees;
    var h, r, a := HeadTrees(o), ResourceTrees(o.resources), ArtworkTrees(o);
    HeadSilent(o);
    SilentCollects(h);
    ArtworkSilent(o);
    SilentCollects(a);
    assert o.resources == [o.resources[0]];
    VideoResourceCollects(o.resources[0]);
    SubtitlesCollect(o.subtitles);
    TailCollects(o);
    CollectConcat(h, r);
    CollectConcat(h + r, a);
    CollectConcat(h + r + a, TailTrees(o));
  }

  lemma TailCollects(o: Object)
    requires o.isItem && forall i :: 0 <= i < |o.subtitles| ==> TextMime(o.subtitles[i])
    requires o.subtitles != [] ==> o.subtitles[0].url != ""
    ensures var first := if o.subtitles == [] then [] else [Filter(o.subtitles[0].url)];
            && TextResources(TailTrees(o)) == Urls(o.subtitles) && UriAttrs(TailTrees(o)) == []
            && Contents(TailTrees(o), "sec:CaptionInfo") == first
  {
    SubtitlesCollect(o.subtitles);
    if o.subtitles != [] {
      PrimaryCollects(o.subtitles);
    } else {
      assert PrimaryTrees(o.subtitles) == [];
      assert TailTrees(o) == [];
    }
    hide Filter, TextResources, UriAttrs, Contents, SubtitleTrees, PrimaryTrees;
    CollectConcat(SubtitleTrees(o.subtitles), PrimaryTrees(o.subtitles));
  }

  ghost predicate NoRepeats(s: seq<string>) {
    forall i, j :: 0 <= i < j < |s| ==> s[i] != s[j]
  }

  /** Every key is less than the ones after it. */
  ghost predicate Ascending(s: seq<string>) {
    forall i, j :: 0 <= i < j < |s| ==> Before(s[i], s[j])
  }

  lemma {:induction false} InsertedMeans(s: seq<string>, x: string)
    requires Ascending(s)
    ensures Ascending(Inserted(s, x)) && forall y :: y in Inserted(s, x) <==> y == x || y in s
  {
    hide Before;
    if s != [] && !Before(x, s[0]) && x != s[0] {
      InsertedMeans(s[1..], x);
      BeforeTrichotomy(x, s[0]);
      assert s == [s[0]] + s[1..];
      AscendingCons(s[0], Inserted(s[1..], x));
    } else if s != [] && x != s[0] {
      forall y | y in s
        ensures Before(x, y)
      {
        if y != s[0] {
          BeforeTransitive(x, s[0], y);
        }
      }
      AscendingCons(x, s);
    }
  }

  lemma AscendingCons(x: string, s: seq<string>)
    requires Ascending(s) && forall y :: y in s ==> Before(x, y)
    ensures Ascending([x] + s)
  {
    hide Before;
  }

  /** The set holds the keys it is made from, each once, in order. */
  lemma {:induction false} KeySetMeans(s: seq<string>)
    ensures Ascending(KeySet(s)) && forall y :: y in KeySet(s) <==> y in s
  {
    hide Inserted, Before;
    if s != [] {
      KeySetMeans(s[..|s| - 1]);
      InsertedMeans(KeySet(s[..|s| - 1]), s[|s| - 1]);
      assert s == s[..|s| - 1] + [s[|s| - 1]];
    }
  }

  lemma AscendingHasNoRepeats(s: seq<string>)
    requires Ascending(s)
    ensures NoRepeats(s)
  {
    hide Before;
    forall i, j | 0 <= i < j < |s|
      ensures s[i] != s[j]
    {
      BeforeIrreflexive(s[i]);
    }
  }

  lemma {:induction false} OnceEach(s: seq<string>, y: string)
    requires NoRepeats(s)
    ensures multiset(s)[y] == if y in s then 1 else 0
  {
    if s != [] {
      OnceEach(s[1..], y);
      assert s == [s[0]] + s[1..];
    }
  }

  lemma SameKeys(a: seq<string>, b: seq<string>)
    requires NoRepeats(a) && NoRepeats(b) && forall y :: y in a <==> y in b
    ensures multiset(a) == multiset(b) && |a| == |b|
  {
    hide NoRepeats;
    forall y: string
      ensures multiset(a)[y] == multiset(b)[y]
    {
      OnceEach(a, y);
      OnceEach(b, y);
    }
    assert |multiset(a)| == |a| && |multiset(b)| == |b|;
  }

  lemma AscendingIsUnique(a: seq<string>, b: seq<string>)
    requires Ascending(a) && Ascending(b) && multiset(a) == multiset(b)
    ensures a == b
  {
    hide Before;
    var less := (x: string, y: string) => Before(x, y);
    forall x: string, y: string
      ensures x != y ==> less(x, y) || less(y, x)
      ensures !(less(x, y) && less(y, x))
    {
      BeforeTrichotomy(x, y);
    }
    SortedIsUnique(a, b, less);
  }

  lemma FirstIsLeast(s: seq<string>, x: string)
    requires Ascending(s) && x in s && forall y :: y in s ==> y == x || Before(x, y)
    ensures s[0] == x
  {
    hide Before;
    if s[0] != x {
      BeforeTrichotomy(x, s[0]);
    }
  }

  // The order of the URLs of one video.

  predicate Digits(s: string) {
    forall i :: 0 <= i < |s| ==> IsDigit(s[i])
  }

  /** Two texts that start with different numbers and a slash are ordered as the numbers' digits are. */
  lemma {:induction false} SlashOrder(d: string, e: string, a: string, b: string)
    requires Digits(d) && Digits(e) && d != e
    ensures Before(d + ("/" + a), e + ("/" + b)) <==> Before(d, e)
  {
    var x, y := d + ("/" + a), e + ("/" + b);
    if d != "" && e != "" {
      assert x[0] == d[0] && y[0] == e[0] && x[1..] == d[1..] + ("/" + a) && y[1..] == e[1..] + ("/" + b);
      if d[0] == e[0] {
        assert d == [d[0]] + d[1..] && e == [e[0]] + e[1..];
        SlashOrder(d[1..], e[1..], a, b);
      }
    } else if d == "" {
      assert x[0] == '/' && y[0] == e[0];
    } else {
      assert x[0] == d[0] && y[0] == '/';
    }
  }

  lemma {:induction false} PrefixOrder(p: string, a: string, b: string)
    ensures Before(p + a, p + b) <==> Before(a, b)
  {
    if p == "" {
      assert p + a == a && p + b == b;
    } else {
      assert (p + a)[1..] == p[1..] + a && (p + b)[1..] == p[1..] + b;
      PrefixOrder(p[1..], a, b);
    }
  }

  /** What the URLs of the tracks of a video have in common, up to the track's index. */
  function UrlStart(s: Server, v: Video): string {
    Filter(s.base) + ("/subs/" + (Dec(v.id) + "/"))
  }

  lemma UrlParts(s: Server, v: Video, i: nat)
    requires i < |v.subs|
    ensures Filter(SubtitleUrl(s, v, i)) == UrlStart(s, v) + (Dec(i) + ("/" + Filter(s.escape(v.subs[i].name))))
  {
    hide Filter, Dec;
    var name := s.escape(v.subs[i].name);
    FilterConcat(s.base, SubtitlePath(v, i, name));
    PathFiltered(v, i, name);
    var rest := Dec(i) + ("/" + Filter(name));
    assert "/subs/" + (Dec(v.id) + ("/" + rest)) == ("/subs/" + (Dec(v.id) + "/")) + rest;
    assert Filter(s.base) + (("/subs/" + (Dec(v.id) + "/")) + rest) == UrlStart(s, v) + rest;
  }

  /** The URLs of two tracks are ordered as the decimal digits of their indexes are, whatever the files are called. */
  lemma UrlOrder(s: Server, v: Video, i: nat, j: nat)
    requires i < |v.subs| && j < |v.subs| && i != j
    ensures Before(Filter(SubtitleUrl(s, v, i)), Filter(SubtitleUrl(s, v, j))) <==> Before(Dec(i), Dec(j))
  {
    hide Filter, SubtitleUrl, Dec, Before, UrlStart;
    UrlParts(s, v, i);
    UrlParts(s, v, j);
    DecReads(i);
    DecReads(j);
    var a, b := "/" + Filter(s.escape(v.subs[i].name)), "/" + Filter(s.escape(v.subs[j].name));
    PrefixOrder(UrlStart(s, v), Dec(i) + a, Dec(j) + b);
    SlashOrder(Dec(i), Dec(j), Filter(s.escape(v.subs[i].name)), Filter(s.escape(v.subs[j].name)));
  }

  lemma {:induction false} DecHead(n: nat)
    requires n > 0
    ensures '1' <= Dec(n)[0] <= '9'
  {
    if n >= 10 {
      DecHead(n / 10);
    }
  }

  /** Zero's digits come before those of every other number. */
  lemma ZeroFirst(n: nat)
    requires n > 0
    ensures Before(Dec(0), Dec(n))
  {
    DecHead(n);
  }

  lemma OneDigitOrder(i: nat, j: nat)
    requires i < j < 10
    ensures Before(Dec(i), Dec(j))
  {
  }

  lemma TenBeforeTwo()
    ensures Dec(10) == "10" && Before(Dec(10), Dec(2)) && !Before(Dec(2), Dec(10))
  {
    assert Dec(10 / 10) == "1";
  }

  /** The URLs are in order exactly when no index has two digits. */
  lemma UrlsAscend(s: Server, v: Video)
    ensures Ascending(Urls(Subtitles(s, v))) <==> |v.subs| <= 10
  {
    hide Filter, SubtitleUrl, Dec, Before;
    var urls := Urls(Subtitles(s, v));
    if |v.subs| <= 10 {
      forall i, j | 0 <= i < j < |urls|
        ensures Before(urls[i], urls[j])
      {
        UrlOrder(s, v, i, j);
        OneDigitOrder(i, j);
      }
    } else {
      UrlOrder(s, v, 2, 10);
      TenBeforeTwo();
      assert !Before(urls[2], urls[10]);
    }
  }

  lemma {:induction false} NoneCalled(kids: seq<Xml>, name: string)
    requires forall i :: 0 <= i < |kids| ==> !Called(kids[i], name)
    ensures Contents(kids, name) == []
  {
    hide Called, Content;
    if kids != [] {
      NoneCalled(kids[1..], name);
    }
  }

  /** Without subtitles nothing is a caption of either form. */
  lemma NoCaptions(o: Object)
    requires o.subtitles == [] && Contents(ObjectKids(o), "sec:CaptionInfo") == []
    ensures Caption(ObjectKids(o)) == []
  {
    ExNamesDiffer();
    hide Contents, Leaf, DateText, ResourceAttrs;
    var kids := ObjectKids(o);
    assert TailTrees(o) == [];
    forall i | 0 <= i < |kids|
      ensures !Called(kids[i], "sec:CaptionInfoEx")
    {
      NameOfKid(o, i);
    }
    NoneCalled(kids, "sec:CaptionInfoEx");
  }

  lemma ExNamesDiffer()
    ensures "dc:title" != "sec:CaptionInfoEx" && "upnp:class" != "sec:CaptionInfoEx" && "dc:date" != "sec:CaptionInfoEx"
    ensures "upnp:albumArtURI" != "sec:CaptionInfoEx" && "res" != "sec:CaptionInfoEx"
  {
  }

  lemma NameOfKid(o: Object, i: nat)
    requires o.subtitles == [] && i < |ObjectKids(o)|
    ensures !Called(ObjectKids(o)[i], "sec:CaptionInfoEx")
  {
    ExNamesDiffer();
    hide DateText, ResourceAttrs, Filter;
    assert TailTrees(o) == [];
    var h, r, a := HeadTrees(o), ResourceTrees(o.resources), ArtworkTrees(o);
    assert ObjectKids(o) == h + r + a + [];
    if i < |h| {
      assert ObjectKids(o)[i] == h[i];
    } else if i < |h| + |r| {
      assert ObjectKids(o)[i] == r[i - |h|];
    } else {
      assert ObjectKids(o)[i] == a[i - |h| - |r|];
    }
  }

  lemma UrlsHaveNoRepeats(s: Server, v: Video)
    ensures NoRepeats(Urls(Subtitles(s, v)))
  {
    hide Filter, SubtitleUrl;
    var urls := Urls(Subtitles(s, v));
    forall i, j | 0 <= i < j < |urls|
      ensures urls[i] != urls[j]
    {
      UrlsDiffer(s, v, i, j);
    }
  }

  lemma CaptionFirst(kids: seq<Xml>, first: string)
    requires Contents(kids, "sec:CaptionInfo") == [first]
    ensures Caption(kids) == [first]
  {
    hide Contents;
  }

  /** The keys VLC collects, through all three channels, are the URLs of the tracks. */
  lemma CollectedKeys(s: Server, v: Video)
    requires v.mime == "" || "video/" <= v.mime
    requires forall i :: 0 <= i < |v.subs| ==> v.subs[i].mime == "" || "text/" <= v.subs[i].mime
    ensures var tracks := Tracks(ObjectTree(VideoObject(s, v)));
            Ascending(tracks) && forall y :: y in tracks <==> y in Urls(Subtitles(s, v))
  {
    hide Filter, SubtitleUrl, MediaUrl, ThumbnailUrl, VideoProtocolInfo, ObjectKids, TextResources, UriAttrs, Contents,
      Caption, KeySet, NoRepeats, Dec, Before;
    var o := VideoObject(s, v);
    VideoInfoIsNotText(v.mime);
    if v.subs != [] {
      UrlNotEmpty(s, v, 0);
    }
    ItemCollects(o);
    var urls, kids := Urls(o.subtitles), ObjectKids(o);
    if v.subs == [] {
      NoCaptions(o);
    } else {
      CaptionFirst(kids, urls[0]);
    }
    KeySetMeans(Caption(kids) + UriAttrs(kids) + TextResources(kids));
  }

  /**
   * For every video and any number of subtitles, VLC collects each subtitle's URL exactly once, and the first track
   * comes first; the others come in ranked order exactly when there are no more than ten tracks.
   */
  lemma VlcSeesEachTrackOnce(s: Server, v: Video)
    requires v.mime == "" || "video/" <= v.mime
    requires forall i :: 0 <= i < |v.subs| ==> v.subs[i].mime == "" || "text/" <= v.subs[i].mime
    ensures var tracks, urls := Tracks(ObjectTree(VideoObject(s, v))), Urls(Subtitles(s, v));
            && multiset(tracks) == multiset(urls) && NoRepeats(tracks) && |tracks| == |v.subs|
            && (v.subs != [] ==> tracks[0] == urls[0])
            && (tracks == urls <==> |v.subs| <= 10)
  {
    hide Filter, SubtitleUrl, Dec, Before, Tracks, ObjectTree, VideoObject;
    var tracks, urls := Tracks(ObjectTree(VideoObject(s, v))), Urls(Subtitles(s, v));
    CollectedKeys(s, v);
    AscendingHasNoRepeats(tracks);
    UrlsHaveNoRepeats(s, v);
    SameKeys(tracks, urls);
    if v.subs != [] {
      forall j | 0 < j < |urls|
        ensures Before(urls[0], urls[j])
      {
        UrlOrder(s, v, 0, j);
        ZeroFirst(j);
      }
      FirstIsLeast(tracks, urls[0]);
    }
    UrlsAscend(s, v);
    if Ascending(urls) {
      AscendingIsUnique(tracks, urls);
    }
  }

  /** With eleven tracks the last one is listed third. */
  lemma EleventhTrackIsThird(s: Server, v: Video)
    requires v.mime == "" || "video/" <= v.mime
    requires forall i :: 0 <= i < |v.subs| ==> v.subs[i].mime == "" || "text/" <= v.subs[i].mime
    requires |v.subs| == 11
    ensures var tracks, u := Tracks(ObjectTree(VideoObject(s, v))), Urls(Subtitles(s, v));
            |u| == 11 && tracks == Moved(u)
  {
    hide Filter, SubtitleUrl, Dec, Before, Tracks, ObjectTree, VideoObject, Moved;
    var tracks, u := Tracks(ObjectTree(VideoObject(s, v))), Urls(Subtitles(s, v));
    var listed := Moved(u);
    VlcSeesEachTrackOnce(s, v);
    CollectedKeys(s, v);
    MovedKeeps(u);
    forall i, j | 0 <= i < j < 11
      ensures Before(listed[i], listed[j])
    {
      UrlOrder(s, v, ElevenAt(i), ElevenAt(j));
      ElevenOrder(ElevenAt(i), ElevenAt(j));
    }
    AscendingIsUnique(tracks, listed);
  }

  /** The index of the track listed at place k of eleven. */
  function ElevenAt(k: nat): nat {
    if k < 2 then k else if k == 2 then 10 else k - 1
  }

  /** The last of eleven goes third. */
  function Moved(u: seq<string>): (r: seq<string>)
    requires |u| == 11
    ensures |r| == 11 && forall k :: 0 <= k < 11 ==> r[k] == u[ElevenAt(k)]
  {
    [u[0], u[1], u[10], u[2], u[3], u[4], u[5], u[6], u[7], u[8], u[9]]
  }

  lemma MovedKeeps(u: seq<string>)
    requires |u| == 11
    ensures multiset(Moved(u)) == multiset(u)
  {
    assert u == u[..2] + u[2..10] + [u[10]];
    assert Moved(u) == u[..2] + [u[10]] + u[2..10];
  }

  /** Ten's digits come after those of zero and one and before those of the other one-digit numbers. */
  lemma ElevenOrder(i: nat, j: nat)
    requires i != j && i <= 10 && j <= 10
    requires if i == 10 then j >= 2 else if j == 10 then i < 2 else i < j
    ensures Before(Dec(i), Dec(j))
  {
    assert Dec(10 / 10) == "1";
  }

  lemma UrlNotEmpty(s: Server, v: Video, i: nat)
    requires i < |v.subs|
    ensures SubtitleUrl(s, v, i) != ""
  {
    hide Dec;
  }
}
