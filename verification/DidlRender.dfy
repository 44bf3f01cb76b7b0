/**
 * Document and render as they run: each appends to the text of one builder, and what
 * it appends is the printed form of the elements it means. The builder's text is the
 * only state; ghost parameters say which elements have been written to it before.
 */
module DidlRender {
  import opened Bytes
  import opened Decimal
  import opened Xml
  import opened Didl

  /** A character that needs no escaping anywhere. */
  predicate Printable(c: char) {
    ' ' <= c <= '~' && c != '&' && c != '<' && c != '>' && c != '"' && c != '\''
  }

  ghost predicate AllPrintable(s: string) {
    forall i :: 0 <= i < |s| ==> Printable(s[i])
  }

  lemma {:induction false} PrintableIsEscaped(s: string)
    requires AllPrintable(s)
    ensures EscapedAttr(s) == s && EscapedText(s) == s && Filter(s) == s && Clean(s)
  {
    if s != "" {
      PrintableIsEscaped(s[1..]);
      assert Printable(s[0]) && s == [s[0]] + s[1..];
    }
  }

  lemma DigitsPrintable(s: string)
    requires forall c :: c in s ==> IsDigit(c)
    ensures AllPrintable(s)
  {
    assert forall i :: 0 <= i < |s| ==> s[i] in s;
  }

  lemma PrintableConcat(a: string, b: string)
    requires AllPrintable(a) && AllPrintable(b)
    ensures AllPrintable(a + b)
  {
    hide Printable;
  }

  lemma {:induction false} PrintAttrsSnoc(attrs: seq<(string, string)>, name: string, value: string)
    ensures PrintAttrs(attrs + [(name, value)]) == PrintAttrs(attrs) + PrintAttr(name, EscapedAttr(value))
  {
    hide EscapedAttr, PrintAttr;
    if attrs == [] {
      assert [] + [(name, value)] == [(name, value)];
      assert PrintAttrs([(name, value)]) == PrintAttr(name, EscapedAttr(value)) + PrintAttrs([]);
    } else {
      PrintAttrsSnoc(attrs[1..], name, value);
      assert (attrs + [(name, value)])[1..] == attrs[1..] + [(name, value)];
    }
  }

  lemma {:induction false} PrintAllSnoc(xs: seq<Xml>, x: Xml)
    ensures PrintAll(xs + [x]) == PrintAll(xs) + Print(x)
  {
    hide Print;
    if xs == [] {
      assert [] + [x] == [x];
      assert PrintAll([x]) == Print(x) + PrintAll([]);
    } else {
      PrintAllSnoc(xs[1..], x);
      assert (xs + [x])[1..] == xs[1..] + [x];
    }
  }

  /** strings.Builder. */
  class Builder {
    var text: string

    constructor ()
      ensures text == ""
    {
      text := "";
    }

    method WriteString(s: string)
      modifies this
      ensures text == old(text) + s
    {
      text := text + s;
    }

    /** One more attribute of the start tag being written. */
    method WriteAttr(name: string, escaped: string, ghost start: string, ghost attrs: seq<(string, string)>, ghost value: string)
      requires text == start + PrintAttrs(attrs) && escaped == EscapedAttr(value)
      modifies this
      ensures text == start + PrintAttrs(attrs + [(name, value)])
    {
      hide EscapedAttr, PrintAttrs;
      PrintAttrsSnoc(attrs, name, value);
      WriteString(" " + name + "=\"" + escaped + "\"");
    }

    /** The end of a start tag, escaped text, and the end tag: a whole leaf element. */
    method CloseLeaf(name: string, content: string, ghost start: string, ghost attrs: seq<(string, string)>)
      requires text == start + "<" + name + PrintAttrs(attrs)
      modifies this
      ensures text == start + Print(Leaf(name, attrs, content))
    {
      hide PrintAttrs, EscapedText, Print, Leaf;
      var escaped := EscapeText(content);
      LeafPrints(name, attrs, content);
      WriteString(">" + escaped + "</" + name + ">");
      WrapConcat(start, name, PrintAttrs(attrs), escaped);
    }
  }

  lemma WrapConcat(start: string, name: string, attrs: string, escaped: string)
    ensures start + "<" + name + attrs + (">" + escaped + "</" + name + ">") == start + Wrap(name, attrs, escaped)
  {
  }

  lemma LeafPrints(name: string, attrs: seq<(string, string)>, text: string)
    ensures Print(Leaf(name, attrs, text)) == Wrap(name, PrintAttrs(attrs), EscapedText(text))
  {
    hide PrintAttrs, Wrap;
    EscapeFilters(text);
    var t := Filter(text);
    if t == "" {
      assert EscapedText(t) == "";
      assert PrintAll([]) == "";
    } else {
      assert PrintAll([Text(t)]) == Print(Text(t)) + PrintAll([]);
      assert PrintAll([Text(t)]) == EscapedText(t);
    }
  }

  /** One more child of the element being written. */
  lemma OneMore(start: string, xs: seq<Xml>, x: Xml)
    ensures start + PrintAll(xs) + Print(x) == start + PrintAll(xs + [x])
  {
    hide Print, PrintAll;
    PrintAllSnoc(xs, x);
  }

  /** A leaf with one attribute, or none, whose value is written as it is. */
  method WriteLeaf(b: Builder, name: string, attr: Option<(string, string)>, text: string, ghost value: string, ghost start: string, ghost xs: seq<Xml>)
    requires b.text == start + PrintAll(xs)
    requires attr.Some? ==> attr.value.1 == EscapedAttr(value)
    modifies b
    ensures b.text == start + PrintAll(xs + [Leaf(name, if attr.Some? then [(attr.value.0, value)] else [], text)])
  {
    hide PrintAttrs, EscapedAttr, Print, PrintAll, Leaf;
    ghost var attrs: seq<(string, string)> := [];
    b.WriteString("<" + name);
    NoAttrs();
    ghost var tag := start + PrintAll(xs) + "<" + name;
    assert b.text == tag + PrintAttrs(attrs);
    if attr.Some? {
      b.WriteAttr(attr.value.0, attr.value.1, tag, attrs, value);
      assert attrs + [(attr.value.0, value)] == [(attr.value.0, value)];
      attrs := [(attr.value.0, value)];
    }
    b.CloseLeaf(name, text, start + PrintAll(xs), attrs);
    OneMore(start, xs, Leaf(name, attrs, text));
  }

  lemma NoAttrs()
    ensures PrintAttrs([]) == ""
  {
  }

  function MeasureAttrs(r: Resource): seq<(string, string)> {
    (if r.size > 0 then [("size", Dec(r.size))] else [])
    + (if r.duration > 0 then [("duration", DurationText(r.duration))] else [])
    + (if r.width > 0 && r.height > 0 then [("resolution", Dec(r.width) + "x" + Dec(r.height))] else [])
  }

  /** size, duration and resolution, each only when known. */
  method WriteMeasures(b: Builder, r: Resource, ghost tag: string, ghost before: seq<(string, string)>)
    returns (ghost attrs: seq<(string, string)>)
    requires b.text == tag + PrintAttrs(before)
    modifies b
    ensures attrs == before + MeasureAttrs(r) && b.text == tag + PrintAttrs(attrs)
  {
    hide PrintAttrs, EscapedAttr, Dec, DurationText;
    attrs := before;
    if r.size > 0 {
      DecPrints(r.size);
      b.WriteAttr("size", Dec(r.size), tag, attrs, Dec(r.size));
      attrs := attrs + [("size", Dec(r.size))];
    }
    if r.duration > 0 {
      var t := FormatDuration(r.duration);
      DurationPrints(r.duration);
      b.WriteAttr("duration", t, tag, attrs, t);
      attrs := attrs + [("duration", t)];
    }
    if r.width > 0 && r.height > 0 {
      var res := Dec(r.width) + "x" + Dec(r.height);
      ResolutionPrints(r.width, r.height);
      b.WriteAttr("resolution", res, tag, attrs, res);
      attrs := attrs + [("resolution", res)];
    }
    assert attrs == before + MeasureAttrs(r);
  }

  lemma ResourceAttrsAre(r: Resource, attrs: seq<(string, string)>)
    requires attrs == [("protocolInfo", Filter(r.protocolInfo))] + MeasureAttrs(r)
                      + (if r.subtitleUri != "" then [("pv:subtitleFileUri", Filter(r.subtitleUri))] else [])
    ensures attrs == ResourceAttrs(r)
  {
    hide Filter, Dec, DurationText;
  }

  method RenderResource(b: Builder, r: Resource, ghost start: string, ghost xs: seq<Xml>)
    requires b.text == start + PrintAll(xs)
    modifies b
    ensures b.text == start + PrintAll(xs + [ResourceTree(r)])
  {
    hide PrintAttrs, EscapedAttr, Print, PrintAll, Filter, Dec, DurationText, Leaf, MeasureAttrs, ResourceAttrs;
    var escaped := EscapeAttr(r.protocolInfo);
    EscapeFilters(r.protocolInfo);
    b.WriteString("<res");
    NoAttrs();
    ghost var tag := start + PrintAll(xs) + "<" + "res";
    assert "<" + "res" == "<res";
    assert b.text == tag + PrintAttrs([]);
    ghost var attrs: seq<(string, string)> := [];
    b.WriteAttr("protocolInfo", escaped, tag, attrs, Filter(r.protocolInfo));
    attrs := attrs + [("protocolInfo", Filter(r.protocolInfo))];
    attrs := WriteMeasures(b, r, tag, attrs);
    if r.subtitleUri != "" {
      var uri := EscapeAttr(r.subtitleUri);
      EscapeFilters(r.subtitleUri);
      b.WriteAttr("pv:subtitleFileUri", uri, tag, attrs, Filter(r.subtitleUri));
      attrs := attrs + [("pv:subtitleFileUri", Filter(r.subtitleUri))];
    }
    ResourceAttrsAre(r, attrs);
    b.CloseLeaf("res", r.url, start + PrintAll(xs), attrs);
    OneMore(start, xs, Leaf("res", attrs, r.url));
  }

  lemma DecPrints(n: nat)
    ensures EscapedAttr(Dec(n)) == Dec(n) && Clean(Dec(n)) && AllPrintable(Dec(n))
  {
    hide Dec;
    DigitsPrintable(Dec(n));
    PrintableIsEscaped(Dec(n));
  }

  lemma PaddedPrintable(n: nat, w: nat)
    ensures AllPrintable(Padded(n, w))
  {
    hide Padded;
    DigitsPrintable(Padded(n, w));
  }

  lemma ResolutionPrints(w: nat, h: nat)
    ensures var r := Dec(w) + "x" + Dec(h);
            EscapedAttr(r) == r && Clean(r)
  {
    hide EscapedAttr, Clean;
    DecPrints(w);
    DecPrints(h);
    PrintableConcat(Dec(w), "x");
    PrintableConcat(Dec(w) + "x", Dec(h));
    PrintableIsEscaped(Dec(w) + "x" + Dec(h));
  }

  lemma ClockPrintable(h: string, m: string, s: string, ms: string)
    requires AllPrintable(h) && AllPrintable(m) && AllPrintable(s) && AllPrintable(ms)
    ensures AllPrintable(h + (":" + m + ":" + s + "." + ms))
  {
    PrintableConcat(":", m);
    PrintableConcat(":" + m, ":");
    PrintableConcat(":" + m + ":", s);
    PrintableConcat(":" + m + ":" + s, ".");
    PrintableConcat(":" + m + ":" + s + ".", ms);
    PrintableConcat(h, ":" + m + ":" + s + "." + ms);
  }

  lemma DurationPrints(d: nat)
    ensures EscapedAttr(DurationText(d)) == DurationText(d) && Clean(DurationText(d))
  {
    hide Padded, Dec, EscapedAttr, Clean, AllPrintable;
    var h, m, s, ms := d / 3_600_000_000_000, d / 60_000_000_000 % 60, d / 1_000_000_000 % 60, d / 1_000_000 % 1000;
    DecPrints(h);
    PaddedPrintable(m, 2);
    PaddedPrintable(s, 2);
    PaddedPrintable(ms, 3);
    ClockPrintable(Dec(h), Padded(m, 2), Padded(s, 2), Padded(ms, 3));
    PrintableIsEscaped(DurationText(d));
  }

  lemma ConstantsPrint()
    ensures AllPrintable("1") && AllPrintable("JPEG_TN") && AllPrintable(IMAGE_INFO)
  {
  }

  lemma NamespacesPrint()
    ensures AllPrintable(NS_DIDL) && AllPrintable(NS_DC) && AllPrintable(NS_UPNP)
    ensures AllPrintable(NS_DLNA) && AllPrintable(NS_PV) && AllPrintable(NS_SEC)
  {
    NsDidlPrints();
    NsDcPrints();
    NsUpnpPrints();
    NsDlnaPrints();
  }

  lemma NsDidlPrints()
    ensures AllPrintable(NS_DIDL)
  {
  }

  lemma NsDcPrints()
    ensures AllPrintable(NS_DC)
  {
  }

  lemma NsUpnpPrints()
    ensures AllPrintable(NS_UPNP)
  {
  }

  lemma NsDlnaPrints()
    ensures AllPrintable(NS_DLNA)
  {
  }

  /** The start tag of an object. */
  method WriteOpen(b: Builder, o: Object)
    modifies b
    ensures b.text == old(b.text) + "<" + Tag(o) + PrintAttrs(ObjectAttrs(o)) + ">"
  {
    hide PrintAttrs, EscapedAttr, Filter, Dec, AllPrintable;
    ConstantsPrint();
    PrintableIsEscaped("1");
    NoAttrs();
    var tag := "container";
    if o.isItem {
      tag := "item";
    }
    b.WriteString("<" + tag);
    ghost var start := old(b.text) + "<" + tag;
    ghost var attrs: seq<(string, string)> := [];
    assert b.text == start + PrintAttrs(attrs);
    var id := EscapeAttr(o.id);
    EscapeFilters(o.id);
    b.WriteAttr("id", id, start, attrs, Filter(o.id));
    attrs := attrs + [("id", Filter(o.id))];
    var parentId := EscapeAttr(o.parentId);
    EscapeFilters(o.parentId);
    b.WriteAttr("parentID", parentId, start, attrs, Filter(o.parentId));
    attrs := attrs + [("parentID", Filter(o.parentId))];
    b.WriteAttr("restricted", "1", start, attrs, "1");
    attrs := attrs + [("restricted", "1")];
    if !o.isItem && o.childCount > 0 {
      DecPrints(o.childCount);
      b.WriteAttr("childCount", Dec(o.childCount), start, attrs, Dec(o.childCount));
      attrs := attrs + [("childCount", Dec(o.childCount))];
    }
    assert attrs == ObjectAttrs(o);
    b.WriteString(">");
  }

  method WriteHead(b: Builder, o: Object)
    modifies b
    ensures b.text == old(b.text) + PrintAll(HeadTrees(o))
  {
    hide PrintAll, Leaf, EscapedAttr, AllPrintable, EscapedText, DateText;
    NoKids();
    ConstantsPrint();
    PrintableIsEscaped("JPEG_TN");
    ghost var start, xs: seq<Xml> := b.text, [];
    assert b.text == start + PrintAll(xs);
    WriteLeaf(b, "dc:title", None, o.title, "", start, xs);
    xs := xs + [Leaf("dc:title", [], o.title)];
    WriteLeaf(b, "upnp:class", None, o.cls, "", start, xs);
    xs := xs + [Leaf("upnp:class", [], o.cls)];
    if o.date.Some? {
      WriteLeaf(b, "dc:date", None, DateText(o.date.value), "", start, xs);
      xs := xs + [Leaf("dc:date", [], DateText(o.date.value))];
    }
    if o.isItem && o.artwork != "" {
      WriteLeaf(b, "upnp:albumArtURI", Some(("dlna:profileID", "JPEG_TN")), o.artwork, "JPEG_TN", start, xs);
      xs := xs + [Leaf("upnp:albumArtURI", [("dlna:profileID", "JPEG_TN")], o.artwork)];
    }
    assert xs == HeadTrees(o);
  }

  lemma NoKids()
    ensures PrintAll([]) == ""
  {
  }

  lemma {:induction false} PrintAllConcat(xs: seq<Xml>, ys: seq<Xml>)
    ensures PrintAll(xs + ys) == PrintAll(xs) + PrintAll(ys)
  {
    hide Print;
    if xs == [] {
      assert xs + ys == ys;
    } else {
      PrintAllConcat(xs[1..], ys);
      assert (xs + ys)[1..] == xs[1..] + ys;
      assert PrintAll(xs + ys) == Print(xs[0]) + PrintAll(xs[1..] + ys);
    }
  }

  method WriteResources(b: Builder, rs: seq<Resource>)
    modifies b
    ensures b.text == old(b.text) + PrintAll(ResourceTrees(rs))
  {
    hide PrintAll, ResourceTree;
    NoKids();
    for i := 0 to |rs|
      invariant b.text == old(b.text) + PrintAll(ResourceTrees(rs)[..i])
    {
      RenderResource(b, rs[i], old(b.text), ResourceTrees(rs)[..i]);
      assert ResourceTrees(rs)[..i + 1] == ResourceTrees(rs)[..i] + [ResourceTree(rs[i])];
    }
    assert ResourceTrees(rs)[..|rs|] == ResourceTrees(rs);
  }

  method WriteArtwork(b: Builder, o: Object)
    modifies b
    ensures b.text == old(b.text) + PrintAll(ArtworkTrees(o))
  {
    hide PrintAll, Leaf, AllPrintable;
    NoKids();
    ConstantsPrint();
    if o.isItem && o.artwork != "" {
      WriteImage(b, IMAGE_INFO, o.artwork);
    }
  }

  method WriteImage(b: Builder, info: string, url: string)
    requires AllPrintable(info)
    modifies b
    ensures b.text == old(b.text) + PrintAll([Leaf("res", [("protocolInfo", info)], url)])
  {
    hide PrintAll, Leaf, EscapedAttr, AllPrintable;
    NoKids();
    PrintableIsEscaped(info);
    WriteLeaf(b, "res", Some(("protocolInfo", info)), url, info, b.text, []);
    assert [] + [Leaf("res", [("protocolInfo", info)], url)] == [Leaf("res", [("protocolInfo", info)], url)];
  }

  /** The subtitle resources, and the first subtitle's other two forms. */
  method WriteTail(b: Builder, o: Object)
    modifies b
    ensures b.text == old(b.text) + PrintAll(TailTrees(o))
  {
    hide PrintAll, SubtitleTrees, PrimaryTrees;
    NoKids();
    if o.isItem && |o.subtitles| > 0 {
      ghost var xs := WriteSubtitles(b, o.subtitles, b.text, []);
      assert xs == TailTrees(o);
    } else {
      NoSubtitles(o);
    }
  }

  lemma NoSubtitles(o: Object)
    requires !o.isItem || o.subtitles == []
    ensures TailTrees(o) == []
  {
  }

  method WriteSubtitles(b: Builder, ss: seq<Subtitle>, ghost start: string, ghost before: seq<Xml>)
    returns (ghost xs: seq<Xml>)
    requires b.text == start + PrintAll(before) && ss != []
    modifies b
    ensures xs == before + (SubtitleTrees(ss) + PrimaryTrees(ss)) && b.text == start + PrintAll(xs)
  {
    hide PrintAll, Leaf, EscapedAttr, Filter, SubtitleProtocolInfo;
    xs := before;
    for i := 0 to |ss|
      invariant xs == before + SubtitleTrees(ss)[..i]
      invariant b.text == start + PrintAll(xs)
    {
      var info := EscapeAttr(SubtitleProtocolInfo(ss[i].mime));
      EscapeFilters(SubtitleProtocolInfo(ss[i].mime));
      WriteLeaf(b, "res", Some(("protocolInfo", info)), ss[i].url, Filter(SubtitleProtocolInfo(ss[i].mime)), start, xs);
      xs := xs + [SubtitleTree(ss[i])];
    }
    assert SubtitleTrees(ss)[..|ss|] == SubtitleTrees(ss);
    if ss[0].url != "" {
      var typ := EscapeAttr(ss[0].typ);
      EscapeFilters(ss[0].typ);
      WriteLeaf(b, "sec:CaptionInfo", Some(("sec:type", typ)), ss[0].url, Filter(ss[0].typ), start, xs);
      xs := xs + [Leaf("sec:CaptionInfo", [("sec:type", Filter(ss[0].typ))], ss[0].url)];
      WriteLeaf(b, "sec:CaptionInfoEx", Some(("sec:type", typ)), ss[0].url, Filter(ss[0].typ), start, xs);
      xs := xs + [Leaf("sec:CaptionInfoEx", [("sec:type", Filter(ss[0].typ))], ss[0].url)];
      WriteLeaf(b, "pv:subtitlefile", None, ss[0].url, "", start, xs);
      xs := xs + [Leaf("pv:subtitlefile", [], ss[0].url)];
    }
    assert xs == before + (SubtitleTrees(ss) + PrimaryTrees(ss));
  }

  method Render(b: Builder, o: Object)
    modifies b
    ensures b.text == old(b.text) + Print(ObjectTree(o))
  {
    hide PrintAll, PrintAttrs, HeadTrees, ArtworkTrees, TailTrees, ObjectAttrs;
    ghost var start := b.text;
    WriteOpen(b, o);
    ghost var inner := b.text;
    WriteHead(b, o);
    WriteResources(b, o.resources);
    WriteArtwork(b, o);
    WriteTail(b, o);
    KidsConcat(inner, HeadTrees(o), ResourceTrees(o.resources), ArtworkTrees(o), TailTrees(o));
    assert ObjectKids(o) == HeadTrees(o) + ResourceTrees(o.resources) + ArtworkTrees(o) + TailTrees(o);
    b.WriteString("</" + Tag(o) + ">");
    ElementConcat(start, Tag(o), PrintAttrs(ObjectAttrs(o)), PrintAll(ObjectKids(o)));
  }

  lemma KidsConcat(start: string, head: seq<Xml>, rs: seq<Xml>, art: seq<Xml>, tail: seq<Xml>)
    ensures start + PrintAll(head) + PrintAll(rs) + PrintAll(art) + PrintAll(tail)
            == start + PrintAll(head + rs + art + tail)
  {
    hide PrintAll;
    PrintAllConcat(head, rs);
    PrintAllConcat(head + rs, art);
    PrintAllConcat(head + rs + art, tail);
  }

  lemma ElementConcat(start: string, tag: string, attrs: string, kids: string)
    ensures start + "<" + tag + attrs + ">" + kids + ("</" + tag + ">") == start + Wrap(tag, attrs, kids)
  {
  }

  method Document(objs: seq<Object>) returns (doc: string)
    ensures doc == Print(DocumentTree(objs))
  {
    hide PrintAll, PrintAttrs, ObjectTree, Wrap;
    var b := new Builder();
    WriteRoot(b);
    ghost var start := b.text;
    NoKids();
    for i := 0 to |objs|
      invariant b.text == start + PrintAll(ObjectTrees(objs)[..i])
    {
      Render(b, objs[i]);
      assert ObjectTrees(objs)[..i + 1] == ObjectTrees(objs)[..i] + [ObjectTree(objs[i])];
      OneMore(start, ObjectTrees(objs)[..i], ObjectTree(objs[i]));
    }
    assert ObjectTrees(objs)[..|objs|] == ObjectTrees(objs);
    b.WriteString("</DIDL-Lite>");
    assert "</" + "DIDL-Lite" + ">" == "</DIDL-Lite>";
    ElementConcat("", "DIDL-Lite", PrintAttrs(NAMESPACES), PrintAll(ObjectTrees(objs)));
    assert "" + Wrap("DIDL-Lite", PrintAttrs(NAMESPACES), PrintAll(ObjectTrees(objs)))
        == Wrap("DIDL-Lite", PrintAttrs(NAMESPACES), PrintAll(ObjectTrees(objs)));
    doc := b.text;
  }

  /** The root element's start tag, with every prefix declared. */
  method WriteRoot(b: Builder)
    requires b.text == ""
    modifies b
    ensures b.text == "" + "<" + "DIDL-Lite" + PrintAttrs(NAMESPACES) + ">"
  {
    hide PrintAttrs, EscapedAttr, AllPrintable;
    NamespacesPrint();
    b.WriteString("<" + "DIDL-Lite");
    WriteNamespaces(b, NS_DIDL, NS_DC, NS_UPNP, NS_DLNA, NS_PV, NS_SEC);
    b.WriteString(">");
  }

  method WriteNamespaces(b: Builder, didl: string, dc: string, upnp: string, dlna: string, pv: string, sec: string)
    requires AllPrintable(didl) && AllPrintable(dc) && AllPrintable(upnp)
    requires AllPrintable(dlna) && AllPrintable(pv) && AllPrintable(sec)
    modifies b
    ensures b.text == old(b.text) + PrintAttrs([("xmlns", didl), ("xmlns:dc", dc), ("xmlns:upnp", upnp),
                                                ("xmlns:dlna", dlna), ("xmlns:pv", pv), ("xmlns:sec", sec)])
  {
    hide PrintAttrs, EscapedAttr, AllPrintable;
    NoAttrs();
    ghost var start := b.text;
    assert b.text == start + PrintAttrs([]);
    ghost var attrs: seq<(string, string)> := [];
    PrintableIsEscaped(didl);
    b.WriteAttr("xmlns", didl, start, attrs, didl);
    attrs := attrs + [("xmlns", didl)];
    PrintableIsEscaped(dc);
    b.WriteAttr("xmlns:dc", dc, start, attrs, dc);
    attrs := attrs + [("xmlns:dc", dc)];
    PrintableIsEscaped(upnp);
    b.WriteAttr("xmlns:upnp", upnp, start, attrs, upnp);
    attrs := attrs + [("xmlns:upnp", upnp)];
    PrintableIsEscaped(dlna);
    b.WriteAttr("xmlns:dlna", dlna, start, attrs, dlna);
    attrs := attrs + [("xmlns:dlna", dlna)];
    PrintableIsEscaped(pv);
    b.WriteAttr("xmlns:pv", pv, start, attrs, pv);
    attrs := attrs + [("xmlns:pv", pv)];
    PrintableIsEscaped(sec);
    b.WriteAttr("xmlns:sec", sec, start, attrs, sec);
    attrs := attrs + [("xmlns:sec", sec)];
    assert attrs == [("xmlns", didl), ("xmlns:dc", dc), ("xmlns:upnp", upnp), ("xmlns:dlna", dlna), ("xmlns:pv", pv),
                     ("xmlns:sec", sec)];
  }
}
