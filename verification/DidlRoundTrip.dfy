/**
 * What a client that parses the rendered document sees: the tree of every object is
 * canonical, whatever its titles, URLs and identifiers hold, so the parser recovers
 * it from its printed form.
 */
module DidlRoundTrip {
  import opened Bytes
  import opened Decimal
  import opened Xml
  import opened XmlRoundTrip
  import opened Didl
  import opened DidlRender

  ghost predicate GoodElement(x: Xml) {
    x.Element? && Canonical(x)
  }

  ghost predicate GoodElements(xs: seq<Xml>) {
    forall i :: 0 <= i < |xs| ==> GoodElement(xs[i])
  }

  lemma {:induction false} ElementsCanonical(xs: seq<Xml>)
    requires GoodElements(xs)
    ensures CanonicalAll(xs)
  {
    hide Canonical;
    if xs != [] {
      assert GoodElement(xs[0]);
      assert forall i :: 0 <= i < |xs| - 1 ==> xs[1..][i] == xs[i + 1];
      ElementsCanonical(xs[1..]);
    }
  }

  lemma LeafGood(name: string, attrs: seq<(string, string)>, text: string)
    requires ValidName(name) && ValidAttrs(attrs)
    ensures GoodElement(Leaf(name, attrs, text))
  {
    hide ValidName, ValidAttrs;
    var t := Filter(text);
    var kids := if t == "" then [] else [Text(t)];
    if t != "" {
      assert Canonical(Text(t));
      assert kids[1..] == [];
    }
    assert CanonicalAll(kids);
  }

  lemma ConcatGood(xs: seq<Xml>, ys: seq<Xml>)
    requires GoodElements(xs) && GoodElements(ys)
    ensures GoodElements(xs + ys)
  {
    hide GoodElement;
  }

  lemma NoneGood()
    ensures GoodElements([])
  {
  }

  lemma ConcatAttrs(a: seq<(string, string)>, b: seq<(string, string)>)
    requires ValidAttrs(a) && ValidAttrs(b)
    ensures ValidAttrs(a + b)
  {
    hide ValidName, Clean;
  }

  lemma OneAttr(name: string, value: string)
    requires ValidName(name) && Clean(value)
    ensures ValidAttrs([(name, value)]) && ValidAttrs([])
  {
  }

  lemma NamesValid()
    ensures ValidName("res") && ValidName("item") && ValidName("container") && ValidName("dc:title")
    ensures ValidName("upnp:class") && ValidName("dc:date") && ValidName("upnp:albumArtURI")
    ensures ValidName("sec:CaptionInfo") && ValidName("sec:CaptionInfoEx") && ValidName("pv:subtitlefile")
  {
  }

  lemma MeasureNamesValid()
    ensures ValidName("protocolInfo") && ValidName("size") && ValidName("duration") && ValidName("resolution")
    ensures ValidName("pv:subtitleFileUri") && ValidName("sec:type")
  {
  }

  lemma ObjectNamesValid()
    ensures ValidName("id") && ValidName("parentID") && ValidName("restricted") && ValidName("childCount")
    ensures ValidName("dlna:profileID")
  {
  }

  lemma AttrNamesValid()
    ensures ValidName("protocolInfo") && ValidName("size") && ValidName("duration") && ValidName("resolution")
    ensures ValidName("pv:subtitleFileUri") && ValidName("sec:type") && ValidName("id") && ValidName("parentID")
    ensures ValidName("restricted") && ValidName("childCount") && ValidName("dlna:profileID")
  {
    hide ValidName;
    MeasureNamesValid();
    ObjectNamesValid();
  }

  lemma ResourceGood(r: Resource)
    ensures GoodElement(ResourceTree(r))
  {
    hide ValidName, ValidAttrs, Clean, Filter, Dec, DurationText, Leaf;
    NamesValid();
    AttrNamesValid();
    var a := [("protocolInfo", Filter(r.protocolInfo))];
    OneAttr("protocolInfo", Filter(r.protocolInfo));
    MeasuresGood(r);
    var u := if r.subtitleUri != "" then [("pv:subtitleFileUri", Filter(r.subtitleUri))] else [];
    OneAttr("pv:subtitleFileUri", Filter(r.subtitleUri));
    ConcatAttrs(a, MeasureAttrs(r));
    ConcatAttrs(a + MeasureAttrs(r), u);
    ResourceAttrsAre(r, a + MeasureAttrs(r) + u);
    LeafGood("res", ResourceAttrs(r), r.url);
  }

  lemma MeasuresGood(r: Resource)
    ensures ValidAttrs(MeasureAttrs(r))
  {
    hide ValidName, ValidAttrs, Clean, Dec, DurationText;
    AttrNamesValid();
    OneAttr("size", "");
    var a, b, c: seq<(string, string)> := [], [], [];
    if r.size > 0 {
      DecPrints(r.size);
      OneAttr("size", Dec(r.size));
      a := [("size", Dec(r.size))];
    }
    if r.duration > 0 {
      DurationPrints(r.duration);
      OneAttr("duration", DurationText(r.duration));
      b := [("duration", DurationText(r.duration))];
    }
    if r.width > 0 && r.height > 0 {
      ResolutionPrints(r.width, r.height);
      OneAttr("resolution", Dec(r.width) + "x" + Dec(r.height));
      c := [("resolution", Dec(r.width) + "x" + Dec(r.height))];
    }
    ConcatAttrs(a, b);
    ConcatAttrs(a + b, c);
  }

  lemma ResourcesGood(rs: seq<Resource>)
    ensures GoodElements(ResourceTrees(rs))
  {
    hide GoodElement, ResourceTree;
    forall i | 0 <= i < |rs|
      ensures GoodElement(ResourceTrees(rs)[i])
    {
      ResourceGood(rs[i]);
    }
  }

  lemma SubtitleGood(s: Subtitle)
    ensures GoodElement(SubtitleTree(s))
  {
    hide ValidName, ValidAttrs, Filter, SubtitleProtocolInfo, Leaf;
    NamesValid();
    AttrNamesValid();
    OneAttr("protocolInfo", Filter(SubtitleProtocolInfo(s.mime)));
    LeafGood("res", [("protocolInfo", Filter(SubtitleProtocolInfo(s.mime)))], s.url);
  }

  lemma SubtitlesGood(ss: seq<Subtitle>)
    ensures GoodElements(SubtitleTrees(ss))
  {
    hide GoodElement, SubtitleTree;
    forall i | 0 <= i < |ss|
      ensures GoodElement(SubtitleTrees(ss)[i])
    {
      SubtitleGood(ss[i]);
    }
  }

  lemma PrimaryGood(ss: seq<Subtitle>)
    ensures GoodElements(PrimaryTrees(ss))
  {
    hide ValidName, ValidAttrs, GoodElement, Filter, Leaf;
    if ss != [] && ss[0].url != "" {
      NamesValid();
      AttrNamesValid();
      OneAttr("sec:type", Filter(ss[0].typ));
      LeafGood("sec:CaptionInfo", [("sec:type", Filter(ss[0].typ))], ss[0].url);
      LeafGood("sec:CaptionInfoEx", [("sec:type", Filter(ss[0].typ))], ss[0].url);
      LeafGood("pv:subtitlefile", [], ss[0].url);
    }
  }

  lemma HeadLeavesGood(o: Object)
    ensures GoodElements([Leaf("dc:title", [], o.title), Leaf("upnp:class", [], o.cls)])
    ensures o.date.Some? ==> GoodElements([Leaf("dc:date", [], DateText(o.date.value))])
  {
    hide ValidName, GoodElement, Leaf, DateText, Clean, AllPrintable;
    NamesValid();
    LeafGood("dc:title", [], o.title);
    LeafGood("upnp:class", [], o.cls);
    if o.date.Some? {
      LeafGood("dc:date", [], DateText(o.date.value));
    }
  }

  lemma HeadArtworkGood(uri: string)
    ensures GoodElements([Leaf("upnp:albumArtURI", [("dlna:profileID", "JPEG_TN")], uri)])
  {
    hide ValidName, ValidAttrs, GoodElement, Leaf, Clean, AllPrintable;
    NamesValid();
    AttrNamesValid();
    ConstantsPrint();
    PrintableIsEscaped("JPEG_TN");
    OneAttr("dlna:profileID", "JPEG_TN");
    LeafGood("upnp:albumArtURI", [("dlna:profileID", "JPEG_TN")], uri);
  }

  lemma HeadGood(o: Object)
    ensures GoodElements(HeadTrees(o))
  {
    hide GoodElements, Leaf, DateText;
    NoneGood();
    HeadLeavesGood(o);
    HeadArtworkGood(o.artwork);
    var a := [Leaf("dc:title", [], o.title), Leaf("upnp:class", [], o.cls)];
    var b := if o.date.Some? then [Leaf("dc:date", [], DateText(o.date.value))] else [];
    var c := if o.isItem && o.artwork != "" then [Leaf("upnp:albumArtURI", [("dlna:profileID", "JPEG_TN")], o.artwork)] else [];
    ConcatGood(a, b);
    ConcatGood(a + b, c);
    assert HeadTrees(o) == a + b + c;
  }

  lemma ResNamesValid()
    ensures ValidName("res") && ValidName("protocolInfo")
  {
    hide ValidName;
    NamesValid();
    AttrNamesValid();
  }

  lemma ArtworkGood(o: Object)
    ensures GoodElements(ArtworkTrees(o))
  {
    hide ValidName, ValidAttrs, GoodElement, Leaf, Clean, AllPrintable;
    ResNamesValid();
    ConstantsPrint();
    PrintableIsEscaped(IMAGE_INFO);
    OneAttr("protocolInfo", IMAGE_INFO);
    LeafGood("res", [("protocolInfo", IMAGE_INFO)], o.artwork);
  }

  lemma KidsGood(o: Object)
    ensures GoodElements(ObjectKids(o))
  {
    hide GoodElements, HeadTrees, ResourceTrees, ArtworkTrees, SubtitleTrees, PrimaryTrees;
    HeadGood(o);
    ResourcesGood(o.resources);
    ArtworkGood(o);
    SubtitlesGood(o.subtitles);
    PrimaryGood(o.subtitles);
    NoneGood();
    ConcatGood(SubtitleTrees(o.subtitles), PrimaryTrees(o.subtitles));
    ConcatGood(HeadTrees(o), ResourceTrees(o.resources));
    ConcatGood(HeadTrees(o) + ResourceTrees(o.resources), ArtworkTrees(o));
    ConcatGood(HeadTrees(o) + ResourceTrees(o.resources) + ArtworkTrees(o), TailTrees(o));
  }

  lemma ObjectAttrsGood(o: Object)
    ensures ValidAttrs(ObjectAttrs(o))
  {
    hide ValidName, Filter, Dec, Clean, AllPrintable;
    AttrNamesValid();
    ConstantsPrint();
    PrintableIsEscaped("1");
    if !o.isItem && o.childCount > 0 {
      DecPrints(o.childCount);
    }
  }

  lemma ObjectGood(o: Object)
    ensures GoodElement(ObjectTree(o))
  {
    hide ValidName, ValidAttrs, ObjectAttrs, ObjectKids, GoodElements;
    NamesValid();
    ObjectAttrsGood(o);
    KidsGood(o);
    ElementsCanonical(ObjectKids(o));
  }

  lemma NamespacesGood(didl: string, dc: string, upnp: string, dlna: string, pv: string, sec: string)
    requires Clean(didl) && Clean(dc) && Clean(upnp) && Clean(dlna) && Clean(pv) && Clean(sec)
    ensures ValidAttrs([("xmlns", didl), ("xmlns:dc", dc), ("xmlns:upnp", upnp), ("xmlns:dlna", dlna), ("xmlns:pv", pv),
                        ("xmlns:sec", sec)])
    ensures ValidName("DIDL-Lite")
  {
    hide Clean;
    assert ValidName("xmlns") && ValidName("xmlns:dc") && ValidName("xmlns:upnp");
    assert ValidName("xmlns:dlna") && ValidName("xmlns:pv") && ValidName("xmlns:sec");
  }

  lemma NamespacesClean()
    ensures Clean(NS_DIDL) && Clean(NS_DC) && Clean(NS_UPNP) && Clean(NS_DLNA) && Clean(NS_PV) && Clean(NS_SEC)
  {
    hide Clean, AllPrintable;
    NamespacesPrint();
    PrintableIsEscaped(NS_DIDL);
    PrintableIsEscaped(NS_DC);
    PrintableIsEscaped(NS_UPNP);
    PrintableIsEscaped(NS_DLNA);
    PrintableIsEscaped(NS_PV);
    PrintableIsEscaped(NS_SEC);
  }

  lemma DocumentGood(objs: seq<Object>)
    ensures GoodElement(DocumentTree(objs))
  {
    hide ValidAttrs, ValidName, ObjectTree, GoodElements, Clean;
    NamespacesClean();
    NamespacesGood(NS_DIDL, NS_DC, NS_UPNP, NS_DLNA, NS_PV, NS_SEC);
    ObjectsGood(objs);
    ElementsCanonical(ObjectTrees(objs));
  }

  lemma ObjectsGood(objs: seq<Object>)
    ensures GoodElements(ObjectTrees(objs))
  {
    hide GoodElement, ObjectTree;
    forall i | 0 <= i < |objs|
      ensures GoodElement(ObjectTrees(objs)[i])
    {
      ObjectGood(objs[i]);
    }
  }

  /**
   * Whatever the titles, URLs and ids hold, the rendered document is well formed
   * and parses to exactly the tree it means, invalid runes dropped.
   */
  lemma DocumentRoundTrip(objs: seq<Object>)
    ensures ParseDocument(Print(DocumentTree(objs))) == Some(DocumentTree(objs))
  {
    hide Print, ParseDocument, DocumentTree;
    DocumentGood(objs);
    DocumentReads(DocumentTree(objs));
  }
}
