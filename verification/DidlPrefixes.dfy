/** Every namespace prefix a document uses is declared on its root element, as namespace-unaware parsers need. */
module DidlPrefixes {
  import opened Bytes
  import opened Decimal
  import opened Xml
  import opened Didl
  import opened DidlReading
  import opened DidlRoundTrip

  /** The prefix of a name has a declaration. */
  predicate Declared(name: string, root: seq<(string, string)>) {
    match CutAt(name, ':')
    case None => true
    case Some((prefix, _)) => prefix == "xmlns" || AttrOf(root, "xmlns:" + prefix).Some?
  }

  ghost predicate AttrsDeclared(attrs: seq<(string, string)>, root: seq<(string, string)>) {
    forall a :: a in attrs ==> Declared(a.0, root)
  }

  ghost predicate AllDeclared(x: Xml, root: seq<(string, string)>)
    decreases x
  {
    match x
    case Text(_) => true
    case Element(name, attrs, kids) =>
      Declared(name, root) && AttrsDeclared(attrs, root) && forall k :: k in kids ==> AllDeclared(k, root)
  }

  ghost predicate KidsDeclared(xs: seq<Xml>, root: seq<(string, string)>) {
    forall i :: 0 <= i < |xs| ==> AllDeclared(xs[i], root)
  }

  /** The six declarations. */
  lemma Declarations()
    ensures AttrOf(NAMESPACES, "xmlns") == Some("urn:schemas-upnp-org:metadata-1-0/DIDL-Lite/")
    ensures AttrOf(NAMESPACES, "xmlns:dc") == Some("http://purl.org/dc/elements/1.1/")
    ensures AttrOf(NAMESPACES, "xmlns:upnp") == Some("urn:schemas-upnp-org:metadata-1-0/upnp/")
    ensures AttrOf(NAMESPACES, "xmlns:dlna") == Some("urn:schemas-dlna-org:metadata-1-0/")
    ensures AttrOf(NAMESPACES, "xmlns:pv") == Some("http://www.pv.com/pvns/")
    ensures AttrOf(NAMESPACES, "xmlns:sec") == Some("http://www.sec.co.kr/dlna")
  {
    SpacesDiffer();
    hide AttrOf;
    AttrAt(NAMESPACES, 0);
    AttrAt(NAMESPACES, 1);
    AttrAt(NAMESPACES, 2);
    AttrAt(NAMESPACES, 3);
    AttrAt(NAMESPACES, 4);
    AttrAt(NAMESPACES, 5);
  }

  lemma SpacesDiffer()
    ensures "xmlns" != "xmlns:dc" && "xmlns" != "xmlns:upnp" && "xmlns" != "xmlns:dlna" && "xmlns" != "xmlns:pv"
    ensures "xmlns" != "xmlns:sec" && "xmlns:dc" != "xmlns:upnp" && "xmlns:dc" != "xmlns:dlna" && "xmlns:dc" != "xmlns:pv"
    ensures "xmlns:dc" != "xmlns:sec" && "xmlns:upnp" != "xmlns:dlna" && "xmlns:upnp" != "xmlns:pv"
    ensures "xmlns:upnp" != "xmlns:sec" && "xmlns:dlna" != "xmlns:pv" && "xmlns:dlna" != "xmlns:sec"
    ensures "xmlns:pv" != "xmlns:sec"
  {
    assert "xmlns:dc"[6] != "xmlns:pv"[6] && "xmlns:upnp"[6] != "xmlns:dlna"[6];
  }

  lemma {:induction false} AttrAt(attrs: seq<(string, string)>, k: nat)
    requires k < |attrs| && forall j :: 0 <= j < k ==> attrs[j].0 != attrs[k].0
    ensures AttrOf(attrs, attrs[k].0) == Some(attrs[k].1)
    decreases k
  {
    if k > 0 {
      assert forall j :: 0 <= j < |attrs| - 1 ==> attrs[1..][j] == attrs[j + 1];
      AttrAt(attrs[1..], k - 1);
    }
  }

  lemma PrefixIs(prefix: string, local: string, name: string, root: seq<(string, string)>)
    requires ':' !in prefix && name == prefix + ":" + local && AttrOf(root, "xmlns:" + prefix).Some?
    ensures Declared(name, root)
  {
    hide CutAt, AttrOf;
    CutReads(prefix, ':', local);
    assert name == prefix + ([':'] + local);
  }

  lemma {:induction false} NoPrefix(name: string, root: seq<(string, string)>)
    requires ':' !in name
    ensures CutAt(name, ':') == None && Declared(name, root)
  {
    if name != "" {
      assert name[0] in name && forall c :: c in name[1..] ==> c in name;
      NoPrefix(name[1..], root);
    }
  }

  ghost predicate ElementNamesDeclared(root: seq<(string, string)>) {
    && Declared("DIDL-Lite", root) && Declared("item", root) && Declared("container", root) && Declared("res", root)
    && Declared("dc:title", root) && Declared("dc:date", root) && Declared("upnp:class", root)
    && Declared("upnp:albumArtURI", root) && Declared("sec:CaptionInfo", root) && Declared("sec:CaptionInfoEx", root)
    && Declared("pv:subtitlefile", root)
  }

  ghost predicate AttrNamesDeclared(root: seq<(string, string)>) {
    && Declared("id", root) && Declared("parentID", root) && Declared("restricted", root) && Declared("childCount", root)
    && Declared("protocolInfo", root) && Declared("size", root) && Declared("duration", root) && Declared("resolution", root)
    && Declared("pv:subtitleFileUri", root) && Declared("sec:type", root) && Declared("dlna:profileID", root)
  }

  lemma PlainNamesDeclared(root: seq<(string, string)>)
    ensures Declared("DIDL-Lite", root) && Declared("item", root) && Declared("container", root) && Declared("res", root)
    ensures Declared("id", root) && Declared("parentID", root) && Declared("restricted", root) && Declared("childCount", root)
    ensures Declared("protocolInfo", root) && Declared("size", root) && Declared("duration", root) && Declared("resolution", root)
  {
    hide Declared, CutAt;
    NoPrefix("DIDL-Lite", root);
    NoPrefix("item", root);
    NoPrefix("container", root);
    NoPrefix("res", root);
    NoPrefix("id", root);
    NoPrefix("parentID", root);
    NoPrefix("restricted", root);
    NoPrefix("childCount", root);
    NoPrefix("protocolInfo", root);
    NoPrefix("size", root);
    NoPrefix("duration", root);
    NoPrefix("resolution", root);
  }

  lemma Prefixes()
    ensures "xmlns:" + "dc" == "xmlns:dc" && "xmlns:" + "upnp" == "xmlns:upnp" && "xmlns:" + "dlna" == "xmlns:dlna"
    ensures "xmlns:" + "pv" == "xmlns:pv" && "xmlns:" + "sec" == "xmlns:sec"
  {
  }

  lemma DescriptionNamesDeclared(root: seq<(string, string)>)
    requires AttrOf(root, "xmlns:dc").Some? && AttrOf(root, "xmlns:upnp").Some? && AttrOf(root, "xmlns:dlna").Some?
    ensures Declared("dc:title", root) && Declared("dc:date", root) && Declared("upnp:class", root)
    ensures Declared("upnp:albumArtURI", root) && Declared("dlna:profileID", root)
  {
    hide Declared, AttrOf;
    Prefixes();
    PrefixIs("dc", "title", "dc:title", root);
    PrefixIs("dc", "date", "dc:date", root);
    PrefixIs("upnp", "class", "upnp:class", root);
    PrefixIs("upnp", "albumArtURI", "upnp:albumArtURI", root);
    PrefixIs("dlna", "profileID", "dlna:profileID", root);
  }

  lemma CaptionNamesDeclared(root: seq<(string, string)>)
    requires AttrOf(root, "xmlns:pv").Some? && AttrOf(root, "xmlns:sec").Some?
    ensures Declared("sec:CaptionInfo", root) && Declared("sec:CaptionInfoEx", root) && Declared("pv:subtitlefile", root)
    ensures Declared("pv:subtitleFileUri", root) && Declared("sec:type", root)
  {
    hide Declared, AttrOf;
    Prefixes();
    PrefixIs("sec", "CaptionInfo", "sec:CaptionInfo", root);
    PrefixIs("sec", "CaptionInfoEx", "sec:CaptionInfoEx", root);
    PrefixIs("pv", "subtitlefile", "pv:subtitlefile", root);
    PrefixIs("pv", "subtitleFileUri", "pv:subtitleFileUri", root);
    PrefixIs("sec", "type", "sec:type", root);
  }

  lemma NamesDeclared()
    ensures ElementNamesDeclared(NAMESPACES) && AttrNamesDeclared(NAMESPACES)
  {
    hide Declared, AttrOf, NAMESPACES;
    Declarations();
    PlainNamesDeclared(NAMESPACES);
    DescriptionNamesDeclared(NAMESPACES);
    CaptionNamesDeclared(NAMESPACES);
  }

  lemma LeafDeclared(name: string, attrs: seq<(string, string)>, text: string, root: seq<(string, string)>)
    requires Declared(name, root) && AttrsDeclared(attrs, root)
    ensures AllDeclared(Leaf(name, attrs, text), root)
  {
    hide Declared, Filter, AttrsDeclared;
  }

  lemma ResourceDeclared(r: Resource, root: seq<(string, string)>)
    requires ElementNamesDeclared(root) && AttrNamesDeclared(root)
    ensures AllDeclared(ResourceTree(r), root)
  {
    hide Declared, Filter, Dec, DurationText, Leaf;
    LeafDeclared("res", ResourceAttrs(r), r.url, root);
  }

  lemma SubtitleDeclared(s: Subtitle, root: seq<(string, string)>)
    requires ElementNamesDeclared(root) && AttrNamesDeclared(root)
    ensures AllDeclared(SubtitleTree(s), root)
  {
    hide Declared, Filter, SubtitleProtocolInfo, Leaf;
    LeafDeclared("res", [("protocolInfo", Filter(SubtitleProtocolInfo(s.mime)))], s.url, root);
  }

  lemma HeadDeclared(o: Object, root: seq<(string, string)>)
    requires ElementNamesDeclared(root) && AttrNamesDeclared(root)
    ensures KidsDeclared(HeadTrees(o), root) && KidsDeclared(ArtworkTrees(o), root)
  {
    hide Declared, Filter, Leaf, DateText, AllDeclared;
    LeafDeclared("dc:title", [], o.title, root);
    LeafDeclared("upnp:class", [], o.cls, root);
    if o.date.Some? {
      LeafDeclared("dc:date", [], DateText(o.date.value), root);
    }
    LeafDeclared("upnp:albumArtURI", [("dlna:profileID", "JPEG_TN")], o.artwork, root);
    LeafDeclared("res", [("protocolInfo", IMAGE_INFO)], o.artwork, root);
  }

  lemma CaptionsDeclared(ss: seq<Subtitle>, root: seq<(string, string)>)
    requires ElementNamesDeclared(root) && AttrNamesDeclared(root)
    ensures KidsDeclared(PrimaryTrees(ss), root) && KidsDeclared(SubtitleTrees(ss), root)
  {
    hide Declared, Filter, Leaf, SubtitleTree, AllDeclared;
    forall i | 0 <= i < |ss|
      ensures AllDeclared(SubtitleTrees(ss)[i], root)
    {
      SubtitleDeclared(ss[i], root);
    }
    if ss != [] {
      LeafDeclared("sec:CaptionInfo", [("sec:type", Filter(ss[0].typ))], ss[0].url, root);
      LeafDeclared("sec:CaptionInfoEx", [("sec:type", Filter(ss[0].typ))], ss[0].url, root);
      LeafDeclared("pv:subtitlefile", [], ss[0].url, root);
    }
  }

  lemma ConcatDeclared(a: seq<Xml>, b: seq<Xml>, root: seq<(string, string)>)
    requires KidsDeclared(a, root) && KidsDeclared(b, root)
    ensures KidsDeclared(a + b, root)
  {
    hide AllDeclared;
  }

  lemma KidsAreDeclared(o: Object, root: seq<(string, string)>)
    requires ElementNamesDeclared(root) && AttrNamesDeclared(root)
    ensures KidsDeclared(ObjectKids(o), root)
  {
    hide KidsDeclared, HeadTrees, ResourceTrees, ArtworkTrees, SubtitleTrees, PrimaryTrees, ElementNamesDeclared, AttrNamesDeclared;
    HeadDeclared(o, root);
    CaptionsDeclared(o.subtitles, root);
    ResourcesDeclared(o.resources, root);
    NoKidsDeclared(root);
    ConcatDeclared(SubtitleTrees(o.subtitles), PrimaryTrees(o.subtitles), root);
    ConcatDeclared(HeadTrees(o), ResourceTrees(o.resources), root);
    ConcatDeclared(HeadTrees(o) + ResourceTrees(o.resources), ArtworkTrees(o), root);
    ConcatDeclared(HeadTrees(o) + ResourceTrees(o.resources) + ArtworkTrees(o), TailTrees(o), root);
  }

  lemma NoKidsDeclared(root: seq<(string, string)>)
    ensures KidsDeclared([], root)
  {
  }

  lemma ResourcesDeclared(rs: seq<Resource>, root: seq<(string, string)>)
    requires ElementNamesDeclared(root) && AttrNamesDeclared(root)
    ensures KidsDeclared(ResourceTrees(rs), root)
  {
    hide AllDeclared, ResourceTree, ElementNamesDeclared, AttrNamesDeclared;
    forall i | 0 <= i < |rs|
      ensures AllDeclared(ResourceTrees(rs)[i], root)
    {
      ResourceDeclared(rs[i], root);
    }
  }

  lemma ObjectDeclared(o: Object, root: seq<(string, string)>)
    requires ElementNamesDeclared(root) && AttrNamesDeclared(root)
    ensures AllDeclared(ObjectTree(o), root)
  {
    hide Declared, Filter, Dec, ObjectKids;
    KidsAreDeclared(o, root);
    assert forall k :: k in ObjectKids(o) ==> AllDeclared(k, root);
    assert AttrsDeclared(ObjectAttrs(o), root);
  }

  /** Every prefix of an element or an attribute below the root of a rendered document is declared there. */
  lemma PrefixesDeclared(objs: seq<Object>, doc: string)
    requires doc == Print(DocumentTree(objs))
    ensures ParseDocument(doc).Some? && ParseDocument(doc).value.Element?
    ensures var root := ParseDocument(doc).value;
            forall x :: x in root.kids ==> AllDeclared(x, root.attrs)
  {
    hide Print, ParseDocument, AllDeclared, ElementNamesDeclared, AttrNamesDeclared, NAMESPACES, ObjectTree;
    DocumentRoundTrip(objs);
    NamesDeclared();
    forall x | x in ObjectTrees(objs)
      ensures AllDeclared(x, NAMESPACES)
    {
      var i :| 0 <= i < |objs| && x == ObjectTrees(objs)[i];
      ObjectDeclared(objs[i], NAMESPACES);
    }
  }
}
