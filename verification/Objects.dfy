/** Library videos as DIDL objects, their subtitle URLs, and the tracks VLC collects from the rendered item. */
module Objects {
  import opened Bytes
  import opened Decimal
  import opened Xml
  import opened Didl

  datatype Sub = Sub(name: string, mime: string, typ: string)

  datatype Video = Video(
    id: nat, parentId: nat, title: string, date: Option<Date>, fileName: string, size: int, mime: string,
    duration: int, width: int, height: int, subs: seq<Sub>)

  /** What a Browse answer lists: videos, and folders with their number of children. */
  datatype Node =
    | Film(video: Video)
    | Folder(id: nat, parentId: nat, title: string, date: Option<Date>, children: nat)

  /** Base URL, url.PathEscape, and whether thumbnails can be made. */
  datatype Server = Server(base: string, escape: string -> string, thumbnails: bool)

  function SubtitlePath(v: Video, i: nat, name: string): string {
    "/subs/" + (Dec(v.id) + ("/" + (Dec(i) + ("/" + name))))
  }

  function SubtitleUrl(s: Server, v: Video, i: nat): string
    requires i < |v.subs|
  {
    s.base + SubtitlePath(v, i, s.escape(v.subs[i].name))
  }

  function MediaUrl(s: Server, v: Video): string {
    s.base + "/media/" + Dec(v.id) + "/" + s.escape(v.fileName)
  }

  function ThumbnailUrl(s: Server, v: Video): string {
    s.base + "/thumb/" + Dec(v.id) + ".jpg"
  }

  function Subtitles(s: Server, v: Video): (r: seq<Subtitle>)
    ensures |r| == |v.subs|
    ensures forall i :: 0 <= i < |r| ==> r[i] == Subtitle(SubtitleUrl(s, v, i), v.subs[i].mime, v.subs[i].typ)
  {
    seq(|v.subs|, i requires 0 <= i < |v.subs| => Subtitle(SubtitleUrl(s, v, i), v.subs[i].mime, v.subs[i].typ))
  }

  function VideoResource(s: Server, v: Video): Resource {
    Resource(MediaUrl(s, v), VideoProtocolInfo(v.mime), v.size, v.duration, v.width, v.height,
             if v.subs == [] then "" else SubtitleUrl(s, v, 0))
  }

  function VideoObject(s: Server, v: Video): Object {
    Object(Dec(v.id), Dec(v.parentId), v.title, "object.item.videoItem", v.date, [VideoResource(s, v)],
           Subtitles(s, v), if s.thumbnails then ThumbnailUrl(s, v) else "", 0, true)
  }

  function NodeObject(s: Server, n: Node): Object {
    match n
    case Film(v) => VideoObject(s, v)
    case Folder(id, parentId, title, date, children) =>
      Object(Dec(id), Dec(parentId), title, "object.container.storageFolder", date, [], [], "", children, false)
  }

  method DidlObject(s: Server, n: Node) returns (o: Object)
    ensures o == NodeObject(s, n)
  {
    hide SubtitleUrl, MediaUrl, ThumbnailUrl, VideoProtocolInfo;
    if n.Folder? {
      return Object(Dec(n.id), Dec(n.parentId), n.title, "object.container.storageFolder", n.date, [], [], "", n.children, false);
    }
    var v := n.video;
    var artwork := "";
    if s.thumbnails {
      artwork := ThumbnailUrl(s, v);
    }
    var subs: seq<Subtitle> := [];
    for i := 0 to |v.subs|
      invariant subs == Subtitles(s, v)[..i]
    {
      subs := subs + [Subtitle(SubtitleUrl(s, v, i), v.subs[i].mime, v.subs[i].typ)];
    }
    assert subs == Subtitles(s, v);
    var uri := "";
    if |subs| > 0 {
      uri := subs[0].url;
    }
    var res := Resource(MediaUrl(s, v), VideoProtocolInfo(v.mime), v.size, v.duration, v.width, v.height, uri);
    o := Object(Dec(v.id), Dec(v.parentId), v.title, "object.item.videoItem", v.date, [res], subs, artwork, 0, true);
  }

  /** sliceWindow: the Browse window of a list; a count of zero asks for everything from start. */
  method SliceWindow<T>(input: seq<T>, start: int, count: int) returns (r: seq<T>)
    ensures var from := Min(|input|, if start < 0 then 0 else start);
            var n := if count > 0 then Min(count, |input| - from) else |input| - from;
            r == input[from..from + n]
  {
    var at := start;
    if at < 0 {
      at := 0;
    }
    if at >= |input| {
      return [];
    }
    r := input[at..];
    if count > 0 && count < |r| {
      r := r[..count];
    }
  }

  // Routing a subtitle URL's path back.

  /** handleSubtitle's reading of a path: the video id and the track index. */
  function Route(path: string): Option<(nat, nat)> {
    var rest := if "/subs/" <= path then path[6..] else path;
    match CutAt(rest, '/')
    case None => None
    case Some((id, more)) =>
      var index := match CutAt(more, '/') case None => more case Some((i, _)) => i;
      match Undec(id)
      case None => None
      case Some(v) => match Undec(index) case None => None case Some(i) => Some((v, i))
  }

  /** A subtitle URL's path leads back to the same video and track, whatever the file is called. */
  lemma SubtitlePathRoutes(v: Video, i: nat, name: string)
    ensures Route(SubtitlePath(v, i, name)) == Some((v.id, i))
  {
    hide Dec, Undec;
    var tail := Dec(i) + ("/" + name);
    var path := SubtitlePath(v, i, name);
    assert path[6..] == Dec(v.id) + ("/" + tail) && "/subs/" <= path;
    CutReads(Dec(v.id), '/', tail);
    CutReads(Dec(i), '/', name);
    DecReads(v.id);
    DecReads(i);
  }

  lemma {:induction false} FilterConcat(a: string, b: string)
    ensures Filter(a + b) == Filter(a) + Filter(b)
  {
    hide ValidXmlChar;
    if a == "" {
      assert a + b == b;
    } else {
      assert (a + b)[1..] == a[1..] + b;
      FilterConcat(a[1..], b);
    }
  }

  lemma DecFiltered(n: nat)
    ensures Filter(Dec(n)) == Dec(n)
  {
    assert Clean(Dec(n)) by {
      hide Dec;
      assert forall c :: IsDigit(c) ==> ValidXmlChar(c);
    }
    FilterClean(Dec(n));
  }

  lemma PathFiltered(v: Video, i: nat, name: string)
    ensures Filter(SubtitlePath(v, i, name)) == SubtitlePath(v, i, Filter(name))
  {
    hide Dec, Filter;
    SlashFiltered();
    DecFiltered(v.id);
    DecFiltered(i);
    FilterConcat("/", name);
    FilterConcat(Dec(i), "/" + name);
    FilterConcat("/", Dec(i) + ("/" + name));
    FilterConcat(Dec(v.id), "/" + (Dec(i) + ("/" + name)));
    FilterConcat("/subs/", Dec(v.id) + ("/" + (Dec(i) + ("/" + name))));
  }

  lemma SlashFiltered()
    ensures Filter("/") == "/" && Filter("/subs/") == "/subs/"
  {
    FilterClean("/");
    FilterClean("/subs/");
  }

  /** Two tracks never share a URL, even after invalid runes are dropped. */
  lemma UrlsDiffer(s: Server, v: Video, i: nat, j: nat)
    requires i < |v.subs| && j < |v.subs| && i != j
    ensures Filter(SubtitleUrl(s, v, i)) != Filter(SubtitleUrl(s, v, j))
  {
    hide Filter, Route, SubtitlePath;
    var b := Filter(s.base);
    var p, q := SubtitlePath(v, i, Filter(s.escape(v.subs[i].name))), SubtitlePath(v, j, Filter(s.escape(v.subs[j].name)));
    FilterConcat(s.base, SubtitlePath(v, i, s.escape(v.subs[i].name)));
    FilterConcat(s.base, SubtitlePath(v, j, s.escape(v.subs[j].name)));
    PathFiltered(v, i, s.escape(v.subs[i].name));
    PathFiltered(v, j, s.escape(v.subs[j].name));
    SubtitlePathRoutes(v, i, Filter(s.escape(v.subs[i].name)));
    SubtitlePathRoutes(v, j, Filter(s.escape(v.subs[j].name)));
    assert (b + p)[|b|..] == p && (b + q)[|b|..] == q;
  }
}
