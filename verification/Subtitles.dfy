/** Matching subtitle files to a video and ranking the tracks. */
module Subtitles {
  import opened Bytes
  import opened Ordering

  datatype Subtitle = Subtitle(path: string, name: string, lang: string, mime: string, forced: bool, sdh: bool)

  /** strings.ToLower, the content sniffing of files, and the language table. */
  datatype Env = Env(lower: string -> string, binary: string -> bool, aliases: map<string, string>)

  const SUB_EXTS: map<string, string> := map[
    ".srt" := "text/srt", ".ass" := "text/x-ssa", ".ssa" := "text/x-ssa", ".vtt" := "text/vtt",
    ".sub" := "text/plain", ".smi" := "text/plain", ".sami" := "text/plain"]

  const FORCED: set<string> := {"forced", "force", "forc"}
  const SDH: set<string> := {"sdh", "cc", "hearing", "hearingimpaired", "deaf"}
  const QUALIFIERS: set<string> := FORCED + SDH + {
    "full", "complete", "default", "def", "foreign", "signs", "songs", "commentary", "dub", "dubtitles", "normal", "norm"}

  // File names.

  /** The last element of a slash-separated path. */
  function Base(path: string): string {
    if path == "" then "" else if path[|path| - 1] == '/' then "" else Base(path[..|path| - 1]) + [path[|path| - 1]]
  }

  /** The suffix from the last dot of a file name; nothing when there is no dot. */
  function Ext(name: string): string {
    if name == "" then ""
    else if name[|name| - 1] == '.' then "."
    else
      var e := Ext(name[..|name| - 1]);
      if e == "" then "" else e + [name[|name| - 1]]
  }

  lemma {:induction false} ExtIsSuffix(name: string)
    ensures |Ext(name)| <= |name| && name[|name| - |Ext(name)|..] == Ext(name)
  {
    if name != "" && name[|name| - 1] != '.' {
      var init := name[..|name| - 1];
      ExtIsSuffix(init);
      if Ext(init) != "" {
        assert name[|name| - |Ext(name)|..] == init[|init| - |Ext(init)|..] + [name[|name| - 1]];
      }
    }
  }

  function Stem(name: string): string {
    ExtIsSuffix(name);
    name[..|name| - |Ext(name)|]
  }

  predicate Space(c: char) {
    '\t' <= c <= '\r' || c == ' ' || c == '\U{0085}' || c == '\U{00A0}' || c == '\U{1680}' || '\U{2000}' <= c <= '\U{200A}'
    || c == '\U{2028}' || c == '\U{2029}' || c == '\U{202F}' || c == '\U{205F}' || c == '\U{3000}'
  }

  function TrimSpace(s: string): string {
    if s != "" && Space(s[0]) then TrimSpace(s[1..])
    else if s != "" && Space(s[|s| - 1]) then TrimSpace(s[..|s| - 1])
    else s
  }

  predicate Separator(c: char) {
    c == '.' || c == '_' || c == ' ' || c == '-'
  }

  /** strings.FieldsFunc: the runs of characters between separators. */
  function Fields(s: string, current: string := ""): seq<string>
    decreases |s|
  {
    if s == "" then (if current == "" then [] else [current])
    else if Separator(s[0]) then (if current == "" then [] else [current]) + Fields(s[1..], "")
    else Fields(s[1..], current + [s[0]])
  }

  /** The part of a token before a dash that is not its first character. */
  function BeforeDash(t: string): string {
    var i := IndexOfDash(t);
    if i > 0 && i < |t| then t[..i] else t
  }

  function IndexOfDash(t: string): (i: nat)
    ensures i <= |t|
  {
    if t == "" || t[0] == '-' then 0 else 1 + IndexOfDash(t[1..])
  }

  // Suffixes.

  datatype Suffix = Suffix(lang: string, forced: bool, sdh: bool, recognised: bool)

  function Token(env: Env, tok: string): string {
    env.lower(TrimSpace(tok))
  }

  function TokenStep(env: Env, tok: string, s: Suffix): Suffix {
    var t := Token(env, tok);
    if t == "" then s
    else if s.lang == "" && BeforeDash(t) in env.aliases then
      s.(lang := env.aliases[BeforeDash(t)], recognised := true)
    else if t in QUALIFIERS then
      s.(recognised := true, forced := s.forced || t in FORCED, sdh := s.sdh || (t !in FORCED && t in SDH))
    else s
  }

  function TokensFold(env: Env, toks: seq<string>, s: Suffix): Suffix {
    if toks == [] then s else TokensFold(env, toks[1..], TokenStep(env, toks[0], s))
  }

  function SuffixOf(env: Env, suffix: string): Suffix {
    var s := TrimSpace(suffix);
    if s == "" then Suffix("", false, false, true) else TokensFold(env, Fields(s), Suffix("", false, false, false))
  }

  method ParseSubSuffix(env: Env, suffix: string) returns (lang: string, forced: bool, sdh: bool, recognised: bool)
    ensures Suffix(lang, forced, sdh, recognised) == SuffixOf(env, suffix)
  {
    hide TrimSpace, Fields, BeforeDash;
    var trimmed := TrimSpace(suffix);
    lang, forced, sdh, recognised := "", false, false, false;
    if trimmed == "" {
      recognised := true;
      return;
    }
    var tokens := Fields(trimmed);
    for i := 0 to |tokens|
      invariant TokensFold(env, tokens[i..], Suffix(lang, forced, sdh, recognised)) == SuffixOf(env, suffix)
    {
      assert tokens[i..][1..] == tokens[i + 1..];
      lang, forced, sdh, recognised := ReadToken(env, tokens[i], lang, forced, sdh, recognised);
    }
  }

  method ReadToken(env: Env, tok: string, lang: string, forced: bool, sdh: bool, recognised: bool)
    returns (lang': string, forced': bool, sdh': bool, recognised': bool)
    ensures Suffix(lang', forced', sdh', recognised') == TokenStep(env, tok, Suffix(lang, forced, sdh, recognised))
  {
    hide TrimSpace, BeforeDash;
    lang', forced', sdh', recognised' := lang, forced, sdh, recognised;
    var t := env.lower(TrimSpace(tok));
    if t == "" {
      return;
    }
    var base := BeforeDash(t);
    if lang == "" && base in env.aliases {
      lang', recognised' := env.aliases[base], true;
      return;
    }
    if t in QUALIFIERS {
      recognised' := true;
      if t in FORCED {
        forced' := true;
      } else if t in SDH {
        sdh' := true;
      }
    }
  }

  /** A token the table of languages or the list of qualifiers knows. */
  predicate Known(env: Env, tok: string) {
    var t := Token(env, tok);
    t != "" && (BeforeDash(t) in env.aliases || t in QUALIFIERS)
  }

  predicate AnyKnown(env: Env, toks: seq<string>) {
    exists i :: 0 <= i < |toks| && Known(env, toks[i])
  }

  lemma AnyKnownCons(env: Env, toks: seq<string>)
    requires toks != []
    ensures AnyKnown(env, toks) <==> Known(env, toks[0]) || AnyKnown(env, toks[1..])
  {
    hide Known;
    assert forall i :: 0 <= i < |toks| - 1 ==> toks[1..][i] == toks[i + 1];
    if i :| 0 < i < |toks| && Known(env, toks[i]) {
      assert Known(env, toks[1..][i - 1]);
    }
  }

  lemma StepRecognises(env: Env, tok: string, s: Suffix)
    requires s.lang != "" ==> s.recognised
    ensures TokenStep(env, tok, s).recognised <==> s.recognised || Known(env, tok)
    ensures TokenStep(env, tok, s).lang != "" ==> TokenStep(env, tok, s).recognised
  {
    hide Token, BeforeDash;
  }

  lemma {:induction false} FoldRecognises(env: Env, toks: seq<string>, s: Suffix)
    requires s.lang != "" ==> s.recognised
    ensures TokensFold(env, toks, s).recognised <==> s.recognised || AnyKnown(env, toks)
  {
    hide TokenStep, Known, AnyKnown;
    if toks == [] {
      NoneKnown(env);
    } else {
      StepRecognises(env, toks[0], s);
      AnyKnownCons(env, toks);
      FoldRecognises(env, toks[1..], TokenStep(env, toks[0], s));
    }
  }

  lemma NoneKnown(env: Env)
    ensures !AnyKnown(env, [])
  {
  }

  /**
   * A suffix is recognised exactly when it is blank or one of its tokens is
   * known; the other tokens may be anything.
   */
  lemma OneKnownTokenIsEnough(env: Env, suffix: string)
    ensures SuffixOf(env, suffix).recognised
            <==> TrimSpace(suffix) == "" || AnyKnown(env, Fields(TrimSpace(suffix)))
  {
    hide TrimSpace, Fields, AnyKnown, TokensFold;
    FoldRecognises(env, Fields(TrimSpace(suffix)), Suffix("", false, false, false));
  }

  lemma Trimmed(s: string)
    requires s != "" && !Space(s[0]) && !Space(s[|s| - 1])
    ensures TrimSpace(s) == s
  {
  }

  lemma TwoTokens()
    ensures Fields("en.xyz") == ["en", "xyz"] && TrimSpace("en.xyz") == "en.xyz"
    ensures TrimSpace("en") == "en" && TrimSpace("xyz") == "xyz"
  {
    var s := "en.xyz";
    Trimmed(s);
    Trimmed("en");
    Trimmed("xyz");
    FieldsWord("en", ".xyz", "");
    FieldsWord("xyz", "", "");
    assert s == "en" + ".xyz" && "xyz" + "" == "xyz" && "" + "en" == "en" && "" + "xyz" == "xyz" && ".xyz"[1..] == "xyz";
  }

  lemma {:induction false} FieldsWord(word: string, rest: string, current: string)
    requires forall c :: c in word ==> !Separator(c)
    ensures Fields(word + rest, current) == Fields(rest, current + word)
    decreases |word|
  {
    if word == "" {
      assert word + rest == rest && current + word == current;
    } else {
      assert (word + rest)[0] == word[0] && (word + rest)[1..] == word[1..] + rest;
      FieldsWord(word[1..], rest, current + [word[0]]);
      assert current + [word[0]] + word[1..] == current + word;
    }
  }

  /** A token that is neither a language nor a qualifier does not make the suffix unrecognised. */
  lemma UnknownTokenIsTolerated(env: Env)
    requires env.lower("en") == "en" && env.lower("xyz") == "xyz" && "en" in env.aliases && "xyz" !in env.aliases
    ensures Fields("en.xyz") == ["en", "xyz"] && !Known(env, "xyz") && SuffixOf(env, "en.xyz").recognised
  {
    hide TrimSpace, Fields;
    TwoTokens();
    OneKnownTokenIsEnough(env, "en.xyz");
    assert Known(env, ["en", "xyz"][0]);
  }

  // Matching.

  /** What follows the video's own name in a subtitle's stem, when the names are related at all. */
  function SuffixAfter(stem: string, base: string, fileName: string): Option<string> {
    if stem == base || stem == fileName then Some("")
    else if base + "." <= stem then Some(stem[|base| + 1..])
    else if fileName + "." <= stem then Some(stem[|fileName| + 1..])
    else None
  }

  /** The track a pool file makes for a video, if any. */
  function MatchOne(env: Env, videoPath: string, subPath: string): (r: Option<Subtitle>)
    ensures r.Some? ==> r.value.path == subPath && r.value.name == Base(subPath)
  {
    var fileName := Base(videoPath);
    var subName := Base(subPath);
    var ext := env.lower(Ext(subName));
    if ext !in SUB_EXTS then None
    else
      match SuffixAfter(Stem(subName), Stem(fileName), fileName)
      case None => None
      case Some(suffix) =>
        var s := SuffixOf(env, suffix);
        if !s.recognised || env.binary(subPath) then None
        else Some(Subtitle(subPath, subName, s.lang, SUB_EXTS[ext], s.forced, s.sdh))
  }

  /** Tracks in pool order, each path once. */
  function Collect(env: Env, videoPath: string, pool: seq<string>): seq<Subtitle> {
    if pool == [] then []
    else
      var before, p := pool[..|pool| - 1], pool[|pool| - 1];
      var m := MatchOne(env, videoPath, p);
      Collect(env, videoPath, before) + if m.Some? && p !in before then [m.value] else []
  }

  function LangRank(lang: string, pref: seq<string>): nat {
    if pref == [] then 0 else if lang == "" then |pref| else RankFrom(lang, pref, 0)
  }

  function RankFrom(lang: string, pref: seq<string>, i: nat): (r: nat)
    requires i <= |pref|
    ensures if lang in pref[i..] then i <= r < |pref| && pref[r] == lang else r == |pref| + 1
    ensures forall k :: i <= k < r && k < |pref| ==> pref[k] != lang
    decreases |pref| - i
  {
    if i == |pref| then |pref| + 1
    else if pref[i] == lang then i
    else
      assert pref[i..] == [pref[i]] + pref[i + 1..];
      RankFrom(lang, pref, i + 1)
  }

  method LangRankOf(lang: string, pref: seq<string>) returns (r: nat)
    ensures r == LangRank(lang, pref)
  {
    if |pref| == 0 {
      return 0;
    }
    if lang == "" {
      return |pref|;
    }
    for i := 0 to |pref|
      invariant RankFrom(lang, pref, i) == RankFrom(lang, pref, 0)
    {
      if pref[i] == lang {
        return i;
      }
    }
    return |pref| + 1;
  }

  /** The comparison tracks are sorted by. */
  predicate Less(env: Env, pref: seq<string>, a: Subtitle, b: Subtitle) {
    if LangRank(a.lang, pref) != LangRank(b.lang, pref) then LangRank(a.lang, pref) < LangRank(b.lang, pref)
    else if a.forced != b.forced then !a.forced
    else if a.sdh != b.sdh then !a.sdh
    else if a.lang != b.lang then Before(a.lang, b.lang)
    else LessFold(env.lower, a.name, b.name)
  }

  function Order(env: Env, pref: seq<string>): (Subtitle, Subtitle) -> bool {
    (a, b) => Less(env, pref, a, b)
  }

  /** Ties are exactly equal names with equal flags and language. */
  lemma TiesAreEqualKeys(env: Env, pref: seq<string>, a: Subtitle, b: Subtitle)
    ensures !Less(env, pref, a, b) && !Less(env, pref, b, a)
            <==> a.name == b.name && a.lang == b.lang && a.forced == b.forced && a.sdh == b.sdh
    ensures !(Less(env, pref, a, b) && Less(env, pref, b, a))
  {
    hide LessFold, LangRank, Before;
    LessFoldTotal(env.lower, a.name, b.name);
    BeforeTrichotomy(a.lang, b.lang);
  }

  lemma LessTransitive(env: Env, pref: seq<string>, a: Subtitle, b: Subtitle, c: Subtitle)
    requires Less(env, pref, a, b) && Less(env, pref, b, c)
    ensures Less(env, pref, a, c)
  {
    hide LessFold, LangRank, Before;
    if LessFold(env.lower, a.name, b.name) && LessFold(env.lower, b.name, c.name) {
      LessFoldTransitive(env.lower, a.name, b.name, c.name);
    }
    if Before(a.lang, b.lang) && Before(b.lang, c.lang) {
      BeforeTransitive(a.lang, b.lang, c.lang);
    }
    BeforeTrichotomy(a.lang, b.lang);
  }

  lemma OrderIsStrictWeak(env: Env, pref: seq<string>)
    ensures StrictWeak(Order(env, pref))
  {
    hide Less;
    var less := Order(env, pref);
    forall x
      ensures !less(x, x)
    {
      TiesAreEqualKeys(env, pref, x, x);
    }
    forall x, y, z | less(x, y) && less(y, z)
      ensures less(x, z)
    {
      LessTransitive(env, pref, x, y, z);
    }
    forall x, y, z | !less(x, y) && !less(y, z)
      ensures !less(x, z)
    {
      NotLessTransitive(env, pref, x, y, z);
    }
  }

  lemma NotLessTransitive(env: Env, pref: seq<string>, x: Subtitle, y: Subtitle, z: Subtitle)
    requires !Less(env, pref, x, y) && !Less(env, pref, y, z)
    ensures !Less(env, pref, x, z)
  {
    TiesAreEqualKeys(env, pref, x, y);
    TiesAreEqualKeys(env, pref, y, z);
    TiesAreEqualKeys(env, pref, x, z);
    if Less(env, pref, y, x) && Less(env, pref, z, y) {
      LessTransitive(env, pref, z, y, x);
    } else if Less(env, pref, y, x) {
      SameKeyLess(env, pref, y, z, x);
    } else if Less(env, pref, z, y) {
      SameKeyLess(env, pref, x, y, z);
    } else {
      SameKeyLess(env, pref, x, y, z);
    }
  }

  /** Only the sort key matters to the comparison. */
  lemma SameKeyLess(env: Env, pref: seq<string>, a: Subtitle, b: Subtitle, c: Subtitle)
    ensures a.name == b.name && a.lang == b.lang && a.forced == b.forced && a.sdh == b.sdh ==>
              (Less(env, pref, a, c) <==> Less(env, pref, b, c)) && (Less(env, pref, c, a) <==> Less(env, pref, c, b))
  {
  }

  /** matchSubtitles as a function: collect, then sort stably. */
  function Matched(env: Env, videoPath: string, pool: seq<string>, pref: seq<string>): seq<Subtitle> {
    StableSort(Collect(env, videoPath, pool), Order(env, pref))
  }

  method MatchSubtitles(env: Env, videoPath: string, pool: seq<string>, pref: seq<string>) returns (out: seq<Subtitle>)
    ensures out == Matched(env, videoPath, pool, pref)
  {
    hide MatchOne, StableSort;
    out := [];
    var seen: set<string> := {};
    for i := 0 to |pool|
      invariant out == Collect(env, videoPath, pool[..i])
      invariant forall p :: p in seen <==> p in pool[..i] && MatchOne(env, videoPath, p).Some?
    {
      var p := pool[i];
      assert pool[..i + 1][..i] == pool[..i] && pool[..i + 1] == pool[..i] + [p];
      var m := MatchOne(env, videoPath, p);
      if m.Some? {
        if p !in seen {
          seen := seen + {p};
          out := out + [m.value];
        }
      }
    }
    assert pool[..|pool|] == pool;
    var a := new Subtitle[|out|](i requires 0 <= i < |out| => out[i]);
    assert a[..] == out;
    SortStable(a, Order(env, pref));
    out := a[..];
  }

  // Consequences.

  lemma {:induction false} CollectMeans(env: Env, videoPath: string, pool: seq<string>)
    ensures forall x :: x in Collect(env, videoPath, pool) <==> x.path in pool && MatchOne(env, videoPath, x.path) == Some(x)
    ensures forall i, j :: 0 <= i < j < |Collect(env, videoPath, pool)| ==>
              Collect(env, videoPath, pool)[i].path != Collect(env, videoPath, pool)[j].path
  {
    hide MatchOne;
    if pool != [] {
      var before, p := pool[..|pool| - 1], pool[|pool| - 1];
      CollectMeans(env, videoPath, before);
      assert pool == before + [p];
    }
  }

  /** The same tracks, however the pool is arranged. */
  lemma CollectSameBag(env: Env, videoPath: string, p: seq<string>, q: seq<string>)
    requires forall x :: x in p <==> x in q
    ensures multiset(Collect(env, videoPath, p)) == multiset(Collect(env, videoPath, q))
  {
    hide MatchOne;
    var a, b := Collect(env, videoPath, p), Collect(env, videoPath, q);
    CollectMeans(env, videoPath, p);
    CollectMeans(env, videoPath, q);
    hide Collect;
    forall x
      ensures multiset(a)[x] == multiset(b)[x]
    {
      OnceAtMost(a, x);
      OnceAtMost(b, x);
      assert x in a <==> x in b;
    }
  }

  lemma {:induction false} OnceAtMost(s: seq<Subtitle>, x: Subtitle)
    requires forall i, j :: 0 <= i < j < |s| ==> s[i].path != s[j].path
    ensures multiset(s)[x] == if x in s then 1 else 0
  {
    if s != [] {
      var init := s[..|s| - 1];
      OnceAtMost(init, x);
      assert s == init + [s[|s| - 1]];
    }
  }

  /** No file is listed twice, and every matching file of the pool is listed. */
  lemma MatchedListsEachOnce(env: Env, videoPath: string, pool: seq<string>, pref: seq<string>)
    ensures var out := Matched(env, videoPath, pool, pref);
            && (forall x :: x in out <==> x.path in pool && MatchOne(env, videoPath, x.path) == Some(x))
            && (forall x :: x in out ==> multiset(out)[x] == 1)
  {
    hide MatchOne, StableSort, Collect;
    var c := Collect(env, videoPath, pool);
    CollectMeans(env, videoPath, pool);
    SortKeeps(c, Order(env, pref));
    var out := Matched(env, videoPath, pool, pref);
    forall x
      ensures x in out <==> x in c
      ensures x in c ==> multiset(out)[x] == 1
    {
      OnceAtMost(c, x);
      assert x in out <==> x in multiset(out);
      assert x in c <==> x in multiset(c);
    }
  }

  /**
   * When file names are distinct, the ranked list depends only on which files
   * are in the pool: not on their order, nor on repeats.
   */
  lemma MatchedIgnoresPoolOrder(env: Env, videoPath: string, p: seq<string>, q: seq<string>, pref: seq<string>)
    requires forall x :: x in p <==> x in q
    requires forall x, y :: x in p && y in p && Base(x) == Base(y) ==> x == y
    ensures Matched(env, videoPath, p, pref) == Matched(env, videoPath, q, pref)
  {
    hide MatchOne, StableSort, Collect, Less, StrictWeak, StrictWeakOn;
    var less := Order(env, pref);
    var a, b := Collect(env, videoPath, p), Collect(env, videoPath, q);
    CollectSameBag(env, videoPath, p, q);
    CollectMeans(env, videoPath, p);
    OrderIsStrictWeak(env, pref);
    SortKeeps(a, less);
    SortKeeps(b, less);
    WeakAnywhere(a, less);
    WeakAnywhere(b, less);
    SortSorts(a, less);
    SortSorts(b, less);
    var s := StableSort(a, less);
    forall x, y | x in s && y in s && x != y
      ensures less(x, y) || less(y, x)
    {
      assert x in multiset(s) && y in multiset(s);
      assert x in multiset(a) && y in multiset(a);
      assert x in a && y in a;
      NamesTellApart(env, videoPath, x, y, p);
      TiesAreEqualKeys(env, pref, x, y);
    }
    SortedIsUnique(s, StableSort(b, less), less);
  }

  lemma NamesTellApart(env: Env, videoPath: string, x: Subtitle, y: Subtitle, pool: seq<string>)
    requires x.path in pool && y.path in pool && x != y
    requires MatchOne(env, videoPath, x.path) == Some(x) && MatchOne(env, videoPath, y.path) == Some(y)
    requires forall a, b :: a in pool && b in pool && Base(a) == Base(b) ==> a == b
    ensures x.name != y.name
  {
  }

  /** Preferred languages in preference order, then untagged tracks, then the rest. */
  lemma PreferredFirst(env: Env, videoPath: string, pool: seq<string>, pref: seq<string>, i: nat, j: nat)
    requires pref != [] && i < j < |Matched(env, videoPath, pool, pref)|
    ensures var a, b := Matched(env, videoPath, pool, pref)[i], Matched(env, videoPath, pool, pref)[j];
            && LangRank(a.lang, pref) <= LangRank(b.lang, pref)
            && (b.lang in pref && b.lang != "" ==> a.lang in pref && a.lang != "")
            && (b.lang == "" ==> a.lang == "" || a.lang in pref)
  {
    hide Collect, StableSort, LessFold, Before;
    var less := Order(env, pref);
    OrderIsStrictWeak(env, pref);
    WeakAnywhere(Collect(env, videoPath, pool), less);
    SortSorts(Collect(env, videoPath, pool), less);
    var out := Matched(env, videoPath, pool, pref);
    var a, b := out[i], out[j];
    assert !less(out[j], out[i]);
    assert pref[0..] == pref;
  }

  /** The forced flag outweighs the SDH flag. */
  function Weight(s: Subtitle): nat {
    (if s.forced then 2 else 0) + (if s.sdh then 1 else 0)
  }

  lemma LessByFlags(env: Env, pref: seq<string>, a: Subtitle, b: Subtitle)
    requires LangRank(a.lang, pref) == LangRank(b.lang, pref) && Weight(a) != Weight(b)
    ensures Less(env, pref, a, b) <==> Weight(a) < Weight(b)
  {
    hide LangRank, LessFold, Before;
  }

  /** In a result no track is less than one before it. */
  lemma MatchedIsSorted(env: Env, videoPath: string, pool: seq<string>, pref: seq<string>)
    ensures Sorted(Matched(env, videoPath, pool, pref), Order(env, pref))
  {
    hide Collect, StableSort, Less, Sorted;
    var c, less := Collect(env, videoPath, pool), Order(env, pref);
    OrderIsStrictWeak(env, pref);
    WeakAnywhere(c, less);
    SortSorts(c, less);
  }

  /**
   * In every result, within a language rank, complete tracks come first, then SDH, then forced, then forced SDH: no
   * track comes before a lighter one.
   */
  lemma FlagsRank(env: Env, videoPath: string, pool: seq<string>, pref: seq<string>, i: nat, j: nat)
    requires i < j < |Matched(env, videoPath, pool, pref)|
    ensures var a, b := Matched(env, videoPath, pool, pref)[i], Matched(env, videoPath, pool, pref)[j];
            LangRank(a.lang, pref) == LangRank(b.lang, pref) ==> Weight(a) <= Weight(b)
  {
    hide Matched, LangRank, Less, Weight;
    var out := Matched(env, videoPath, pool, pref);
    MatchedIsSorted(env, videoPath, pool, pref);
    assert !Order(env, pref)(out[j], out[i]);
    if LangRank(out[i].lang, pref) == LangRank(out[j].lang, pref) && Weight(out[i]) != Weight(out[j]) {
      LessByFlags(env, pref, out[j], out[i]);
    }
  }

  /** A track for the hard of hearing that is not forced too, and a forced one of the same language rank. */
  predicate Reversed(pref: seq<string>, a: Subtitle, b: Subtitle) {
    LangRank(a.lang, pref) == LangRank(b.lang, pref) && a.sdh && !a.forced && b.forced
  }

  /** The documented order, forced before SDH, holds of a result exactly when no language rank has both. */
  lemma ForcedFirstExactly(env: Env, videoPath: string, pool: seq<string>, pref: seq<string>)
    ensures var out := Matched(env, videoPath, pool, pref);
            (forall i, j :: 0 <= i < j < |out| ==> !Reversed(pref, out[i], out[j]))
            <==> (forall a, b :: a in out && b in out ==> !Reversed(pref, a, b))
  {
    hide Matched, LangRank;
    var out := Matched(env, videoPath, pool, pref);
    forall a, b | a in out && b in out && Reversed(pref, a, b)
      ensures exists i, j :: 0 <= i < j < |out| && Reversed(pref, out[i], out[j])
    {
      var i :| 0 <= i < |out| && out[i] == a;
      var j :| 0 <= j < |out| && out[j] == b;
      if j < i {
        FlagsRank(env, videoPath, pool, pref, j, i);
      }
      assert i < j && Reversed(pref, out[i], out[j]);
    }
  }

  /** With no preference, untagged tracks come first among those of equal flags only. */
  lemma UntaggedFirst(env: Env, videoPath: string, pool: seq<string>, i: nat, j: nat)
    requires i < j < |Matched(env, videoPath, pool, [])|
    ensures var a, b := Matched(env, videoPath, pool, [])[i], Matched(env, videoPath, pool, [])[j];
            Weight(a) <= Weight(b) && (Weight(a) == Weight(b) && b.lang == "" ==> a.lang == "")
  {
    hide Matched, LessFold;
    var out := Matched(env, videoPath, pool, []);
    MatchedIsSorted(env, videoPath, pool, []);
    FlagsRank(env, videoPath, pool, [], i, j);
    assert !Order(env, [])(out[j], out[i]);
  }

  /** With no preference, all untagged tracks come first exactly when none of them is heavier than a tagged one. */
  lemma UntaggedFirstExactly(env: Env, videoPath: string, pool: seq<string>)
    ensures var out := Matched(env, videoPath, pool, []);
            (forall i, j :: 0 <= i < j < |out| && out[j].lang == "" ==> out[i].lang == "")
            <==> (forall a, b :: a in out && b in out && a.lang != "" && b.lang == "" ==> Weight(b) <= Weight(a))
  {
    hide Matched, Weight;
    var out := Matched(env, videoPath, pool, []);
    forall i, j | 0 <= i < j < |out|
      ensures Weight(out[i]) <= Weight(out[j])
      ensures Weight(out[i]) == Weight(out[j]) && out[j].lang == "" ==> out[i].lang == ""
    {
      UntaggedFirst(env, videoPath, pool, i, j);
    }
    forall a, b | a in out && b in out && a.lang != "" && b.lang == "" && Weight(b) > Weight(a)
      ensures exists i, j :: 0 <= i < j < |out| && out[j].lang == "" && out[i].lang != ""
    {
      var i :| 0 <= i < |out| && out[i] == a;
      var j :| 0 <= j < |out| && out[j] == b;
      assert i < j;
    }
  }

  // Two pools of one film: a forced track with an SDH track, and with an English one.

  lemma {:induction false} BaseOfName(name: string)
    requires forall i :: 0 <= i < |name| ==> name[i] != '/'
    ensures Base(name) == name
  {
    if name != "" {
      BaseOfName(name[..|name| - 1]);
    }
  }

  lemma {:induction false} ExtOfName(stem: string, ext: string)
    requires forall i :: 0 <= i < |ext| ==> ext[i] != '.'
    ensures Ext(stem + "." + ext) == "." + ext && Stem(stem + "." + ext) == stem
  {
    var name := stem + "." + ext;
    if ext != "" {
      var init := ext[..|ext| - 1];
      assert name[..|name| - 1] == stem + "." + init && name[|name| - 1] == ext[|ext| - 1];
      ExtOfName(stem, init);
    }
  }

  lemma OneToken(word: string)
    requires word != "" && (forall c :: c in word ==> !Separator(c) && !Space(c) && c != '-')
    ensures TrimSpace(word) == word && Fields(word) == [word] && BeforeDash(word) == word
  {
    Trimmed(word);
    FieldsWord(word, "", "");
    assert word + "" == word && "" + word == word;
    NoDash(word);
  }

  lemma {:induction false} NoDash(word: string)
    requires forall c :: c in word ==> c != '-'
    ensures IndexOfDash(word) == |word|
  {
    if word != "" {
      assert word[0] in word && forall c :: c in word[1..] ==> c in word;
      NoDash(word[1..]);
    }
  }

  /** Nothing of these names is changed by lower-casing, and they are text and name no language. */
  predicate Plain(env: Env) {
    && env.lower(".srt") == ".srt" && env.lower("sdh") == "sdh" && env.lower("forced") == "forced"
    && "sdh" !in env.aliases && "forced" !in env.aliases
    && !env.binary("m.sdh.srt") && !env.binary("m.forced.srt")
  }

  lemma QualifierStep(env: Env, word: string)
    requires (word == "sdh" || word == "forced") && Plain(env) && TrimSpace(word) == word && BeforeDash(word) == word
    ensures TokenStep(env, word, Suffix("", false, false, false)) == Suffix("", word == "forced", word == "sdh", true)
  {
    hide TrimSpace, BeforeDash;
    assert "sdh" != "forced" && "sdh" !in FORCED && "sdh" in SDH && "forced" in FORCED;
  }

  lemma QualifierSuffix(env: Env, word: string)
    requires (word == "sdh" || word == "forced") && Plain(env)
    ensures SuffixOf(env, word) == Suffix("", word == "forced", word == "sdh", true)
  {
    hide TrimSpace, Fields, BeforeDash, TokenStep, Plain;
    OneToken(word);
    QualifierStep(env, word);
    OneFold(env, word, Suffix("", false, false, false));
  }

  lemma OneFold(env: Env, tok: string, s: Suffix)
    ensures TokensFold(env, [tok], s) == TokenStep(env, tok, s)
  {
    hide TokenStep;
    assert [tok][1..] == [];
  }

  lemma NamesSplit(word: string)
    requires word != "" && forall i :: 0 <= i < |word| ==> word[i] != '/' && word[i] != '.'
    ensures var path := ("m." + word) + ("." + "srt");
            Base(path) == path && Ext(path) == "." + "srt" && Stem(path) == "m." + word
  {
    BaseOfName(("m." + word) + ("." + "srt"));
    ExtOfName("m." + word, "srt");
    assert ("m." + word) + "." + "srt" == ("m." + word) + ("." + "srt");
  }

  lemma VideoSplits()
    ensures Base("m.mkv") == "m.mkv" && Stem("m.mkv") == "m"
  {
    BaseOfName("m.mkv");
    ExtOfName("m", "mkv");
    assert "m" + "." + "mkv" == "m.mkv";
  }

  /** A suffix after the video's stem, unless the track is named after the whole file. */
  lemma SuffixReads(word: string)
    requires word != "" && word[0] != 'm'
    ensures SuffixAfter("m." + word, "m", "m.mkv") == Some(word)
  {
    var stem := "m." + word;
    assert stem[2] == word[0] && "m.mkv"[2] == 'm';
    assert "m" + "." == "m." && stem[..2] == "m." && stem[2..] == word;
  }

  lemma SrtIsText()
    ensures ".srt" in SUB_EXTS && SUB_EXTS[".srt"] == "text/srt"
  {
  }

  lemma QualifierMatch(env: Env, word: string, path: string)
    requires (word == "sdh" && path == "m.sdh.srt") || (word == "forced" && path == "m.forced.srt")
    requires Plain(env)
    ensures MatchOne(env, "m.mkv", path) == Some(Subtitle(path, path, "", "text/srt", word == "forced", word == "sdh"))
  {
    hide SuffixOf, Base, Ext, Stem, SuffixAfter;
    NamesSplit(word);
    VideoSplits();
    SuffixReads(word);
    SrtIsText();
    QualifierSuffix(env, word);
    assert path == ("m." + word) + ("." + "srt") && "." + "srt" == ".srt";
  }

  lemma CollectTwo(env: Env, videoPath: string, p: string, q: string, a: Subtitle, b: Subtitle)
    requires p != q && MatchOne(env, videoPath, p) == Some(a) && MatchOne(env, videoPath, q) == Some(b)
    ensures Collect(env, videoPath, [p, q]) == [a, b]
  {
    hide MatchOne;
    var pool := [p, q];
    assert pool[..1] == [p] && [p][..0] == [];
    assert Collect(env, videoPath, []) == [];
    assert Collect(env, videoPath, [p]) == [] + [a];
    assert q !in [p];
  }

  /** The forced track of a film comes after its SDH track, whatever the preference. */
  lemma SdhBeforeForced(env: Env, pref: seq<string>)
    requires Plain(env)
    ensures Matched(env, "m.mkv", ["m.forced.srt", "m.sdh.srt"], pref)
            == [Subtitle("m.sdh.srt", "m.sdh.srt", "", "text/srt", false, true),
                Subtitle("m.forced.srt", "m.forced.srt", "", "text/srt", true, false)]
  {
    hide MatchOne, Less, LangRank, Plain, Collect, StableSort;
    var a := Subtitle("m.sdh.srt", "m.sdh.srt", "", "text/srt", false, true);
    var b := Subtitle("m.forced.srt", "m.forced.srt", "", "text/srt", true, false);
    assert "m.forced.srt" != "m.sdh.srt" by {
      assert |"m.forced.srt"| != |"m.sdh.srt"|;
    }
    QualifierMatch(env, "forced", "m.forced.srt");
    QualifierMatch(env, "sdh", "m.sdh.srt");
    CollectTwo(env, "m.mkv", "m.forced.srt", "m.sdh.srt", b, a);
    LessByFlags(env, pref, a, b);
    PairSorts(b, a, Order(env, pref));
  }

  lemma LanguageSuffix(env: Env)
    requires env.lower("en") == "en" && "en" in env.aliases
    ensures SuffixOf(env, "en") == Suffix(env.aliases["en"], false, false, true)
  {
    OneToken("en");
    hide TrimSpace, Fields, BeforeDash;
    OneFold(env, "en", Suffix("", false, false, false));
  }

  lemma LanguageMatch(env: Env)
    requires env.lower("en") == "en" && "en" in env.aliases && env.lower(".srt") == ".srt" && !env.binary("m.en.srt")
    ensures MatchOne(env, "m.mkv", "m.en.srt")
            == Some(Subtitle("m.en.srt", "m.en.srt", env.aliases["en"], "text/srt", false, false))
  {
    hide SuffixOf, Base, Ext, Stem, SuffixAfter;
    NamesSplit("en");
    VideoSplits();
    SuffixReads("en");
    SrtIsText();
    LanguageSuffix(env);
    assert "m.en.srt" == ("m." + "en") + ("." + "srt") && "." + "srt" == ".srt";
  }

  /** With no preference an untagged track can come after a tagged one, when it is forced. */
  lemma TaggedBeforeForced(env: Env)
    requires Plain(env) && env.lower("en") == "en" && "en" in env.aliases && env.aliases["en"] != "" && !env.binary("m.en.srt")
    ensures Matched(env, "m.mkv", ["m.forced.srt", "m.en.srt"], [])
            == [Subtitle("m.en.srt", "m.en.srt", env.aliases["en"], "text/srt", false, false),
                Subtitle("m.forced.srt", "m.forced.srt", "", "text/srt", true, false)]
  {
    LanguageMatch(env);
    hide MatchOne, Less, Plain, Collect, StableSort;
    var a := Subtitle("m.en.srt", "m.en.srt", env.aliases["en"], "text/srt", false, false);
    var b := Subtitle("m.forced.srt", "m.forced.srt", "", "text/srt", true, false);
    assert "m.forced.srt" != "m.en.srt" by {
      assert |"m.forced.srt"| != |"m.en.srt"|;
    }
    QualifierMatch(env, "forced", "m.forced.srt");
    CollectTwo(env, "m.mkv", "m.forced.srt", "m.en.srt", b, a);
    LessByFlags(env, [], a, b);
    PairSorts(b, a, Order(env, []));
  }

  lemma PairSorts(x: Subtitle, y: Subtitle, less: (Subtitle, Subtitle) -> bool)
    requires less(y, x)
    ensures StableSort([x, y], less) == [y, x]
  {
    assert [x, y][..1] == [x] && [x][..0] == [];
    assert StableSort([], less) == [];
    assert Insert([], x, less) == [x];
    assert StableSort([x], less) == [x];
    assert Position([x], y, less) == 0;
  }
}
