/** What file names say: of a video its title, of a subtitle file whether it belongs to a video, its language and its flags. */
module Names {
  import opened Bytes
  import opened Ordering
  import opened Subtitles
  import opened LibraryWalk

  // Parts of a path.

  /** The last element of a path is what follows its last slash, and the extension what begins at the last dot of a name. */
  lemma {:induction false} BaseOfPath(dir: string, name: string)
    requires '/' !in name
    ensures Base(dir + "/" + name) == name && Base(name) == name
  {
    var path := dir + "/" + name;
    if name != "" {
      var init := name[..|name| - 1];
      BaseOfPath(dir, init);
      assert name[|name| - 1] in name && path[..|path| - 1] == dir + "/" + init;
      assert name == init + [name[|name| - 1]];
    }
  }

  lemma {:induction false} NameWithoutDot(name: string)
    requires '.' !in name
    ensures Ext(name) == "" && Stem(name) == name
  {
    if name != "" {
      NameWithoutDot(name[..|name| - 1]);
    }
  }

  lemma NameWithDot(stem: string, ext: string)
    requires '.' !in ext
    ensures Ext(stem + "." + ext) == "." + ext && Stem(stem + "." + ext) == stem
  {
    ExtOfName(stem, ext);
  }

  // Titles.

  /** What stands for a space in a title. */
  predicate Gap(c: char) {
    Space(c) || c == '_'
  }

  function TitleOf(stem: string): string {
    Sentence(Words(Spaced(stem)))
  }

  lemma {:induction false} SpacedConcat(a: string, b: string)
    ensures Spaced(a + b) == Spaced(a) + Spaced(b)
  {
    if a == "" {
      assert a + b == b;
    } else {
      assert (a + b)[1..] == a[1..] + b;
      SpacedConcat(a[1..], b);
    }
  }

  lemma {:induction false} SpacedWord(word: string)
    requires forall c :: c in word ==> !Gap(c)
    ensures Spaced(word) == word
  {
    if word != "" {
      assert word[0] in word && forall c :: c in word[1..] ==> c in word;
      SpacedWord(word[1..]);
      assert word == [word[0]] + word[1..];
    }
  }

  lemma {:induction false} SpacedGap(gap: string)
    requires forall c :: c in gap ==> Gap(c)
    ensures |Spaced(gap)| == |gap| && forall c :: c in Spaced(gap) ==> Space(c)
  {
    if gap != "" {
      assert gap[0] in gap && forall c :: c in gap[1..] ==> c in gap;
      SpacedGap(gap[1..]);
    }
  }

  lemma {:induction false} WordsWord(word: string, rest: string, current: string)
    requires forall c :: c in word ==> !Space(c)
    ensures Words(word + rest, current) == Words(rest, current + word)
    decreases |word|
  {
    hide Space;
    if word == "" {
      assert word + rest == rest && current + word == current;
    } else {
      assert (word + rest)[0] == word[0] && (word + rest)[1..] == word[1..] + rest;
      assert word[0] in word && forall c :: c in word[1..] ==> c in word;
      WordsWord(word[1..], rest, current + [word[0]]);
      assert current + [word[0]] + word[1..] == current + word;
    }
  }

  lemma {:induction false} WordsGap(gap: string, rest: string)
    requires forall c :: c in gap ==> Space(c)
    ensures Words(gap + rest, "") == Words(rest, "")
    decreases |gap|
  {
    hide Space;
    if gap == "" {
      assert gap + rest == rest;
    } else {
      assert (gap + rest)[0] == gap[0] && (gap + rest)[1..] == gap[1..] + rest;
      assert gap[0] in gap && forall c :: c in gap[1..] ==> c in gap;
      WordsGap(gap[1..], rest);
    }
  }

  lemma WordThenGap(word: string, gap: string, rest: string)
    requires word != "" && gap != ""
    requires (forall c :: c in word ==> !Space(c)) && forall c :: c in gap ==> Space(c)
    ensures Words(word + (gap + rest)) == [word] + Words(rest)
  {
    hide Space;
    WordsWord(word, gap + rest, "");
    assert "" + word == word;
    var more := gap[1..] + rest;
    assert (gap + rest)[0] == gap[0] && (gap + rest)[1..] == more && gap[0] in gap;
    assert forall c :: c in gap[1..] ==> c in gap;
    WordsGap(gap[1..], rest);
  }

  /** Gaps before the first word are dropped. */
  lemma TitleStart(gap: string, rest: string)
    requires forall c :: c in gap ==> Gap(c)
    ensures TitleOf(gap + rest) == TitleOf(rest)
  {
    hide Gap, Space, Words;
    SpacedConcat(gap, rest);
    SpacedGap(gap);
    WordsGap(Spaced(gap), Spaced(rest));
  }

  /** A word is kept as it is; a gap of any length after it becomes one space, or nothing when no other word follows. */
  lemma TitleGoesOn(word: string, gap: string, rest: string)
    requires word != "" && gap != "" && (forall c :: c in word ==> !Gap(c)) && forall c :: c in gap ==> Gap(c)
    ensures TitleOf(word + (gap + rest)) == word + if TitleOf(rest) == "" then "" else " " + TitleOf(rest)
  {
    SpacedConcat(word, gap + rest);
    SpacedConcat(gap, rest);
    SpacedWord(word);
    SpacedGap(gap);
    WordThenGap(word, Spaced(gap), Spaced(rest));
    SentenceOf(word, Words(Spaced(rest)));
    WordsAreWords(Spaced(rest), "");
    EmptySentence(Words(Spaced(rest)));
    hide Gap, Space, Words, Spaced;
  }

  lemma {:induction false} WordsAreWords(s: string, current: string)
    ensures forall w :: w in Words(s, current) ==> w != ""
    decreases |s|
  {
    hide Space;
    if s != "" {
      WordsAreWords(s[1..], "");
      WordsAreWords(s[1..], current + [s[0]]);
    }
  }

  lemma EmptySentence(words: seq<string>)
    requires forall w :: w in words ==> w != ""
    ensures Sentence(words) == "" <==> words == []
  {
    assert words != [] ==> words[0] in words;
  }

  lemma SentenceOf(word: string, words: seq<string>)
    ensures Sentence([word] + words) == word + if words == [] then "" else " " + Sentence(words)
  {
    assert ([word] + words)[1..] == words;
    assert word + "" == word;
  }

  lemma TitleEnds(word: string)
    requires forall c :: c in word ==> !Gap(c)
    ensures TitleOf(word) == word
  {
    SpacedWord(word);
    WordsWord(word, "", "");
    assert word + "" == word && "" + word == word;
    hide Words, Spaced;
  }

  // Trimming and splitting a suffix.

  predicate Blank(s: string) {
    forall c :: c in s ==> Space(c)
  }

  /** Spaces go from both ends, and nothing else does. */
  lemma {:induction false} TrimMeans(s: string) returns (before: string, after: string)
    ensures s == before + TrimSpace(s) + after && Blank(before) && Blank(after)
    ensures var t := TrimSpace(s);
            t != "" ==> !Space(t[0]) && !Space(t[|t| - 1])
    decreases |s|
  {
    hide Space;
    before, after := "", "";
    if s != "" && Space(s[0]) {
      before, after := TrimMeans(s[1..]);
      assert s == [s[0]] + s[1..];
      before := [s[0]] + before;
    } else if s != "" && Space(s[|s| - 1]) {
      before, after := TrimMeans(s[..|s| - 1]);
      assert s == s[..|s| - 1] + [s[|s| - 1]];
      after := after + [s[|s| - 1]];
    }
  }

  /** Tokens are the runs between separators. */
  lemma TokenThenMore(word: string, rest: string)
    requires word != "" && (forall c :: c in word ==> !Separator(c)) && rest != "" && Separator(rest[0])
    ensures Fields(word + rest) == [word] + Fields(rest[1..])
  {
    hide Separator;
    FieldsWord(word, rest, "");
    assert "" + word == word;
  }

  lemma LastToken(word: string)
    requires word != "" && forall c :: c in word ==> !Separator(c)
    ensures Fields(word) == [word]
  {
    hide Separator;
    FieldsWord(word, "", "");
    assert word + "" == word && "" + word == word;
  }

  lemma SeparatorFirst(rest: string)
    requires rest != "" && Separator(rest[0])
    ensures Fields(rest) == Fields(rest[1..]) && Fields("") == []
  {
  }

  // What the tokens of a suffix say.

  /** The language a token names, without what follows a dash. */
  predicate NamesLanguage(env: Env, tok: string) {
    var t := Token(env, tok);
    t != "" && BeforeDash(t) in env.aliases && env.aliases[BeforeDash(t)] != ""
  }

  /** A token that is taken for the language: it is in the table, and no language has been named before it. */
  ghost predicate Taken(env: Env, toks: seq<string>, i: nat, named: bool)
    requires i < |toks|
  {
    !named && BeforeDash(Token(env, toks[i])) in env.aliases && forall j :: 0 <= j < i ==> !NamesLanguage(env, toks[j])
  }

  /** One of these words is among the tokens and is not taken for the language. */
  ghost predicate Says(env: Env, toks: seq<string>, words: set<string>, named: bool) {
    exists i :: 0 <= i < |toks| && Token(env, toks[i]) in words && !Taken(env, toks, i, named)
  }

  /** The language of the first token that names one. */
  ghost predicate FirstLanguage(env: Env, toks: seq<string>, lang: string) {
    if exists i :: 0 <= i < |toks| && NamesLanguage(env, toks[i]) then
      exists i :: 0 <= i < |toks| && NamesLanguage(env, toks[i]) && lang == env.aliases[BeforeDash(Token(env, toks[i]))]
                  && forall j :: 0 <= j < i ==> !NamesLanguage(env, toks[j])
    else lang == ""
  }

  lemma SaysCons(env: Env, toks: seq<string>, words: set<string>, named: bool)
    requires toks != []
    ensures Says(env, toks, words, named)
            <==> (Token(env, toks[0]) in words && (named || BeforeDash(Token(env, toks[0])) !in env.aliases))
                 || Says(env, toks[1..], words, named || NamesLanguage(env, toks[0]))
  {
    hide NamesLanguage, Token, BeforeDash;
    var rest, later := toks[1..], named || NamesLanguage(env, toks[0]);
    assert forall j :: 0 <= j < |rest| ==> rest[j] == toks[j + 1];
    forall i: nat | i < |rest|
      ensures Taken(env, toks, i + 1, named) <==> Taken(env, rest, i, later)
    {
      TakenShift(env, toks, i, named);
    }
    if i: nat :| i < |toks| && Token(env, toks[i]) in words && !Taken(env, toks, i, named) {
      if i > 0 {
        assert Token(env, rest[i - 1]) in words && Taken(env, toks, (i - 1) + 1, named) == Taken(env, rest, i - 1, later);
      }
    }
    if Token(env, toks[0]) in words && (named || BeforeDash(Token(env, toks[0])) !in env.aliases) {
      assert !Taken(env, toks, 0, named);
    }
    if i: nat :| i < |rest| && Token(env, rest[i]) in words && !Taken(env, rest, i, later) {
      assert Token(env, toks[i + 1]) in words && !Taken(env, toks, i + 1, named);
    }
  }

  lemma TakenShift(env: Env, toks: seq<string>, i: nat, named: bool)
    requires i + 1 < |toks|
    ensures Taken(env, toks, i + 1, named) <==> Taken(env, toks[1..], i, named || NamesLanguage(env, toks[0]))
  {
    hide NamesLanguage, Token, BeforeDash;
    var rest := toks[1..];
    assert forall j :: 0 <= j < |rest| ==> rest[j] == toks[j + 1];
    if Taken(env, toks, i + 1, named) {
      assert !NamesLanguage(env, toks[0]);
    }
    if Taken(env, rest, i, named || NamesLanguage(env, toks[0])) {
      forall j | 0 <= j < i + 1
        ensures !NamesLanguage(env, toks[j])
      {
        assert j > 0 ==> toks[j] == rest[j - 1];
      }
    }
  }

  lemma StepSays(env: Env, tok: string, s: Suffix)
    ensures var r := TokenStep(env, tok, s);
            && (r.forced <==> s.forced || (Token(env, tok) in FORCED && (s.lang != "" || BeforeDash(Token(env, tok)) !in env.aliases)))
            && (r.sdh <==> s.sdh || (Token(env, tok) in SDH && (s.lang != "" || BeforeDash(Token(env, tok)) !in env.aliases)))
            && r.lang == (if s.lang == "" && NamesLanguage(env, tok) then env.aliases[BeforeDash(Token(env, tok))] else s.lang)
  {
    hide Token, BeforeDash;
    assert forall t :: t in FORCED ==> t !in SDH && t != "";
    assert "" !in SDH;
  }

  lemma FlagsNow(env: Env, toks: seq<string>, s: Suffix)
    ensures toks == [] ==> !Says(env, toks, FORCED, s.lang != "") && !Says(env, toks, SDH, s.lang != "")
  {
  }

  lemma {:induction false} FoldSays(env: Env, toks: seq<string>, s: Suffix)
    ensures var r := TokensFold(env, toks, s);
            && (r.forced <==> s.forced || Says(env, toks, FORCED, s.lang != ""))
            && (r.sdh <==> s.sdh || Says(env, toks, SDH, s.lang != ""))
  {
    hide TokenStep, Says, NamesLanguage, Token, BeforeDash, FORCED, SDH;
    FlagsNow(env, toks, s);
    if toks != [] {
      StepSays(env, toks[0], s);
      FoldSays(env, toks[1..], TokenStep(env, toks[0], s));
      SaysCons(env, toks, FORCED, s.lang != "");
      SaysCons(env, toks, SDH, s.lang != "");
      NamedIsNonEmpty(env, toks[0]);
    }
  }

  lemma NamedIsNonEmpty(env: Env, tok: string)
    ensures NamesLanguage(env, tok) ==> env.aliases[BeforeDash(Token(env, tok))] != ""
  {
    hide Token, BeforeDash;
  }

  lemma {:induction false} FoldNames(env: Env, toks: seq<string>, s: Suffix)
    ensures var r := TokensFold(env, toks, s);
            if s.lang != "" then r.lang == s.lang else FirstLanguage(env, toks, r.lang)
  {
    hide TokenStep, NamesLanguage, Token, BeforeDash, FORCED, SDH;
    if toks != [] {
      var rest, next := toks[1..], TokenStep(env, toks[0], s);
      StepSays(env, toks[0], s);
      NamedIsNonEmpty(env, toks[0]);
      FoldNames(env, rest, next);
      assert forall j :: 0 <= j < |rest| ==> rest[j] == toks[j + 1];
      assert forall j :: 0 < j < |toks| ==> toks[j] == rest[j - 1];
      if s.lang == "" && !NamesLanguage(env, toks[0]) {
        FirstCons(env, toks, TokensFold(env, rest, next).lang);
      }
    }
  }

  lemma FirstCons(env: Env, toks: seq<string>, lang: string)
    requires toks != [] && !NamesLanguage(env, toks[0]) && FirstLanguage(env, toks[1..], lang)
    ensures FirstLanguage(env, toks, lang)
  {
    hide Token, BeforeDash;
    var rest := toks[1..];
    assert forall j :: 0 < j < |toks| ==> toks[j] == rest[j - 1];
    if i :| 0 <= i < |rest| && NamesLanguage(env, rest[i])
            && lang == env.aliases[BeforeDash(Token(env, rest[i]))] && forall j :: 0 <= j < i ==> !NamesLanguage(env, rest[j]) {
      assert toks[i + 1] == rest[i] && NamesLanguage(env, toks[i + 1]);
    }
  }

  /** A token that names a language, or one of the words that are known. */
  predicate Recognised(env: Env, tok: string) {
    var t := Token(env, tok);
    t != ""
    && (BeforeDash(t) in env.aliases
        || t in {"forced", "force", "forc", "sdh", "cc", "hearing", "hearingimpaired", "deaf", "full", "complete", "default", "def",
                 "foreign", "signs", "songs", "commentary", "dub", "dubtitles", "normal", "norm"})
  }

  lemma RecognisedIsKnown(env: Env, tok: string)
    ensures Recognised(env, tok) <==> Known(env, tok)
  {
    hide Token, BeforeDash;
  }

  /**
   * A suffix carries the language of its first token that names one, and is forced or for the hard of hearing exactly when
   * another token says so; it is
   * recognised when it is blank or has a token that is known.
   */
  lemma SuffixMeans(env: Env, suffix: string)
    ensures var r, toks := SuffixOf(env, suffix), Fields(TrimSpace(suffix));
            && FirstLanguage(env, toks, r.lang)
            && (r.forced <==> Says(env, toks, {"forced", "force", "forc"}, false))
            && (r.sdh <==> Says(env, toks, {"sdh", "cc", "hearing", "hearingimpaired", "deaf"}, false))
            && (r.recognised <==> TrimSpace(suffix) == "" || exists i :: 0 <= i < |toks| && Recognised(env, toks[i]))
  {
    hide TrimSpace, Says, FirstLanguage, TokensFold, NamesLanguage, Known, Recognised;
    OneKnownTokenIsEnough(env, suffix);
    forall tok
      ensures Recognised(env, tok) <==> Known(env, tok)
    {
      RecognisedIsKnown(env, tok);
    }
    var none := Suffix("", false, false, false);
    var toks := Fields(TrimSpace(suffix));
    FoldSays(env, toks, none);
    FoldNames(env, toks, none);
    if TrimSpace(suffix) == "" {
      assert toks == [];
      FlagsNow(env, toks, none);
      NoLanguage(env);
    }
  }

  lemma NoLanguage(env: Env)
    ensures FirstLanguage(env, [], "")
  {
  }

  // Which files belong to a video.

  /** The kinds of subtitle file and how they are announced. */
  lemma MimeTypes()
    ensures SUB_EXTS.Keys == {".srt", ".ass", ".ssa", ".vtt", ".sub", ".smi", ".sami"}
    ensures SUB_EXTS[".srt"] == "text/srt" && SUB_EXTS[".ass"] == SUB_EXTS[".ssa"] == "text/x-ssa"
    ensures SUB_EXTS[".vtt"] == "text/vtt" && SUB_EXTS[".sub"] == SUB_EXTS[".smi"] == SUB_EXTS[".sami"] == "text/plain"
  {
  }

  /** The names are related: the subtitle is called like the video, with or without extension, or like it and a suffix. */
  ghost predicate Related(video: string, stem: string, suffix: string) {
    if stem == Stem(video) || stem == video then suffix == "" else stem == Stem(video) + "." + suffix
  }

  lemma SuffixIs(video: string, stem: string)
    ensures SuffixAfter(stem, Stem(video), video).Some? <==> exists suffix :: Related(video, stem, suffix)
    ensures forall suffix :: Related(video, stem, suffix) ==> SuffixAfter(stem, Stem(video), video) == Some(suffix)
  {
    hide Ext;
    var base := Stem(video);
    forall suffix | Related(video, stem, suffix)
      ensures SuffixAfter(stem, base, video) == Some(suffix)
    {
      if stem != base && stem != video {
        assert stem == (base + ".") + suffix && stem[|base| + 1..] == suffix;
      }
    }
    var s := SuffixAfter(stem, base, video);
    if s.Some? {
      if video + "." <= stem {
        DotFollows(video, stem);
      }
      assert stem != base && stem != video ==> stem == base + "." + stem[|base| + 1..];
      assert Related(video, stem, s.value);
    }
  }

  /** A name that goes on after the whole video name goes on after its stem. */
  lemma DotFollows(video: string, stem: string)
    requires video + "." <= stem
    ensures Stem(video) + "." <= stem
  {
    hide Ext;
    ExtIsSuffix(video);
    ExtStarts(video);
    var base, e := Stem(video), Ext(video);
    assert video == base + e;
    assert stem == video + "." + stem[|video| + 1..];
    if e != "" {
      assert stem[..|base| + 1] == base + ".";
    }
  }

  lemma {:induction false} ExtStarts(name: string)
    ensures Ext(name) == "" || Ext(name)[0] == '.'
  {
    if name != "" {
      ExtStarts(name[..|name| - 1]);
    }
  }

  /**
   * A file of the pool becomes a track exactly when it has a subtitle extension, its name is the video's with a recognised
   * suffix or none, and it is text; the track has what the suffix says.
   */
  lemma MatchMeans(env: Env, videoPath: string, subPath: string)
    ensures var name, m := Base(subPath), MatchOne(env, videoPath, subPath);
            var ext := env.lower(Ext(name));
            && (m.Some? <==> ext in SUB_EXTS && !env.binary(subPath)
                             && exists suffix :: Related(Base(videoPath), Stem(name), suffix) && SuffixOf(env, suffix).recognised)
            && (forall suffix :: m.Some? && Related(Base(videoPath), Stem(name), suffix) ==>
                  var s := SuffixOf(env, suffix);
                  m.value == Subtitle(subPath, name, s.lang, SUB_EXTS[ext], s.forced, s.sdh))
  {
    hide Related, SuffixOf, Stem, Ext, SuffixAfter, Base;
    SuffixIs(Base(videoPath), Stem(Base(subPath)));
  }

  // Ranks.

  /** A preferred language ranks by its first place among the preferences; files without a language come next, then the rest. */
  lemma RankMeans(lang: string, pref: seq<string>)
    ensures pref == [] ==> LangRank(lang, pref) == 0
    ensures pref != [] && lang == "" ==> LangRank(lang, pref) == |pref|
    ensures pref != [] && lang != "" && lang !in pref ==> LangRank(lang, pref) == |pref| + 1
    ensures forall k :: 0 <= k < |pref| && pref[k] == lang != "" && lang !in pref[..k] ==> LangRank(lang, pref) == k
  {
    assert pref[0..] == pref;
    forall k | 0 <= k < |pref| && pref[k] == lang != "" && lang !in pref[..k]
      ensures LangRank(lang, pref) == k
    {
      assert forall m :: 0 <= m < k ==> pref[m] == pref[..k][m];
    }
  }

  /** Among tracks of one rank and equal flags languages are in order, and within a language names, upper case like lower. */
  lemma NamesBreakTies(env: Env, videoPath: string, pool: seq<string>, pref: seq<string>, i: nat, j: nat)
    requires i < j < |Matched(env, videoPath, pool, pref)|
    ensures var a, b := Matched(env, videoPath, pool, pref)[i], Matched(env, videoPath, pool, pref)[j];
            LangRank(a.lang, pref) == LangRank(b.lang, pref) && a.forced == b.forced && a.sdh == b.sdh ==>
              if a.lang != b.lang then Before(a.lang, b.lang)
              else if env.lower(a.name) != env.lower(b.name) then Before(env.lower(a.name), env.lower(b.name))
              else a.name == b.name || Before(a.name, b.name)
  {
    hide Matched, LangRank, Before;
    var out := Matched(env, videoPath, pool, pref);
    MatchedIsSorted(env, videoPath, pool, pref);
    assert !Order(env, pref)(out[j], out[i]);
    BeforeTrichotomy(out[i].lang, out[j].lang);
    BeforeTrichotomy(env.lower(out[i].name), env.lower(out[j].name));
    BeforeTrichotomy(out[i].name, out[j].name);
  }
}
