/**
 * Parsing printed XML gives back the tree that was printed: text, attribute
 * values and names first, then elements and their contents, then whole documents.
 */
module XmlRoundTrip {
  import opened Bytes
  import opened Xml

  lemma Cut(a: string, b: string)
    ensures (a + b)[|a|..] == b && a <= a + b && (a != "" ==> (a + b)[0] == a[0])
  {
  }

  /** Every reference written is read back: the character and the length. */
  lemma ReferenceReads(c: char, e: string, rest: string)
    requires (c, e) in [('&', "&amp;"), ('<', "&lt;"), ('>', "&gt;"), ('"', "&quot;"), ('\'', "&apos;"),
                        ('\n', "&#10;"), ('\r', "&#13;"), ('\t', "&#9;")]
    ensures (e + rest)[0] == '&' && Reference(e + rest) == Some((c, |e|)) && (e + rest)[|e|..] == rest
  {
    var s := e + rest;
    Cut(e, rest);
    assert s[1] == e[1] && s[2] == e[2] && s[3] == e[3];
  }

  /** An escaped character is read back as itself; "]]>" cannot appear, since ">" is escaped. */
  lemma TextCharReads(c: char, rest: string)
    requires ValidXmlChar(c) && !("]>" <= rest)
    ensures TextChar(c) != "" && ParseText(TextChar(c) + rest) == Prepend(c, ParseText(rest))
  {
    var s := TextChar(c) + rest;
    if c == '&' || c == '<' || c == '>' || c == '\r' {
      ReferenceReads(c, TextChar(c), rest);
      hide Reference;
      assert ParseText(s) == Prepend(c, ParseText(s[|TextChar(c)|..]));
    } else {
      assert s[0] == c && s[1..] == rest;
      assert |rest| >= 2 ==> s[1] == rest[0] && s[2] == rest[1];
      assert !("]]>" <= s);
    }
  }

  /** What follows character data in a printed document: markup. */
  predicate Markup(s: string) {
    "<" <= s
  }

  /** s neither starts with ">" nor with "]>". */
  predicate NoClose(s: string) {
    s != "" && s[0] != '>' && !("]>" <= s)
  }

  lemma CharKeepsNoClose(c: char, tail: string)
    requires NoClose(tail)
    ensures NoClose(TextChar(c) + tail)
  {
    var head := TextChar(c);
    if head == "" {
      assert head + tail == tail;
    } else {
      Cut(head, tail);
      if |head| == 1 {
        assert (head + tail)[1] == tail[0];
      } else {
        assert head[0] == '&';
      }
    }
  }

  lemma MarkupIsNoClose(rest: string)
    requires Markup(rest)
    ensures NoClose(rest)
  {
  }

  lemma {:induction false} NeverGreater(t: string, rest: string)
    requires Markup(rest)
    ensures NoClose(EscapedText(t) + rest)
  {
    hide TextChar, NoClose;
    if t == "" {
      assert EscapedText(t) + rest == rest;
      MarkupIsNoClose(rest);
    } else {
      NeverGreater(t[1..], rest);
      assert EscapedText(t) + rest == TextChar(t[0]) + (EscapedText(t[1..]) + rest);
      CharKeepsNoClose(t[0], EscapedText(t[1..]) + rest);
    }
  }

  lemma {:induction false} TextReads(t: string, rest: string)
    requires Clean(t) && Markup(rest)
    ensures ParseText(EscapedText(t) + rest) == Some((t, rest))
  {
    hide TextChar;
    if t == "" {
      assert "" + rest == rest;
    } else {
      var tail := EscapedText(t[1..]) + rest;
      assert EscapedText(t) + rest == TextChar(t[0]) + tail;
      assert t[0] in t && forall c :: c in t[1..] ==> c in t;
      NeverGreater(t[1..], rest);
      TextCharReads(t[0], tail);
      TextReads(t[1..], rest);
      assert [t[0]] + t[1..] == t;
    }
  }

  lemma AttrCharReads(c: char, rest: string)
    requires ValidXmlChar(c)
    ensures AttrChar(c) != "" && ParseValue(AttrChar(c) + rest) == Prepend(c, ParseValue(rest))
  {
    var s := AttrChar(c) + rest;
    if c in "&<>\"'\n\r\t" {
      ReferenceReads(c, AttrChar(c), rest);
      hide Reference;
      assert ParseValue(s) == Prepend(c, ParseValue(s[|AttrChar(c)|..]));
    } else {
      assert s[0] == c && s[1..] == rest;
    }
  }

  lemma {:induction false} ValueReads(v: string, rest: string)
    requires Clean(v)
    ensures ParseValue(EscapedAttr(v) + ("\"" + rest)) == Some((v, rest))
  {
    hide AttrChar;
    var close := "\"" + rest;
    if v == "" {
      assert "" + close == close && close[1..] == rest;
    } else {
      var tail := EscapedAttr(v[1..]) + close;
      assert EscapedAttr(v) + close == AttrChar(v[0]) + tail;
      assert v[0] in v && forall c :: c in v[1..] ==> c in v;
      AttrCharReads(v[0], tail);
      ValueReads(v[1..], rest);
      assert [v[0]] + v[1..] == v;
    }
  }

  lemma {:induction false} NameReads(n: string, rest: string)
    requires (forall c :: c in n ==> NameChar(c)) && (rest == "" || !NameChar(rest[0]))
    ensures ParseName(n + rest) == (n, rest)
  {
    if n == "" {
      assert n + rest == rest;
    } else {
      assert (n + rest)[1..] == n[1..] + rest;
      assert n[0] in n && forall c :: c in n[1..] ==> c in n;
      NameReads(n[1..], rest);
      assert [n[0]] + n[1..] == n;
    }
  }

  lemma AttrReads(name: string, value: string, rest: string)
    requires ValidName(name) && Clean(value)
    ensures ParseAttrs(PrintAttr(name, EscapedAttr(value)) + rest)
            == match ParseAttrs(rest)
               case None => None
               case Some((more, end)) => Some(([(name, value)] + more, end))
  {
    hide EscapedAttr, ParseName, ParseValue, NameChar;
    var v := EscapedAttr(value);
    var afterName := "=\"" + (v + ("\"" + rest));
    var s := PrintAttr(name, v) + rest;
    assert s == " " + (name + afterName);
    assert s[1..] == name + afterName;
    NotNameChars();
    NameReads(name, afterName);
    Cut("=\"", v + ("\"" + rest));
    ValueReads(value, rest);
  }

  lemma NotNameChars()
    ensures !NameChar('=') && !NameChar(' ') && !NameChar('>')
  {
  }

  lemma {:induction false} AttrsRead(attrs: seq<(string, string)>, rest: string)
    requires ValidAttrs(attrs) && rest != "" && rest[0] != ' '
    ensures ParseAttrs(PrintAttrs(attrs) + rest) == Some((attrs, rest))
  {
    hide EscapedAttr, PrintAttr;
    if attrs == [] {
      assert "" + rest == rest;
    } else {
      var a := attrs[0];
      assert a in attrs && forall b :: b in attrs[1..] ==> b in attrs;
      var head := PrintAttr(a.0, EscapedAttr(a.1));
      assert PrintAttrs(attrs) + rest == head + (PrintAttrs(attrs[1..]) + rest);
      AttrReads(a.0, a.1, PrintAttrs(attrs[1..]) + rest);
      AttrsRead(attrs[1..], rest);
      assert [(a.0, a.1)] + attrs[1..] == attrs;
    }
  }

  lemma WrapSplits(name: string, attrs: string, content: string, rest: string)
    ensures var close := "</" + name + ">";
            var s := Wrap(name, attrs, content) + rest;
            && s == "<" + (name + (attrs + (">" + (content + (close + rest)))))
            && "<" <= s && !("</" <= s) == !("</" <= "<" + (name + (attrs + (">" + (content + (close + rest))))))
  {
    var close := "</" + name + ">";
    var s := Wrap(name, attrs, content) + rest;
    assert s == "<" + (name + (attrs + (">" + (content + (close + rest)))));
  }

  lemma AttrsStart(attrs: seq<(string, string)>, rest: string)
    requires rest != "" && !NameChar(rest[0])
    ensures PrintAttrs(attrs) + rest != "" && !NameChar((PrintAttrs(attrs) + rest)[0])
  {
    hide EscapedAttr;
    NotNameChars();
    if attrs == [] {
      assert "" + rest == rest;
    } else {
      assert PrintAttrs(attrs)[0] == ' ';
    }
  }

  /** A printed element is read back, given that its content is. */
  lemma WrapReads(name: string, attrs: seq<(string, string)>, kids: seq<Xml>, rest: string)
    requires ValidName(name) && ValidAttrs(attrs)
    requires var close := "</" + name + ">";
             ParseContent(PrintAll(kids) + (close + rest)) == Some((kids, close + rest))
    ensures ParseElement(Wrap(name, PrintAttrs(attrs), PrintAll(kids)) + rest)
            == Some((Element(name, attrs, kids), rest))
  {
    hide ParseContent, PrintAll, PrintAttrs, ParseAttrs, ParseName, NameChar;
    var close := "</" + name + ">";
    var content := PrintAll(kids) + (close + rest);
    var afterName := PrintAttrs(attrs) + (">" + content);
    var s := Wrap(name, PrintAttrs(attrs), PrintAll(kids)) + rest;
    WrapSplits(name, PrintAttrs(attrs), PrintAll(kids), rest);
    assert s == "<" + (name + afterName);
    Cut("<", name + afterName);
    Cut(">", content);
    NotNameChars();
    AttrsStart(attrs, ">" + content);
    NameReads(name, afterName);
    AttrsRead(attrs, ">" + content);
    Cut(close, rest);
  }

  lemma ElementIsMarkup(x: Xml, rest: string)
    requires x.Element? && Canonical(x)
    ensures Markup(Print(x) + rest) && !("</" <= Print(x) + rest)
  {
    hide PrintAll, PrintAttrs;
    var s := Print(x) + rest;
    assert s[0] == '<' && s[1] == x.name[0];
    assert x.name[0] in x.name;
  }

  lemma {:induction false} ElementReads(x: Xml, rest: string)
    requires x.Element? && Canonical(x)
    ensures ParseElement(Print(x) + rest) == Some((x, rest))
    decreases x, 0
  {
    hide ParseElement, ParseContent, PrintAll;
    var close := "</" + x.name + ">";
    ContentReads(x.kids, close + rest);
    WrapReads(x.name, x.attrs, x.kids, rest);
  }

  lemma {:induction false} ContentReads(xs: seq<Xml>, rest: string)
    requires CanonicalAll(xs) && "</" <= rest
    ensures ParseContent(PrintAll(xs) + rest) == Some((xs, rest))
    decreases xs, 1
  {
    hide Print, ParseElement, ParseText, Canonical;
    if xs == [] {
      assert "" + rest == rest;
    } else {
      var x, tail := xs[0], PrintAll(xs[1..]) + rest;
      var s := PrintAll(xs) + rest;
      assert s == Print(x) + tail;
      ContentReads(xs[1..], rest);
      assert [x] + xs[1..] == xs;
      if x.Element? {
        ElementIsMarkup(x, tail);
        ElementReads(x, tail);
      } else {
        MarkupAfterText(xs, rest);
        TextRuns(x, tail);
      }
    }
  }

  /** Text is followed by an element or by the end tag. */
  lemma MarkupAfterText(xs: seq<Xml>, rest: string)
    requires xs != [] && CanonicalAll(xs) && xs[0].Text? && "</" <= rest
    ensures Markup(PrintAll(xs[1..]) + rest)
  {
    hide Print, Canonical;
    if |xs| == 1 {
      assert PrintAll(xs[1..]) + rest == rest;
    } else {
      assert xs[1] == xs[1..][0];
      ElementIsMarkup(xs[1], PrintAll(xs[1..][1..]) + rest);
      assert PrintAll(xs[1..]) + rest == Print(xs[1]) + (PrintAll(xs[1..][1..]) + rest);
    }
  }

  lemma TextRuns(x: Xml, tail: string)
    requires x.Text? && Canonical(x) && Markup(tail)
    ensures var s := Print(x) + tail;
            s != "" && s[0] != '<' && ParseText(s) == Some((x.text, tail)) && x.text != ""
  {
    hide ParseText;
    TextReads(x.text, tail);
    assert x.text[0] in x.text;
    var head := TextChar(x.text[0]);
    assert head != "" && head[0] != '<';
    assert Print(x) + tail == head + (EscapedText(x.text[1..]) + tail);
  }

  /** Every canonical element parses back from its printed form, as a whole document. */
  lemma DocumentReads(x: Xml)
    requires x.Element? && Canonical(x)
    ensures ParseDocument(Print(x)) == Some(x)
  {
    hide Print, ParseElement, Canonical;
    ElementReads(x, "");
    assert Print(x) + "" == Print(x);
  }

  // What is written for each character that is not written as itself (section 4.6 of XML 1.0).

  lemma KnownTextEscapes()
    ensures EscapedText("<&>") == "&lt;&amp;&gt;" && EscapedText("\r") == "&#13;"
    ensures EscapedText("\"'") == "\"'" && EscapedText("\n\t") == "\n\t"
  {
    assert "<&>"[1..] == "&>" && "&>"[1..] == ">" && ">"[1..] == "" && "\r"[1..] == "";
    FastPathIsSlowPath("\"'");
    FastPathIsSlowPath("\n\t");
  }

  lemma KnownMarkupEscapes()
    ensures EscapedAttr("<&>") == "&lt;&amp;&gt;"
  {
    assert "<&>"[1..] == "&>" && "&>"[1..] == ">" && ">"[1..] == "";
  }

  lemma KnownQuoteEscapes()
    ensures EscapedAttr("\"'") == "&quot;&apos;"
  {
    assert "\"'"[1..] == "'" && "'"[1..] == "";
  }

  lemma KnownSpaceEscapes()
    ensures EscapedAttr("\n\r\t") == "&#10;&#13;&#9;"
  {
    assert "\n\r\t"[1..] == "\r\t" && "\r\t"[1..] == "\t" && "\t"[1..] == "";
  }

  /** All but two of the characters from the space on are allowed, and three before it. */
  lemma ForbiddenChars(c: char)
    ensures !ValidXmlChar(c) <==> (c < ' ' && c !in "\t\n\r") || c == '\U{FFFE}' || c == '\U{FFFF}'
  {
  }
}
