/**
 * The XML the server writes: escaping, printing, and a parser for the subset
 * printed, with the normalisations XML 1.0 asks of a parser.
 */
module Xml {
  import opened Bytes

  /** An element with attributes in order, or a run of character data. */
  datatype Xml =
    | Element(name: string, attrs: seq<(string, string)>, kids: seq<Xml>)
    | Text(text: string)

  /** Section 2.2 of XML 1.0. */
  predicate ValidXmlChar(c: char) {
    c == '\t' || c == '\n' || c == '\r' || ' ' <= c <= '\U{D7FF}' || '\U{E000}' <= c <= '\U{FFFD}' || '\U{10000}' <= c
  }

  predicate Clean(s: string) {
    forall c :: c in s ==> ValidXmlChar(c)
  }

  /** What is left of a string when the runes XML forbids are dropped. */
  function Filter(s: string): (t: string)
    ensures Clean(t)
  {
    if s == "" then "" else (if ValidXmlChar(s[0]) then [s[0]] else "") + Filter(s[1..])
  }

  function TextChar(c: char): string {
    if c == '&' then "&amp;" else if c == '<' then "&lt;" else if c == '>' then "&gt;"
    else if c == '\r' then "&#13;" else if ValidXmlChar(c) then [c] else ""
  }

  function AttrChar(c: char): string {
    if c == '&' then "&amp;" else if c == '<' then "&lt;" else if c == '>' then "&gt;"
    else if c == '"' then "&quot;" else if c == '\'' then "&apos;" else if c == '\n' then "&#10;"
    else if c == '\r' then "&#13;" else if c == '\t' then "&#9;" else if ValidXmlChar(c) then [c] else ""
  }

  function EscapedText(s: string): string {
    if s == "" then "" else TextChar(s[0]) + EscapedText(s[1..])
  }

  function EscapedAttr(s: string): string {
    if s == "" then "" else AttrChar(s[0]) + EscapedAttr(s[1..])
  }

  // The escapers as they run.

  /** Character data that is its own escape. */
  predicate PlainText(c: char) {
    c != '&' && c != '<' && c != '>' && c != '\r' && ValidXmlChar(c)
  }

  method NeedsEscaping(s: string) returns (b: bool)
    ensures b <==> exists i :: 0 <= i < |s| && !PlainText(s[i])
  {
    for i := 0 to |s|
      invariant forall k :: 0 <= k < i ==> PlainText(s[k])
    {
      if s[i] == '&' || s[i] == '<' || s[i] == '>' || s[i] == '\r' || !ValidXmlChar(s[i]) {
        return true;
      }
    }
    return false;
  }

  lemma {:induction false} EscapedTextSnoc(s: string, c: char)
    ensures EscapedText(s + [c]) == EscapedText(s) + TextChar(c)
  {
    hide TextChar;
    if s == "" {
      assert "" + [c] == [c];
      assert EscapedText([c]) == TextChar(c) + EscapedText("");
    } else {
      EscapedTextSnoc(s[1..], c);
      assert (s + [c])[1..] == s[1..] + [c];
    }
  }

  lemma {:induction false} EscapedAttrSnoc(s: string, c: char)
    ensures EscapedAttr(s + [c]) == EscapedAttr(s) + AttrChar(c)
  {
    hide AttrChar;
    if s == "" {
      assert "" + [c] == [c];
      assert EscapedAttr([c]) == AttrChar(c) + EscapedAttr("");
    } else {
      EscapedAttrSnoc(s[1..], c);
      assert (s + [c])[1..] == s[1..] + [c];
    }
  }

  /** Text that needs no escaping is its own escaped form: the fast path loses nothing. */
  lemma {:induction false} FastPathIsSlowPath(s: string)
    requires forall i :: 0 <= i < |s| ==> PlainText(s[i])
    ensures EscapedText(s) == s
  {
    if s != "" {
      FastPathIsSlowPath(s[1..]);
      assert PlainText(s[0]) && s == [s[0]] + s[1..];
    }
  }

  method EscapeText(s: string) returns (out: string)
    ensures out == EscapedText(s)
  {
    var needs := NeedsEscaping(s);
    if !needs {
      FastPathIsSlowPath(s);
      return s;
    }
    out := "";
    for i := 0 to |s|
      invariant out == EscapedText(s[..i])
    {
      assert s[..i + 1] == s[..i] + [s[i]];
      EscapedTextSnoc(s[..i], s[i]);
      match s[i]
      case '&' => out := out + "&amp;";
      case '<' => out := out + "&lt;";
      case '>' => out := out + "&gt;";
      case '\r' => out := out + "&#13;";
      case _ =>
        if ValidXmlChar(s[i]) {
          out := out + [s[i]];
        }
    }
    assert s[..|s|] == s;
  }

  method EscapeAttr(s: string) returns (out: string)
    ensures out == EscapedAttr(s)
  {
    out := "";
    for i := 0 to |s|
      invariant out == EscapedAttr(s[..i])
    {
      assert s[..i + 1] == s[..i] + [s[i]];
      EscapedAttrSnoc(s[..i], s[i]);
      match s[i]
      case '&' => out := out + "&amp;";
      case '<' => out := out + "&lt;";
      case '>' => out := out + "&gt;";
      case '"' => out := out + "&quot;";
      case '\'' => out := out + "&apos;";
      case '\n' => out := out + "&#10;";
      case '\r' => out := out + "&#13;";
      case '\t' => out := out + "&#9;";
      case _ =>
        if ValidXmlChar(s[i]) {
          out := out + [s[i]];
        }
    }
    assert s[..|s|] == s;
  }

  /** Escaping drops exactly the forbidden runes. */
  lemma {:induction false} EscapeFilters(s: string)
    ensures EscapedText(Filter(s)) == EscapedText(s) && EscapedAttr(Filter(s)) == EscapedAttr(s)
  {
    if s != "" {
      EscapeFilters(s[1..]);
      var rest := Filter(s[1..]);
      if ValidXmlChar(s[0]) {
        assert ([s[0]] + rest)[1..] == rest;
      } else {
        assert "" + rest == rest;
      }
    }
  }

  lemma {:induction false} FilterClean(s: string)
    requires Clean(s)
    ensures Filter(s) == s
  {
    if s != "" {
      FilterClean(s[1..]);
      assert s == [s[0]] + s[1..];
    }
  }

  // The parser.

  /** A reference at the start of s: the character it stands for and its length. */
  function Reference(s: string): Option<(char, nat)> {
    if "&amp;" <= s then Some(('&', 5)) else if "&lt;" <= s then Some(('<', 4)) else if "&gt;" <= s then Some(('>', 4))
    else if "&quot;" <= s then Some(('"', 6)) else if "&apos;" <= s then Some(('\'', 6))
    else if "&#10;" <= s then Some(('\n', 5)) else if "&#13;" <= s then Some(('\r', 5))
    else if "&#9;" <= s then Some(('\t', 4)) else None
  }

  predicate NameChar(c: char) {
    'a' <= c <= 'z' || 'A' <= c <= 'Z' || '0' <= c <= '9' || c == ':' || c == '-' || c == '_' || c == '.'
  }

  /** The name a string starts with, and what follows it. */
  function ParseName(s: string): (r: (string, string))
    ensures |r.0| + |r.1| == |s|
  {
    if s != "" && NameChar(s[0]) then
      var (n, rest) := ParseName(s[1..]);
      ([s[0]] + n, rest)
    else ("", s)
  }

  /**
   * Character data up to the next markup: references resolved, line ends
   * normalised (section 2.11 of XML 1.0), "]]>" and forbidden characters refused.
   */
  function ParseText(s: string): (r: Option<(string, string)>)
    ensures r.Some? ==> |r.value.1| <= |s| && (r.value.0 != "" ==> |r.value.1| < |s|)
  {
    if s == "" || s[0] == '<' then Some(("", s))
    else if s[0] == '&' then
      match Reference(s)
      case None => None
      case Some((c, n)) => Prepend(c, ParseText(s[n..]))
    else if "]]>" <= s || !ValidXmlChar(s[0]) then None
    else if s[0] == '\r' then
      Prepend('\n', ParseText(if |s| > 1 && s[1] == '\n' then s[2..] else s[1..]))
    else Prepend(s[0], ParseText(s[1..]))
  }

  function Prepend(c: char, r: Option<(string, string)>): Option<(string, string)> {
    match r case None => None case Some((t, rest)) => Some(([c] + t, rest))
  }

  /**
   * An attribute value up to its closing quote: references resolved, literal
   * white space turned into spaces (section 3.3.3 of XML 1.0), "<" refused.
   */
  function ParseValue(s: string): (r: Option<(string, string)>)
    ensures r.Some? ==> |r.value.1| < |s|
  {
    if s == "" || s[0] == '<' then None
    else if s[0] == '"' then Some(("", s[1..]))
    else if s[0] == '&' then
      match Reference(s)
      case None => None
      case Some((c, n)) => Prepend(c, ParseValue(s[n..]))
    else if !ValidXmlChar(s[0]) then None
    else if s[0] == '\r' then
      Prepend(' ', ParseValue(if |s| > 1 && s[1] == '\n' then s[2..] else s[1..]))
    else Prepend(if s[0] == '\n' || s[0] == '\t' then ' ' else s[0], ParseValue(s[1..]))
  }

  function ParseAttrs(s: string): (r: Option<(seq<(string, string)>, string)>)
    ensures r.Some? ==> |r.value.1| <= |s|
    decreases |s|
  {
    if s == "" || s[0] != ' ' then Some(([], s))
    else
      var (name, rest) := ParseName(s[1..]);
      if name == "" || !("=\"" <= rest) then None
      else
        match ParseValue(rest[2..])
        case None => None
        case Some((value, after)) =>
          match ParseAttrs(after)
          case None => None
          case Some((more, end)) => Some(([(name, value)] + more, end))
  }

  /** An element: start tag, content, and an end tag of the same name. */
  function ParseElement(s: string): (r: Option<(Xml, string)>)
    ensures r.Some? ==> |r.value.1| < |s|
    decreases |s|, 0
  {
    if !("<" <= s) then None
    else
      var (name, afterName) := ParseName(s[1..]);
      match ParseAttrs(afterName)
      case None => None
      case Some((attrs, afterAttrs)) =>
        if name == "" || !(">" <= afterAttrs) then None
        else
          match ParseContent(afterAttrs[1..])
          case None => None
          case Some((kids, end)) =>
            var close := "</" + name + ">";
            if close <= end then Some((Element(name, attrs, kids), end[|close|..])) else None
  }

  /** Elements and character data up to an end tag or the end of input. */
  function ParseContent(s: string): (r: Option<(seq<Xml>, string)>)
    ensures r.Some? ==> |r.value.1| <= |s|
    decreases |s|, 1
  {
    if s == "" || "</" <= s then Some(([], s))
    else if s[0] == '<' then
      match ParseElement(s)
      case None => None
      case Some((x, rest)) =>
        match ParseContent(rest)
        case None => None
        case Some((more, end)) => Some(([x] + more, end))
    else
      match ParseText(s)
      case None => None
      case Some((t, rest)) =>
        if t == "" then None
        else
          match ParseContent(rest)
          case None => None
          case Some((more, end)) => Some(([Text(t)] + more, end))
  }

  /** A whole document: one element and nothing after it. */
  function ParseDocument(s: string): Option<Xml> {
    match ParseElement(s)
    case None => None
    case Some((x, rest)) => if rest == "" then Some(x) else None
  }

  // The printer.

  function PrintAttrs(attrs: seq<(string, string)>): string {
    if attrs == [] then "" else PrintAttr(attrs[0].0, EscapedAttr(attrs[0].1)) + PrintAttrs(attrs[1..])
  }

  function PrintAttr(name: string, escaped: string): string {
    " " + name + "=\"" + escaped + "\""
  }

  function Wrap(name: string, attrs: string, content: string): string {
    "<" + name + attrs + ">" + content + "</" + name + ">"
  }

  function Print(x: Xml): string
    decreases x
  {
    match x
    case Element(name, attrs, kids) => Wrap(name, PrintAttrs(attrs), PrintAll(kids))
    case Text(t) => EscapedText(t)
  }

  function PrintAll(xs: seq<Xml>): string
    decreases xs
  {
    if xs == [] then "" else Print(xs[0]) + PrintAll(xs[1..])
  }

  predicate ValidName(n: string) {
    n != "" && forall c :: c in n ==> NameChar(c)
  }

  predicate ValidAttrs(attrs: seq<(string, string)>) {
    forall a :: a in attrs ==> ValidName(a.0) && Clean(a.1)
  }

  /** A tree a parser could have produced: legal names and characters, no empty or adjacent text. */
  predicate Canonical(x: Xml)
    decreases x
  {
    match x
    case Element(name, attrs, kids) => ValidName(name) && ValidAttrs(attrs) && CanonicalAll(kids)
    case Text(t) => t != "" && Clean(t)
  }

  predicate CanonicalAll(xs: seq<Xml>)
    decreases xs
  {
    xs == []
    || (Canonical(xs[0]) && CanonicalAll(xs[1..]) && (xs[0].Text? && |xs| > 1 ==> xs[1].Element?))
  }
}
