/**
 * The NFO sidecar written for an audiobook: HTML escaping of every value and
 * the fixed element order of the document. The metadata is a map from
 * field name to text; a missing field reads as "".
 */
module BookNfo {

  import opened Common
  import opened Text

  /** The characters html.escape leaves alone in attribute-safe text. */
  predicate QuoteSafe(c: char)
  {
    c != '<' && c != '>' && c != '"' && c != '\''
  }

  /** html.escape with quote=True, for one character. */
  function EscapeChar(c: char): (e: string)
    ensures |e| >= 1
    ensures forall i | 0 <= i < |e| :: QuoteSafe(e[i])
    ensures c != '&' && QuoteSafe(c) ==> e == [c]
  {
    if c == '&' then "&amp;"
    else if c == '<' then "&lt;"
    else if c == '>' then "&gt;"
    else if c == '"' then "&quot;"
    else if c == '\'' then "&#x27;"
    else [c]
  }

  /** html.escape(s): each character escaped on its own, so '&' is never escaped twice. */
  function Escape(s: string): (r: string)
    ensures |r| >= |s|
    ensures forall i | 0 <= i < |r| :: QuoteSafe(r[i])
    ensures NoLineBreak(s) ==> NoLineBreak(r)
  {
    if s == [] then []
    else
      var e := EscapeChar(s[0]);
      var rest := Escape(s[1..]);
      assert !IsLineBreak(s[0]) ==> NoLineBreak(e);
      assert NoLineBreak(s) ==> NoLineBreak(s[1..]);
      e + rest
  }

  /** Reference inverse of Escape: decode the five entities it produces, in this order. */
  function Unescape(s: string): (r: string)
    decreases |s|
  {
    if s == [] then []
    else if StartsWith(s, "&amp;") then "&" + Unescape(s[5..])
    else if StartsWith(s, "&lt;") then "<" + Unescape(s[4..])
    else if StartsWith(s, "&gt;") then ">" + Unescape(s[4..])
    else if StartsWith(s, "&quot;") then "\"" + Unescape(s[6..])
    else if StartsWith(s, "&#x27;") then "'" + Unescape(s[6..])
    else [s[0]] + Unescape(s[1..])
  }

  /** An entity the first test does not take is decoded by the test that names it. */
  lemma UnescapeAmp(rest: string)
    ensures Unescape("&amp;" + rest) == "&" + Unescape(rest)
  {
    var s := "&amp;" + rest;
    assert s[..5] == "&amp;" && s[5..] == rest;
  }

  lemma UnescapeLt(rest: string)
    ensures Unescape("&lt;" + rest) == "<" + Unescape(rest)
  {
    var s := "&lt;" + rest;
    assert s[1] == 'l';
    assert !StartsWith(s, "&amp;");
    assert s[..4] == "&lt;" && s[4..] == rest;
  }

  lemma UnescapeGt(rest: string)
    ensures Unescape("&gt;" + rest) == ">" + Unescape(rest)
  {
    var s := "&gt;" + rest;
    assert s[1] == 'g';
    assert !StartsWith(s, "&amp;") && !StartsWith(s, "&lt;");
    assert s[..4] == "&gt;" && s[4..] == rest;
  }

  lemma UnescapeQuot(rest: string)
    ensures Unescape("&quot;" + rest) == "\"" + Unescape(rest)
  {
    var s := "&quot;" + rest;
    assert s[1] == 'q';
    assert !StartsWith(s, "&amp;") && !StartsWith(s, "&lt;") && !StartsWith(s, "&gt;");
    assert s[..6] == "&quot;" && s[6..] == rest;
  }

  lemma UnescapeApos(rest: string)
    ensures Unescape("&#x27;" + rest) == "'" + Unescape(rest)
  {
    var s := "&#x27;" + rest;
    assert s[1] == '#';
    assert !StartsWith(s, "&amp;") && !StartsWith(s, "&lt;") && !StartsWith(s, "&gt;") && !StartsWith(s, "&quot;");
    assert s[..6] == "&#x27;" && s[6..] == rest;
  }

  lemma UnescapeOther(c: char, rest: string)
    requires c != '&'
    ensures Unescape([c] + rest) == [c] + Unescape(rest)
  {
    var s := [c] + rest;
    HeadRulesOut(s, "&amp;");
    HeadRulesOut(s, "&lt;");
    HeadRulesOut(s, "&gt;");
    HeadRulesOut(s, "&quot;");
    HeadRulesOut(s, "&#x27;");
    assert s[1..] == rest;
  }

  /** Unescaping one escaped character and then the rest. */
  lemma UnescapeCons(c: char, rest: string)
    ensures Unescape(EscapeChar(c) + rest) == [c] + Unescape(rest)
  {
    if c == '&' {
      UnescapeAmp(rest);
    } else if c == '<' {
      UnescapeLt(rest);
    } else if c == '>' {
      UnescapeGt(rest);
    } else if c == '"' {
      UnescapeQuot(rest);
    } else if c == '\'' {
      UnescapeApos(rest);
    } else {
      UnescapeOther(c, rest);
    }
  }

  /** Escaping loses nothing: the original text can be recovered. */
  lemma {:induction false} UnescapeEscape(s: string)
    ensures Unescape(Escape(s)) == s
    decreases |s|
  {
    if s != [] {
      UnescapeCons(s[0], Escape(s[1..]));
      UnescapeEscape(s[1..]);
      assert [s[0]] + s[1..] == s;
    }
  }

  /** Text without the escaped characters is written as it is. */
  lemma {:induction false} EscapePlain(s: string)
    requires forall i | 0 <= i < |s| :: s[i] != '&' && QuoteSafe(s[i])
    ensures Escape(s) == s
    decreases |s|
  {
    if s != [] {
      EscapePlain(s[1..]);
      assert [s[0]] + s[1..] == s;
    }
  }

  /** meta.get(k) or "" */
  function Get(meta: map<string, string>, k: string): string
  {
    if k in meta then meta[k] else ""
  }

  /** The helper x(v) of _render_book_nfo: trimmed, then escaped. */
  function X(v: string): string
  {
    Escape(Strip(v))
  }

  /** One line of the document; element values are stored as given and escaped when rendered. */
  datatype Line =
    | XmlDeclLine
    | Open(indent: string, tag: string)
    | Close(indent: string, tag: string)
    | Elem(indent: string, tag: string, value: string)

  const XmlDecl: string := "<?xml version=\"1.0\" encoding=\"UTF-8\" standalone=\"yes\"?>"
  const FieldKeys: seq<string> := ["author", "genre", "year", "summary", "language", "publisher", "sorttitle"]

  /** The text of one line. */
  function Render(l: Line): string
  {
    match l
    case XmlDeclLine => XmlDecl
    case Open(indent, tag) => indent + "<" + tag + ">"
    case Close(indent, tag) => indent + "</" + tag + ">"
    case Elem(indent, tag, value) => indent + "<" + tag + ">" + X(value) + "</" + tag + ">"
  }

  /** One line per key whose (trimmed) value is not blank, in the order of the keys. */
  function FieldLinesOf(keys: seq<string>, value: string -> string): (lines: seq<Line>)
    ensures forall i | 0 <= i < |keys| && value(keys[i]) != [] :: Elem("  ", keys[i], value(keys[i])) in lines
    ensures forall l | l in lines :: l.Elem? && l.indent == "  " && l.tag in keys && l.value == value(l.tag) && l.value != []
  {
    if keys == [] then []
    else
      var rest := FieldLinesOf(keys[1..], value);
      assert forall i | 1 <= i < |keys| :: keys[i] == keys[1..][i - 1];
      assert forall k | k in keys[1..] :: k in keys;
      if value(keys[0]) != [] then [Elem("  ", keys[0], value(keys[0]))] + rest else rest
  }

  /** The lines of the listed metadata fields. */
  function FieldLines(meta: map<string, string>): seq<Line>
  {
    FieldLinesOf(FieldKeys, k => Strip(Get(meta, k)))
  }

  /** The series block: present when the trimmed name or number is not blank. */
  function SeriesLines(sn: string, si: string): (lines: seq<Line>)
    ensures lines == [] <==> sn == [] && si == []
    ensures lines != [] ==> lines[0] == Open("  ", "series") && lines[|lines| - 1] == Close("  ", "series")
    ensures Elem("    ", "name", sn) in lines <==> sn != []
    ensures Elem("    ", "number", si) in lines <==> si != []
  {
    if sn == [] && si == [] then []
    else
      var lines := [Open("  ", "series")]
        + (if sn != [] then [Elem("    ", "name", sn)] else [])
        + (if si != [] then [Elem("    ", "number", si)] else [])
        + [Close("  ", "series")];
      assert sn != [] ==> lines[1] == Elem("    ", "name", sn);
      assert si != [] ==> lines[|lines| - 2] == Elem("    ", "number", si);
      lines
  }

  /**
   * The fixed frame of the document: the XML declaration, the book element
   * opened, the title first and the thumbnail last before the book closes.
   */
  predicate Framed(lines: seq<Line>, title: string, coverName: string)
  {
    && |lines| >= 5
    && lines[0] == XmlDeclLine && lines[1] == Open("", "book") && lines[2] == Elem("  ", "title", title)
    && lines[|lines| - 2] == Elem("  ", "thumb", coverName) && lines[|lines| - 1] == Close("", "book")
  }

  /** The document around its optional parts: declaration, book, title, fields, series, collection, thumb. */
  function Document(title: string, coverName: string, fields: seq<Line>, series: seq<Line>, coll: string): (lines: seq<Line>)
    ensures |lines| == 5 + |fields| + |series| + (if coll != [] then 1 else 0)
    ensures Framed(lines, title, coverName)
  {
    var collection := if coll != [] then [Elem("  ", "collection", coll)] else [];
    [XmlDeclLine, Open("", "book"), Elem("  ", "title", title)] + fields + series + collection
      + [Elem("  ", "thumb", coverName), Close("", "book")]
  }

  /** What the document holds: every field and series line, the collection, and no other opening tag. */
  lemma DocumentContents(title: string, coverName: string, fields: seq<Line>, series: seq<Line>, coll: string)
    ensures var lines := Document(title, coverName, fields, series, coll);
            && (forall l | l in fields :: l in lines)
            && (forall l | l in series :: l in lines)
            && (coll != [] ==> Elem("  ", "collection", coll) in lines)
            && (forall l | l in lines && l.Open? :: l in series || l in fields || l == Open("", "book"))
  {
    var lines := Document(title, coverName, fields, series, coll);
    var collection := if coll != [] then [Elem("  ", "collection", coll)] else [];
    assert lines == [XmlDeclLine, Open("", "book"), Elem("  ", "title", title)] + fields + series + collection
      + [Elem("  ", "thumb", coverName), Close("", "book")];
  }

  /** The lines of _render_book_nfo, in document order. */
  function BookNfoLines(title: string, coverName: string, meta: map<string, string>): (lines: seq<Line>)
    ensures Framed(lines, title, coverName)
  {
    Document(title, coverName, FieldLines(meta), SeriesOf(meta), Strip(Get(meta, "collection")))
  }

  /** Every listed field with a non-blank value gets its element, holding the trimmed value. */
  lemma FieldWritten(title: string, coverName: string, meta: map<string, string>, i: nat)
    requires i < |FieldKeys| && Strip(Get(meta, FieldKeys[i])) != []
    ensures Elem("  ", FieldKeys[i], Strip(Get(meta, FieldKeys[i]))) in BookNfoLines(title, coverName, meta)
  {
    DocumentHasField(title, coverName, FieldKeys, k => Strip(Get(meta, k)), SeriesOf(meta), Strip(Get(meta, "collection")), i);
  }

  lemma DocumentHasField(title: string, coverName: string, keys: seq<string>, value: string -> string,
                         series: seq<Line>, coll: string, i: nat)
    requires i < |keys| && value(keys[i]) != []
    ensures Elem("  ", keys[i], value(keys[i])) in Document(title, coverName, FieldLinesOf(keys, value), series, coll)
  {
    DocumentContents(title, coverName, FieldLinesOf(keys, value), series, coll);
  }

  function SeriesOf(meta: map<string, string>): seq<Line>
  {
    SeriesLines(Strip(Get(meta, "series_name")), Strip(Get(meta, "series_number")))
  }

  /** The series block is written exactly when the series name or number is not blank. */
  lemma SeriesBlockPresent(title: string, coverName: string, meta: map<string, string>)
    ensures Open("  ", "series") in BookNfoLines(title, coverName, meta)
      <==> Strip(Get(meta, "series_name")) != [] || Strip(Get(meta, "series_number")) != []
  {
    var sn := Strip(Get(meta, "series_name"));
    var si := Strip(Get(meta, "series_number"));
    DocumentSeries(title, coverName, FieldLines(meta), sn, si, Strip(Get(meta, "collection")));
  }

  lemma DocumentSeries(title: string, coverName: string, fields: seq<Line>, sn: string, si: string, coll: string)
    requires forall l | l in fields :: l.Elem?
    ensures Open("  ", "series") in Document(title, coverName, fields, SeriesLines(sn, si), coll) <==> sn != [] || si != []
  {
    var series := SeriesLines(sn, si);
    DocumentContents(title, coverName, fields, series, coll);
    if series != [] {
      assert series[0] in series;
    }
  }

  /** The text of every line, in order. */
  function RenderAll(lines: seq<Line>): (texts: seq<string>)
    ensures |texts| == |lines| && forall i | 0 <= i < |lines| :: texts[i] == Render(lines[i])
  {
    seq(|lines|, i requires 0 <= i < |lines| => Render(lines[i]))
  }

  /** _render_book_nfo: the lines joined by newlines, with a final newline. */
  function RenderBookNfo(title: string, coverName: string, meta: map<string, string>): (text: string)
    ensures StartsWith(text, XmlDecl + "\n")
    ensures EndsWith(text, Render(Close("", "book")) + "\n")
  {
    var texts := RenderAll(BookNfoLines(title, coverName, meta));
    JoinHead(texts);
    JoinLast(texts);
    Join(texts, "\n") + "\n"
  }

  lemma JoinHead(lines: seq<string>)
    requires |lines| >= 2
    ensures StartsWith(Join(lines, "\n") + "\n", lines[0] + "\n")
  {
    var t := Join(lines[1..], "\n");
    assert Join(lines, "\n") + "\n" == lines[0] + "\n" + (t + "\n");
  }

  lemma {:induction false} JoinLast(lines: seq<string>)
    requires |lines| >= 1
    ensures EndsWith(Join(lines, "\n") + "\n", lines[|lines| - 1] + "\n")
    decreases |lines|
  {
    if |lines| > 1 {
      JoinLast(lines[1..]);
      var t := Join(lines[1..], "\n") + "\n";
      assert Join(lines, "\n") + "\n" == lines[0] + "\n" + t;
    }
  }
}
