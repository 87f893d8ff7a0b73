/**
 * The summary page generator: the text direction of a value, the guess whether
 * a value is code, the rendering of one value, anchors made from keys, and the
 * page assembled from a JSON object, one table-of-contents link and one section
 * per key.
 */
module SummaryHtml {
  import opened Wrappers
  import opened Text
  import opened Json

  // ---------------------------------------------------------------------------
  // detect_direction

  /** The Unicode Hebrew block, U+0590 to U+05FF. */
  predicate IsHebrewBlock(c: char) {
    '\U{0590}' <= c <= '\U{05FF}'
  }

  function HasHebrew(s: string): (b: bool)
    ensures b <==> exists k :: 0 <= k < |s| && IsHebrewBlock(s[k])
    decreases |s|
  {
    if |s| == 0 then false
    else if IsHebrewBlock(s[0]) then true
    else
      var rest := HasHebrew(s[1..]);
      assert forall k :: 1 <= k < |s| ==> s[k] == s[1..][k - 1];
      rest
  }

  /** `detect_direction`: right-to-left exactly when some character is in the Hebrew block. */
  function DetectDirection(text: string): (d: string)
    ensures d == "rtl" || d == "ltr"
    ensures d == "rtl" <==> exists k :: 0 <= k < |text| && IsHebrewBlock(text[k])
  {
    if HasHebrew(text) then "rtl" else "ltr"
  }

  // ---------------------------------------------------------------------------
  // is_probably_code

  const CodeStarts: seq<string> := ["def ", "import ", "class ", "function "]

  /** A character of the stripped text is a character of the text. */
  lemma InStripped(s: string, c: char)
    requires c in Strip(s)
    ensures c in s
  {
    StripIsSlice(s);
    var i := |s| - |LStrip(s)|;
    var t := Strip(s);
    var k :| 0 <= k < |t| && t[k] == c;
    assert s[i..i + |t|][k] == s[i + k];
  }

  /**
   * `is_probably_code`: the stripped text spans several lines and starts like a
   * Python or JavaScript definition or import, has both braces, or has a semicolon.
   */
  function IsProbablyCode(s: string): (b: bool)
    ensures b ==> '\n' in s
  {
    var t := Strip(s);
    var b := '\n' in t
      && ((exists k :: 0 <= k < |CodeStarts| && StartsWith(t, CodeStarts[k])) || ('{' in t && '}' in t) || ';' in t);
    if b then InStripped(s, '\n'); b else b
  }

  /** Surrounding whitespace does not change the guess. */
  lemma CodeGuessIgnoresPadding(s: string)
    ensures IsProbablyCode(Strip(s)) == IsProbablyCode(s)
  {
    StripIdempotent(s);
  }

  // ---------------------------------------------------------------------------
  // format_value

  const CodeOpen: string := "<pre><code class=\"code-block\">"
  const CodeClose: string := "</code></pre>"

  /** The text `format_value` renders: lists and dicts through `json.dumps` (a parameter here), anything else through `str`. */
  function ValueText(value: Json, dumps: Json -> string): string {
    if value.Arr? || value.Obj? then dumps(value) else PyStr(value)
  }

  /** `format_value`: the stripped text, as a code block when it looks like code and as a paragraph otherwise. */
  function FormatValue(value: Json, dumps: Json -> string): string {
    var t := Strip(ValueText(value, dumps));
    if IsProbablyCode(t) then CodeOpen + t + CodeClose else Paragraph(t)
  }

  function Paragraph(t: string): string {
    "<p dir='" + DetectDirection(t) + "'>" + t + "</p>"
  }

  /** A paragraph is marked right-to-left exactly when its text has a Hebrew character. */
  lemma ParagraphOpening(t: string)
    ensures (exists k :: 0 <= k < |t| && IsHebrewBlock(t[k])) ==> StartsWith(Paragraph(t), "<p dir='rtl'>")
    ensures (forall k :: 0 <= k < |t| ==> !IsHebrewBlock(t[k])) ==> StartsWith(Paragraph(t), "<p dir='ltr'>")
  {
    var s := Paragraph(t);
    assert s[..13] == "<p dir='" + DetectDirection(t) + "'>";
  }

  /** A value whose text has no line break is never taken for code. */
  lemma SingleLineIsNotCode(value: Json, dumps: Json -> string)
    requires '\n' !in ValueText(value, dumps)
    ensures !IsProbablyCode(Strip(ValueText(value, dumps)))
  {
    var text := ValueText(value, dumps);
    if IsProbablyCode(Strip(text)) {
      InStripped(text, '\n');
    }
  }

  /**
   * A value that is not code is rendered as a paragraph of its stripped text,
   * marked right-to-left when that text has a Hebrew character and
   * left-to-right otherwise; a single-line value is always such a paragraph.
   */
  lemma ParagraphDirection(value: Json, dumps: Json -> string)
    requires !IsProbablyCode(Strip(ValueText(value, dumps))) || '\n' !in ValueText(value, dumps)
    ensures var t := Strip(ValueText(value, dumps));
      (exists k :: 0 <= k < |t| && IsHebrewBlock(t[k])) ==> StartsWith(FormatValue(value, dumps), "<p dir='rtl'>")
    ensures var t := Strip(ValueText(value, dumps));
      (forall k :: 0 <= k < |t| ==> !IsHebrewBlock(t[k])) ==> StartsWith(FormatValue(value, dumps), "<p dir='ltr'>")
  {
    if '\n' !in ValueText(value, dumps) {
      SingleLineIsNotCode(value, dumps);
    }
    ParagraphOpening(Strip(ValueText(value, dumps)));
  }

  /** A value that looks like code is rendered as a code block of its stripped text. */
  lemma CodeBlock(value: Json, dumps: Json -> string)
    requires IsProbablyCode(Strip(ValueText(value, dumps)))
    ensures '\n' in ValueText(value, dumps)
    ensures FormatValue(value, dumps) == CodeOpen + Strip(ValueText(value, dumps)) + CodeClose
  {
    InStripped(ValueText(value, dumps), '\n');
  }

  // ---------------------------------------------------------------------------
  // format_list_to_html

  function ListItem(html: string): string {
    "<li>" + html + "</li>"
  }

  /** One list item per value, in order. */
  function ListItems(items: seq<Json>, render: Json -> string): (pieces: seq<string>)
    ensures |pieces| == |items|
    decreases |items|
  {
    if |items| == 0 then [] else ListItems(items[..|items| - 1], render) + [ListItem(render(items[|items| - 1]))]
  }

  /** The items of the list are the rendered values, in order. */
  lemma {:induction false} ListItemsInOrder(items: seq<Json>, render: Json -> string)
    ensures forall k :: 0 <= k < |items| ==> ListItems(items, render)[k] == ListItem(render(items[k]))
    decreases |items|
  {
    if |items| > 0 {
      var init := items[..|items| - 1];
      ListItemsInOrder(init, render);
      forall k | 0 <= k < |init| ensures ListItems(items, render)[k] == ListItem(render(items[k])) {
        assert init[k] == items[k];
      }
    }
  }

  lemma ConcatSnoc(parts: seq<string>, p: string)
    ensures Concat(parts + [p]) == Concat(parts) + p
  {
    assert (parts + [p])[..|parts|] == parts;
  }

  /** Appending a piece to a text that ends in the concatenation of `parts`. */
  lemma AppendPiece(prefix: string, parts: seq<string>, p: string)
    ensures (prefix + Concat(parts)) + p == prefix + Concat(parts + [p])
  {
    ConcatSnoc(parts, p);
  }

  lemma Wrapped(open: string, middle: string, close: string)
    ensures StartsWith(open + middle + close, open) && EndsWith(open + middle + close, close)
  {
    var s := open + middle + close;
    assert s[..|open|] == open;
    assert s[|s| - |close|..] == close;
  }

  lemma ListItemsSnoc(items: seq<Json>, i: nat, render: Json -> string)
    requires i < |items|
    ensures ListItems(items[..i + 1], render) == ListItems(items[..i], render) + [ListItem(render(items[i]))]
  {
    assert items[..i + 1][..i] == items[..i];
  }

  /** `format_value` with `dumps` fixed. */
  function Renderer(dumps: Json -> string): Json -> string {
    v => FormatValue(v, dumps)
  }

  /** `format_list_to_html`: an unordered list with one item per value, in order. */
  method FormatListToHtml(items: seq<Json>, dumps: Json -> string) returns (html: string)
    ensures html == "<ul>" + Concat(ListItems(items, Renderer(dumps))) + "</ul>"
    ensures StartsWith(html, "<ul>") && EndsWith(html, "</ul>")
  {
    ghost var render := Renderer(dumps);
    html := "<ul>";
    var i := 0;
    while i < |items|
      invariant 0 <= i <= |items|
      invariant html == "<ul>" + Concat(ListItems(items[..i], render))
    {
      var item := FormatValue(items[i], dumps);
      assert item == render(items[i]);
      ListItemsSnoc(items, i, render);
      AppendPiece("<ul>", ListItems(items[..i], render), ListItem(item));
      html := html + ("<li>" + item + "</li>");
      i := i + 1;
    }
    assert items[..i] == items;
    html := html + "</ul>";
    Wrapped("<ul>", Concat(ListItems(items, render)), "</ul>");
  }

  // ---------------------------------------------------------------------------
  // sanitize_anchor

  /** The Hebrew letters alef to tav. */
  predicate IsHebrewLetter(c: char) {
    '\U{05D0}' <= c <= '\U{05EA}'
  }

  /** `\w`: letters, digits and the underscore (of the Latin and Hebrew alphabets). */
  predicate IsWordChar(c: char) {
    ('a' <= c <= 'z') || ('A' <= c <= 'Z') || ('0' <= c <= '9') || c == '_' || IsHebrewLetter(c)
  }

  /** `re.sub(r'[^\w\sא-ת]', '', text)`: word characters, whitespace and Hebrew letters stay. */
  function KeepAnchorChars(s: string): (r: string)
    ensures |r| <= |s|
    ensures forall k :: 0 <= k < |r| ==> IsWordChar(r[k]) || IsPySpace(r[k])
    ensures (forall k :: 0 <= k < |s| ==> IsWordChar(s[k])) ==> r == s
    decreases |s|
  {
    if |s| == 0 then ""
    else
      var rest := KeepAnchorChars(s[1..]);
      if IsWordChar(s[0]) || IsPySpace(s[0]) || IsHebrewLetter(s[0]) then [s[0]] + rest else rest
  }

  /** `re.sub(r'\s+', '_', s)`: every run of whitespace becomes one underscore. */
  function CollapseSpaces(s: string): (r: string)
    ensures forall k :: 0 <= k < |r| ==> !IsPySpace(r[k])
    decreases |s|
  {
    if |s| == 0 then ""
    else if IsPySpace(s[0]) then "_" + CollapseSpaces(LStrip(s[1..]))
    else [s[0]] + CollapseSpaces(s[1..])
  }

  /** Collapsing a text of word characters and whitespace leaves only word characters. */
  lemma {:induction false} CollapseKeepsWordChars(s: string)
    requires forall k :: 0 <= k < |s| ==> IsWordChar(s[k]) || IsPySpace(s[k])
    ensures forall k :: 0 <= k < |CollapseSpaces(s)| ==> IsWordChar(CollapseSpaces(s)[k])
    decreases |s|
  {
    if |s| > 0 {
      var tail := s[1..];
      if IsPySpace(s[0]) {
        var t := LStrip(tail);
        forall k | 0 <= k < |t| ensures IsWordChar(t[k]) || IsPySpace(t[k]) {
          assert t[k] == s[1 + |tail| - |t| + k];
        }
        CollapseKeepsWordChars(t);
        WordCharsCons('_', CollapseSpaces(t));
      } else {
        forall k | 0 <= k < |tail| ensures IsWordChar(tail[k]) || IsPySpace(tail[k]) {
          assert tail[k] == s[k + 1];
        }
        CollapseKeepsWordChars(tail);
        WordCharsCons(s[0], CollapseSpaces(tail));
      }
    }
  }

  lemma WordCharsCons(c: char, r: string)
    requires IsWordChar(c) && forall k :: 0 <= k < |r| ==> IsWordChar(r[k])
    ensures forall k :: 0 <= k < |[c] + r| ==> IsWordChar(([c] + r)[k])
  {
  }

  /** A text without whitespace is left as it is. */
  lemma {:induction false} CollapseWithoutSpaces(s: string)
    requires forall k :: 0 <= k < |s| ==> !IsPySpace(s[k])
    ensures CollapseSpaces(s) == s
    decreases |s|
  {
    if |s| > 0 {
      var tail := s[1..];
      assert forall k :: 0 <= k < |tail| ==> tail[k] == s[k + 1];
      CollapseWithoutSpaces(tail);
      assert [s[0]] + tail == s;
    }
  }

  /** `sanitize_anchor`: the key with punctuation removed and whitespace runs turned into underscores. */
  function SanitizeAnchor(text: string): (anchor: string)
    ensures forall k :: 0 <= k < |anchor| ==> IsWordChar(anchor[k]) && !IsPySpace(anchor[k])
  {
    CollapseKeepsWordChars(KeepAnchorChars(text));
    CollapseSpaces(KeepAnchorChars(text))
  }

  /** An anchor is already sanitised. */
  lemma SanitizeIdempotent(text: string)
    ensures SanitizeAnchor(SanitizeAnchor(text)) == SanitizeAnchor(text)
  {
    var a := SanitizeAnchor(text);
    assert KeepAnchorChars(a) == a;
    CollapseWithoutSpaces(a);
  }

  // ---------------------------------------------------------------------------
  // json_to_html

  const TocOpen: string := "<nav><h2>תוכן העניינים</h2><ul>"
  const TocClose: string := "</ul></nav>"
  const BackToTop: string := "<p style=\"text-align:left;\"><a href=\"#top\">חזרה למעלה</a></p></section>"
  const PageEnd: string := "</div></body></html>"
  const LinkStart: string := "<li><a href='#"
  const SectionStart: string := "<section id='"

  function LinkTail(key: string): string {
    "'>" + key + "</a></li>"
  }

  function TocEntry(key: string): string {
    LinkStart + SanitizeAnchor(key) + LinkTail(key)
  }

  function SectionTail(key: string, body: string): string {
    "'><h2>" + key + "</h2>" + body + BackToTop
  }

  function Section(key: string, body: string): string {
    SectionStart + SanitizeAnchor(key) + SectionTail(key, body)
  }

  /** One table-of-contents link per key, in key order. */
  function TocEntries(fields: seq<(string, Json)>): (entries: seq<string>)
    ensures |entries| == |fields|
    decreases |fields|
  {
    if |fields| == 0 then [] else TocEntries(fields[..|fields| - 1]) + [TocEntry(fields[|fields| - 1].0)]
  }

  /** One section per key, in key order. */
  function Sections(fields: seq<(string, Json)>, render: Json -> string): (sections: seq<string>)
    ensures |sections| == |fields|
    decreases |fields|
  {
    if |fields| == 0 then []
    else Sections(fields[..|fields| - 1], render) + [Section(fields[|fields| - 1].0, render(fields[|fields| - 1].1))]
  }

  /** The k-th link belongs to the k-th key. */
  lemma {:induction false} TocInKeyOrder(fields: seq<(string, Json)>, k: nat)
    requires k < |fields|
    ensures TocEntries(fields)[k] == TocEntry(fields[k].0)
    decreases |fields|
  {
    if k < |fields| - 1 {
      var init := fields[..|fields| - 1];
      TocInKeyOrder(init, k);
      assert init[k] == fields[k];
    }
  }

  /** The k-th section belongs to the k-th key and holds its rendered value. */
  lemma {:induction false} SectionsInKeyOrder(fields: seq<(string, Json)>, render: Json -> string, k: nat)
    requires k < |fields|
    ensures Sections(fields, render)[k] == Section(fields[k].0, render(fields[k].1))
    decreases |fields|
  {
    if k < |fields| - 1 {
      var init := fields[..|fields| - 1];
      SectionsInKeyOrder(init, render, k);
      assert init[k] == fields[k];
    }
  }

  lemma EntriesSnoc(fields: seq<(string, Json)>, i: nat, render: Json -> string)
    requires i < |fields|
    ensures TocEntries(fields[..i + 1]) == TocEntries(fields[..i]) + [TocEntry(fields[i].0)]
    ensures Sections(fields[..i + 1], render) == Sections(fields[..i], render) + [Section(fields[i].0, render(fields[i].1))]
  {
    assert fields[..i + 1][..i] == fields[..i];
  }

  /**
   * `json_to_html`: refuses anything but a dict; otherwise the page head (the
   * fixed template, a parameter here), the table of contents, the sections and
   * the closing tags. Writing the file is not part of this model.
   */
  method JsonToHtml(data: Json, head: string, dumps: Json -> string) returns (r: Result<string, PyError>)
    ensures !data.Obj? ==> r == Err(ValueError("Input data must be a dictionary"))
    ensures data.Obj? ==>
      r == Ok(head + ((TocOpen + Concat(TocEntries(data.fields)) + TocClose) + Concat(Sections(data.fields, Renderer(dumps))) + PageEnd))
  {
    if !data.Obj? {
      return Err(ValueError("Input data must be a dictionary"));
    }
    var fields := data.fields;
    ghost var render := Renderer(dumps);
    var toc := TocOpen;
    var sections := "";
    var i := 0;
    while i < |fields|
      invariant 0 <= i <= |fields|
      invariant toc == TocOpen + Concat(TocEntries(fields[..i]))
      invariant sections == Concat(Sections(fields[..i], render))
    {
      var key, value := fields[i].0, fields[i].1;
      var anchor := SanitizeAnchor(key);
      var body := FormatValue(value, dumps);
      assert body == render(value);
      EntriesSnoc(fields, i, render);
      AppendPiece(TocOpen, TocEntries(fields[..i]), TocEntry(key));
      AppendPiece("", Sections(fields[..i], render), Section(key, body));
      toc := toc + (LinkStart + anchor + LinkTail(key));
      var sectionHtml := SectionStart + anchor + SectionTail(key, body);
      sections := sections + sectionHtml;
      i := i + 1;
    }
    assert fields[..i] == fields;
    toc := toc + TocClose;
    r := Ok(head + (toc + sections + PageEnd));
  }

  /** The text of `s` after `prefix` up to the next single quote, if `s` starts with `prefix` and has one. */
  function QuotedAfter(s: string, prefix: string): Option<string> {
    if !StartsWith(s, prefix) then None else UpToQuote(s[|prefix|..])
  }

  function UpToQuote(s: string): (r: Option<string>)
    ensures r.Some? ==> |r.value| < |s| && r.value == s[..|r.value|] && s[|r.value|] == '\'' && '\'' !in r.value
    decreases |s|
  {
    if |s| == 0 then None
    else if s[0] == '\'' then Some("")
    else match UpToQuote(s[1..])
      case None => None
      case Some(rest) => Some([s[0]] + rest)
  }

  lemma {:induction false} UpToQuoteOf(a: string, rest: string)
    requires '\'' !in a && |rest| > 0 && rest[0] == '\''
    ensures UpToQuote(a + rest) == Some(a)
    decreases |a|
  {
    if |a| == 0 {
      assert a + rest == rest;
    } else {
      assert (a + rest)[0] == a[0] && (a + rest)[1..] == a[1..] + rest;
      assert a[0] != '\'' && '\'' !in a[1..];
      UpToQuoteOf(a[1..], rest);
      assert [a[0]] + a[1..] == a;
    }
  }

  /** An anchor has no single quote, so the quoted attribute ends right after it. */
  lemma QuotedAnchor(prefix: string, key: string, tail: string)
    requires |tail| > 0 && tail[0] == '\''
    ensures QuotedAfter(prefix + SanitizeAnchor(key) + tail, prefix) == Some(SanitizeAnchor(key))
  {
    var a := SanitizeAnchor(key);
    var s := prefix + a + tail;
    assert s[..|prefix|] == prefix;
    assert s[|prefix|..] == a + tail;
    assert !IsWordChar('\'');
    UpToQuoteOf(a, tail);
  }

  /**
   * The link of a key in the table of contents and the id of its section name
   * the same anchor, the sanitised key.
   */
  lemma LinkTargetsItsSection(key: string, body: string)
    ensures QuotedAfter(TocEntry(key), LinkStart) == Some(SanitizeAnchor(key))
    ensures QuotedAfter(Section(key, body), SectionStart) == Some(SanitizeAnchor(key))
  {
    QuotedAnchor(LinkStart, key, LinkTail(key));
    QuotedAnchor(SectionStart, key, SectionTail(key, body));
  }
}
