/** Exporting a swing to CodePen: the pen definition built from the swing's
    files and manifest, and the self-submitting form that carries it. */
module CodePen {
  import opened Wrappers
  import opened Strings
  import opened Manifests
  import LanguageProvider
  import Preview
  import Webview

  // ---------------------------------------------------------------------------
  // The form markup

  /** The escaping `getExportMarkup` applies to the JSON text, as written:
      quotes become entities and `&nbsp` is protected, but no other `&` is.
      The result holds no quote, and for text without `&` it is the
      corrected escaping, so only an `&` in the JSON can be misread. */
  function EscapeAsWritten(json: string): (r: string)
    ensures '"' !in r && '\'' !in r
    ensures '&' !in json ==> r == Escape(json)
  {
    var s1 := ReplaceAll(json, "\"", "&quot;");
    var s2 := ReplaceAll(s1, "'", "&apos;");
    ReplaceAllRemoves(json, '"', "&quot;");
    ReplaceAllRemoves(s1, '\'', "&apos;");
    ReplaceAllKeepsAbsent(s1, "'", "&apos;", '"');
    ReplaceAllKeepsAbsent(s2, "&nbsp", "&amp;nbsp", '"');
    ReplaceAllKeepsAbsent(s2, "&nbsp", "&amp;nbsp", '\'');
    assert '&' !in json ==> ReplaceAll(s2, "&nbsp", "&amp;nbsp") == Escape(json) by {
      if '&' !in json {
        ReplaceCharIsMap(json, '"', "&quot;");
        ReplaceCharIsMap(s1, '\'', "&apos;");
        QuoteMapsAreEscape(json);
        EscapeHasNoNbsp(json);
      }
    }
    ReplaceAll(s2, "&nbsp", "&amp;nbsp")
  }

  /** Each occurrence of `c` replaced by `rep`, character by character. */
  function MapChar(s: string, c: char, rep: string): string {
    if |s| == 0 then "" else (if s[0] == c then rep else [s[0]]) + MapChar(s[1..], c, rep)
  }

  lemma MapCharAppend(a: string, b: string, c: char, rep: string)
    ensures MapChar(a + b, c, rep) == MapChar(a, c, rep) + MapChar(b, c, rep)
  {
    if |a| == 0 {
      assert a + b == b;
    } else {
      assert (a + b)[0] == a[0] && (a + b)[1..] == a[1..] + b;
      MapCharAppend(a[1..], b, c, rep);
    }
  }

  lemma MapCharAbsent(s: string, c: char, rep: string)
    requires c !in s
    ensures MapChar(s, c, rep) == s
  {
    if |s| > 0 {
      MapCharAbsent(s[1..], c, rep);
      assert s == [s[0]] + s[1..];
    }
  }

  /** `replace(/c/g, rep)` on a single character is the character map. */
  lemma {:induction false} ReplaceCharIsMap(s: string, c: char, rep: string)
    ensures ReplaceAll(s, [c], rep) == MapChar(s, c, rep)
    decreases |s|
  {
    match IndexOf(s, [c])
    case None =>
      NoOccurrenceNoChar(s, c);
      MapCharAbsent(s, c, rep);
    case Some(i) =>
      FirstOccurrenceOfChar(s, c, i);
      ReplaceCharIsMap(s[i + 1..], c, rep);
      MapCharAbsent(s[..i], c, rep);
      MapCharAround(s[..i], c, s[i + 1..], rep);
      assert s == s[..i] + [c] + s[i + 1..];
  }

  lemma NoOccurrenceNoChar(s: string, c: char)
    requires IndexOf(s, [c]).None?
    ensures c !in s
  {
    forall k | 0 <= k < |s| ensures s[k] != c {
      assert !OccursAt(s, [c], k);
      assert s[k..k + 1] == [s[k]];
    }
  }

  lemma FirstOccurrenceOfChar(s: string, c: char, i: nat)
    requires IndexOf(s, [c]) == Some(i)
    ensures i < |s| && s[i] == c && c !in s[..i]
  {
    assert s[i..i + 1] == [c];
    forall k | 0 <= k < i ensures s[..i][k] != c {
      assert !OccursAt(s, [c], k);
      assert s[k..k + 1] == [s[k]];
    }
  }

  lemma MapCharAround(before: string, c: char, after: string, rep: string)
    ensures MapChar(before + [c] + after, c, rep) == MapChar(before, c, rep) + rep + MapChar(after, c, rep)
  {
    MapCharAppend(before + [c], after, c, rep);
    MapCharAppend(before, [c], c, rep);
    assert MapChar([c], c, rep) == rep + MapChar([], c, rep);
  }

  /** Without `&`, mapping both quotes is the corrected escaping. */
  lemma {:induction false} QuoteMapsAreEscape(json: string)
    requires '&' !in json
    ensures MapChar(MapChar(json, '"', "&quot;"), '\'', "&apos;") == Escape(json)
    decreases |json|
  {
    if |json| > 0 {
      var head := if json[0] == '"' then "&quot;" else [json[0]];
      QuoteMapsAreEscape(json[1..]);
      MapCharAppend(head, MapChar(json[1..], '"', "&quot;"), '\'', "&apos;");
      if json[0] == '"' {
        MapCharAbsent("&quot;", '\'', "&apos;");
      } else {
        assert MapChar(head, '\'', "&apos;") == (if json[0] == '\'' then "&apos;" else [json[0]]) + MapChar([], '\'', "&apos;");
      }
    }
  }

  /** In escaped text no `&` is followed by `n`. */
  predicate AmpersandsNotNbsp(t: string) {
    forall k :: 0 <= k < |t| && t[k] == '&' ==> k + 1 < |t| && t[k + 1] != 'n'
  }

  lemma EscapeHasNoNbsp(json: string)
    ensures IndexOf(Escape(json), "&nbsp").None?
  {
    var t := Escape(json);
    EscapeAmpersands(json);
    forall j | 0 <= j ensures !OccursAt(t, "&nbsp", j) {
      if j + 5 <= |t| {
        assert t[j..j + 5][0] == t[j] && t[j..j + 5][1] == t[j + 1];
      }
    }
  }

  lemma {:induction false} EscapeAmpersands(json: string)
    ensures AmpersandsNotNbsp(Escape(json))
    decreases |json|
  {
    if |json| > 0 {
      EscapeAmpersands(json[1..]);
      var head, rest := EscapeChar(json[0]), Escape(json[1..]);
      var t := head + rest;
      forall k | 0 <= k < |t| && t[k] == '&' ensures k + 1 < |t| && t[k + 1] != 'n' {
        if k >= |head| {
          assert t[k] == rest[k - |head|];
          assert k + 1 < |t| && t[k + 1] == rest[k + 1 - |head|];
        } else {
          assert head[k] == '&';
          assert k == 0 && |head| > 1;
        }
      }
    }
  }

  /** How the browser reads the attribute value back: the character references
      `&quot;`, `&apos;`, `&amp;`, `&lt;` and `&gt;` become their characters;
      any other text is kept. */
  function DecodeEntities(s: string): string
    decreases |s|
  {
    if |s| == 0 then ""
    else if StartsWith(s, "&quot;") then "\"" + DecodeEntities(s[6..])
    else if StartsWith(s, "&apos;") then "'" + DecodeEntities(s[6..])
    else if StartsWith(s, "&amp;") then "&" + DecodeEntities(s[5..])
    else if StartsWith(s, "&lt;") then "<" + DecodeEntities(s[4..])
    else if StartsWith(s, "&gt;") then ">" + DecodeEntities(s[4..])
    else [s[0]] + DecodeEntities(s[1..])
  }

  /** The as-written escaping does not survive decoding: a swing whose markup
      holds the text `&lt;` reaches CodePen as `<`. */
  lemma EscapeAsWrittenLosesEntities()
    ensures EscapeAsWritten("&lt;") == "&lt;"
    ensures DecodeEntities(EscapeAsWritten("&lt;")) == "<"
  {
    var s := "&lt;";
    NoCharNoOccurrence(s, '"');
    NoCharNoOccurrence(s, '\'');
    assert ReplaceAll(s, "\"", "&quot;") == s;
    assert ReplaceAll(s, "'", "&apos;") == s;
    assert IndexOf(s, "&nbsp").None?;
    assert s[4..] == "";
  }

  /** The escape of one character: `&` first, then both quotes. */
  function EscapeChar(c: char): string {
    if c == '&' then "&amp;"
    else if c == '"' then "&quot;"
    else if c == '\'' then "&apos;"
    else [c]
  }

  /** The corrected escaping: every `&` and quote becomes a character reference. */
  function Escape(json: string): (r: string)
    ensures '"' !in r && '\'' !in r
  {
    if |json| == 0 then "" else EscapeChar(json[0]) + Escape(json[1..])
  }

  /** Decoding one escaped character in front of escaped text. */
  lemma DecodeEscapedChar(c: char, rest: string)
    ensures DecodeEntities(EscapeChar(c) + rest) == [c] + DecodeEntities(rest)
  {
    var s := EscapeChar(c) + rest;
    if c == '&' {
      assert s[1] == 'a' && s[2] == 'm';
      assert !StartsWith(s, "&quot;") && !StartsWith(s, "&apos;");
      assert s[..5] == "&amp;" && s[5..] == rest;
    } else if c == '"' {
      assert s[..6] == "&quot;" && s[6..] == rest;
    } else if c == '\'' {
      assert s[1] == 'a';
      assert !StartsWith(s, "&quot;");
      assert s[..6] == "&apos;" && s[6..] == rest;
    } else {
      assert s[0] == c && s[1..] == rest;
      PlainCharDecodes(s);
    }
  }

  /** Text not starting with `&` decodes its first character as itself. */
  lemma PlainCharDecodes(s: string)
    requires |s| > 0 && s[0] != '&'
    ensures DecodeEntities(s) == [s[0]] + DecodeEntities(s[1..])
  {
    assert !StartsWith(s, "&quot;") && !StartsWith(s, "&apos;") && !StartsWith(s, "&amp;");
    assert !StartsWith(s, "&lt;") && !StartsWith(s, "&gt;");
  }

  /** With the corrected escaping the browser reads back exactly the JSON text. */
  lemma {:induction false} EscapeRoundTrip(json: string)
    ensures DecodeEntities(Escape(json)) == json
    decreases |json|
  {
    if |json| > 0 {
      EscapeRoundTrip(json[1..]);
      DecodeEscapedChar(json[0], Escape(json[1..]));
      assert json == [json[0]] + json[1..];
    }
  }

  /** The exported page: a form posting `data` to CodePen, submitted on load.
      `json` is `JSON.stringify` of the pen definition. The value never holds a
      quote, so it cannot end the attribute early; it reads back as the JSON
      whenever the JSON holds no `&`. */
  function ExportMarkup(json: string): (r: string)
    ensures exists value :: r == FormHead + value + FormTail && '"' !in value && '\'' !in value &&
                            ('&' !in json ==> DecodeEntities(value) == json)
  {
    EscapeRoundTrip(json);
    FormHead + EscapeAsWritten(json) + FormTail
  }

  /** The exported page with the corrected escaping: the value always reads
      back as the JSON text. */
  function ExportMarkupIntended(json: string): (r: string)
    ensures exists value :: r == FormHead + value + FormTail && DecodeEntities(value) == json
  {
    EscapeRoundTrip(json);
    FormHead + Escape(json) + FormTail
  }

  const FormHead: string := "<form action=\"https://codepen.io/pen/define\" method=\"POST\">\n<input type=\"hidden\" name=\"data\" value=\""
  const FormTail: string := "\" />\n</form>\n\n<script>\n\n  window.onload = () => {\n      document.querySelector(\"form\").submit();\n  };\n\n</script>\n"

  // ---------------------------------------------------------------------------
  // Library tags in the `scripts` and `styles` files

  /** The literal text before the URL in `SCRIPT_PATTERN` / `STYLE_PATTERN`. */
  function Opening(kind: LibraryType): string {
    match kind
    case ScriptLibraries => "<script src=\""
    case StyleLibraries => "<link href=\""
  }

  /** The literal text after the URL. */
  function Closing(kind: LibraryType): string {
    match kind
    case ScriptLibraries => "\"></script>"
    case StyleLibraries => "\" rel=\"stylesheet\" />"
  }

  /** The tags the preview writes are exactly the shape the export patterns match. */
  lemma TagShape(kind: LibraryType, url: string)
    ensures Webview.Tag(kind, url) == Opening(kind) + url + Closing(kind)
  {
  }

  /** The first index at or after `i` holding a quote, or the end. */
  function QuoteEnd(s: string, i: nat): (r: nat)
    requires i <= |s|
    ensures i <= r <= |s| && (r == |s| || s[r] == '"')
    ensures forall j :: i <= j < r ==> s[j] != '"'
    decreases |s| - i
  {
    if i == |s| || s[i] == '"' then i else QuoteEnd(s, i + 1)
  }

  /** One match: the `url` group and the length of the matched text. */
  datatype UrlMatch = UrlMatch(url: string, length: nat)

  /** The pattern anchored at the start of `s`. The literal parts match ignoring
      case; `[^"]+` is greedy and the closing text starts with a quote, so
      there is no other way to match. */
  function MatchAt(s: string, kind: LibraryType): (r: Option<UrlMatch>)
    ensures r.Some? ==> |r.value.url| > 0 && '"' !in r.value.url
    ensures r.Some? ==> |Opening(kind)| < r.value.length <= |s|
  {
    MatchBetween(s, Opening(kind), Closing(kind))
  }

  /** `open[^"]+close` anchored at the start of `s`, ignoring case. */
  function MatchBetween(s: string, open: string, close: string): (r: Option<UrlMatch>)
    ensures r.Some? ==> |r.value.url| > 0 && '"' !in r.value.url
    ensures r.Some? ==> |open| < r.value.length <= |s|
  {
    if StartsWithIgnoreCase(s, open) then
      var e := QuoteEnd(s, |open|);
      if e > |open| && StartsWithIgnoreCase(s[e..], close) then
        assert forall j :: 0 <= j < e - |open| ==> s[|open|..e][j] == s[|open| + j];
        Some(UrlMatch(s[|open|..e], e + |close|))
      else None
    else None
  }

  /** The leftmost match: its start and the match. */
  function FirstMatch(s: string, kind: LibraryType): (r: Option<(nat, UrlMatch)>)
    ensures r.Some? ==> r.value.0 + r.value.1.length <= |s| && MatchAt(s[r.value.0..], kind) == Some(r.value.1)
    ensures forall j :: 0 <= j <= |s| && (r.None? || j < r.value.0) ==> MatchAt(s[j..], kind).None?
    decreases |s|
  {
    match MatchAt(s, kind)
    case Some(m) => Some((0, m))
    case None =>
      if |s| == 0 then None
      else
        var rest := FirstMatch(s[1..], kind);
        assert forall j :: 1 <= j <= |s| ==> s[j..] == s[1..][j - 1..];
        match rest
        case None => None
        case Some((i, m)) => Some((i + 1, m))
  }

  /** `matchAllUrls`: the `url` group of every match, scanning on from the end
      of the previous match. Matches are never empty, so the loop's
      zero-length guard never fires. */
  function MatchAllUrls(s: string, kind: LibraryType): (r: seq<string>)
    ensures PlainUrls(r)
    ensures |r| == 0 <==> FirstMatch(s, kind).None?
    decreases |s|
  {
    var first := FirstMatch(s, kind);
    if first.None? then []
    else
      var next := NextScanStart(s, kind, first.value.0, first.value.1);
      var rest := MatchAllUrls(s[next..], kind);
      PlainUrlsCons(first.value.1.url, rest);
      [first.value.1.url] + rest
  }

  /** Where scanning resumes after a match: its end, past the match's start. */
  function NextScanStart(s: string, kind: LibraryType, i: nat, m: UrlMatch): (r: nat)
    requires FirstMatch(s, kind) == Some((i, m))
    ensures 0 < r <= |s| && |m.url| > 0 && '"' !in m.url
  {
    assert MatchAt(s[i..], kind) == Some(m);
    i + m.length
  }

  /** Every URL is non-empty and holds no quote. */
  predicate PlainUrls(urls: seq<string>) {
    forall k :: 0 <= k < |urls| ==> |urls[k]| > 0 && '"' !in urls[k]
  }

  lemma PlainUrlsCons(url: string, urls: seq<string>)
    requires |url| > 0 && '"' !in url && PlainUrls(urls)
    ensures PlainUrls([url] + urls)
  {
  }

  /** The tags of a list of URLs, one after another. */
  function Tags(kind: LibraryType, urls: seq<string>): string {
    if |urls| == 0 then "" else Webview.Tag(kind, urls[0]) + Tags(kind, urls[1..])
  }

  /** A tag, followed by anything, matches at its start with its own URL. */
  lemma MatchTag(kind: LibraryType, url: string, rest: string)
    requires |url| > 0 && '"' !in url
    ensures MatchAt(Webview.Tag(kind, url) + rest, kind) == Some(UrlMatch(url, |Webview.Tag(kind, url)|))
  {
    var open, close := Opening(kind), Closing(kind);
    var s := Webview.Tag(kind, url) + rest;
    var e := |open| + |url|;
    TagShape(kind, url);
    TagParts(s, open, url, close, rest, e);
    QuoteEndAt(s, |open|, e);
    MatchAtQuoteEnd(s, open, close, e);
  }

  /** The pieces of a text laid out as opening, URL, closing and the rest. */
  lemma TagParts(s: string, open: string, url: string, close: string, rest: string, e: nat)
    requires s == open + url + close + rest && e == |open| + |url| && |close| > 0
    ensures e < |s| && s[..|open|] == open && s[|open|..e] == url && s[e] == close[0]
    ensures s[e..][..|close|] == close
    ensures forall j :: |open| <= j < e ==> s[j] in url
  {
    assert forall j :: |open| <= j < e ==> s[j] == url[j - |open|];
  }

  /** `QuoteEnd` stops at the first quote. */
  lemma {:induction false} QuoteEndAt(s: string, i: nat, e: nat)
    requires i <= e < |s| && s[e] == '"'
    requires forall j :: i <= j < e ==> s[j] != '"'
    ensures QuoteEnd(s, i) == e
    decreases e - i
  {
    if i < e {
      QuoteEndAt(s, i + 1, e);
    }
  }

  /** The match once the quote ending the URL is known. */
  lemma MatchAtQuoteEnd(s: string, open: string, close: string, e: nat)
    requires |open| < e < |s| && s[..|open|] == open && QuoteEnd(s, |open|) == e
    requires |close| <= |s| - e && s[e..][..|close|] == close
    ensures MatchBetween(s, open, close) == Some(UrlMatch(s[|open|..e], e + |close|))
  {
    ExactPrefixIgnoringCase(s, open);
    ExactPrefixIgnoringCase(s[e..], close);
  }

  /** An exact prefix is a prefix ignoring case. */
  lemma ExactPrefixIgnoringCase(s: string, prefix: string)
    requires |prefix| <= |s| && s[..|prefix|] == prefix
    ensures StartsWithIgnoreCase(s, prefix)
  {
  }

  /** Reading back the URLs from tags written one after another gives the URLs,
      for non-empty URLs without quotes. */
  lemma {:induction false} MatchAllTags(kind: LibraryType, urls: seq<string>)
    requires PlainUrls(urls)
    ensures MatchAllUrls(Tags(kind, urls), kind) == urls
  {
    if |urls| == 0 {
      NothingInEmptyText(kind);
    } else {
      var url, tail := urls[0], urls[1..];
      assert |url| > 0 && '"' !in url && PlainUrls(tail);
      MatchAllTagsStep(kind, urls, url, tail);
      MatchAllTags(kind, tail);
    }
  }

  lemma NothingInEmptyText(kind: LibraryType)
    ensures MatchAllUrls("", kind) == []
  {
    assert FirstMatch("", kind).None?;
  }

  /** One step of reading back the tags of a list. */
  lemma MatchAllTagsStep(kind: LibraryType, urls: seq<string>, url: string, tail: seq<string>)
    requires urls == [url] + tail && |url| > 0 && '"' !in url
    ensures MatchAllUrls(Tags(kind, urls), kind) == [url] + MatchAllUrls(Tags(kind, tail), kind)
  {
    assert urls[0] == url && urls[1..] == tail;
    MatchAllAfterTag(kind, url, Tags(kind, tail));
  }

  /** The first URL read from a tag followed by more text is the tag's URL,
      and reading continues right after the tag. */
  lemma MatchAllAfterTag(kind: LibraryType, url: string, rest: string)
    requires |url| > 0 && '"' !in url
    ensures MatchAllUrls(Webview.Tag(kind, url) + rest, kind) == [url] + MatchAllUrls(rest, kind)
  {
    var s := Webview.Tag(kind, url) + rest;
    var n := |Webview.Tag(kind, url)|;
    MatchTag(kind, url, rest);
    assert FirstMatch(s, kind) == Some((0, UrlMatch(url, n)));
    assert s[0 + n..] == rest;
  }

  // ---------------------------------------------------------------------------
  // The pen definition

  /** `html_pre_processor`: "pug" for a Pug markup file. */
  function HtmlPreProcessor(markupFile: string): (r: string)
    ensures r == "pug" <==> EndsWith(markupFile, ".pug")
    ensures r != "pug" ==> r == "none"
  {
    if EndsWith(markupFile, ".pug") then "pug" else "none"
  }

  /** `js_pre_processor`, from the script file's extension (compared exactly). */
  function JsPreProcessor(scriptFile: string): (r: string)
    ensures r == "babel" <==> ExtName(scriptFile) in {".babel", ".jsx"}
    ensures r == "typescript" <==> ExtName(scriptFile) in {".ts", ".tsx"}
    ensures r in {"babel", "typescript", "none"}
  {
    var ext := ExtName(scriptFile);
    if ext == ".babel" || ext == ".jsx" then "babel"
    else if ext == ".ts" || ext == ".tsx" then "typescript"
    else "none"
  }

  /** `css_pre_processor`, from the stylesheet's extension. */
  function CssPreProcessor(stylesheetFile: string): (r: string)
    ensures ExtName(stylesheetFile) in {".scss", ".sass", ".less"} ==> r == ExtName(stylesheetFile)[1..]
    ensures ExtName(stylesheetFile) !in {".scss", ".sass", ".less"} ==> r == "none"
  {
    var ext := ExtName(stylesheetFile);
    if ext == ".scss" then "scss"
    else if ext == ".sass" then "sass"
    else if ext == ".less" then "less"
    else "none"
  }

  /** `resolveLibraries` of the export: one entry per library, in order; a URL
      as it is, a name as the registry's latest URL, an unknown name as "". */
  function ResolveLibraries(libraries: seq<string>, isUrl: string -> bool, latest: string -> Option<string>): (r: seq<string>)
    ensures |r| == |libraries|
    ensures forall k :: 0 <= k < |r| && isUrl(libraries[k]) ==> r[k] == libraries[k]
    ensures forall k :: 0 <= k < |r| && !isUrl(libraries[k]) ==> r[k] == latest(libraries[k]).GetOr("")
  {
    seq(|libraries|, k requires 0 <= k < |libraries| => if isUrl(libraries[k]) then libraries[k] else latest(libraries[k]).GetOr(""))
  }

  /** `js_external` / `css_external`: set only for a non-empty list, `;`-joined. */
  function External(list: seq<string>): (r: Option<string>)
    ensures r.None? <==> |list| == 0
  {
    if |list| > 0 then Some(Join(list, ";")) else None
  }

  /** CodePen splits an external list on `;` and gets the entries back, as
      long as none of them contains `;`. */
  lemma ExternalRoundTrip(list: seq<string>)
    requires |list| > 0 && forall k :: 0 <= k < |list| ==> ';' !in list[k]
    ensures Split(External(list).value, ";") == list
  {
    SplitJoin(list, ';');
  }

  datatype Pen = Pen(
    title: string,
    description: string,
    html: Option<string>,
    htmlPreProcessor: Option<string>,
    css: Option<string>,
    cssPreProcessor: Option<string>,
    js: Option<string>,
    jsPreProcessor: Option<string>,
    cssExternal: Option<string>,
    jsExternal: Option<string>,
    tags: seq<string>)

  /** The swing directory as the export sees it: its path, its listing and
      the contents of each file in it. */
  datatype Swing = Swing(path: string, files: seq<string>, contents: string -> string)

  /** The URLs of the tags in the `scripts` / `styles` file, if listed. */
  function TagFileUrls(swing: Swing, name: string, kind: LibraryType): seq<string> {
    if name in swing.files then MatchAllUrls(swing.contents(name), kind) else []
  }

  /** The manifest, when there is a non-empty one: `None` for an empty or
      absent file, an error for text that does not parse. */
  function ExportManifest(swing: Swing, parse: Parser): (r: Outcome<Option<Manifest>>)
    ensures r.Failure? <==> Preview.SwingFile in swing.files && swing.contents(Preview.SwingFile) != ""
                            && parse(swing.contents(Preview.SwingFile)).None?
    ensures r.Success? && r.value.Some? ==> r.value == parse(swing.contents(Preview.SwingFile))
  {
    if Preview.SwingFile in swing.files && swing.contents(Preview.SwingFile) != "" then
      match parse(swing.contents(Preview.SwingFile))
      case None => Failure(InvalidManifest)
      case Some(m) => Success(Some(m))
    else Success(None)
  }

  const InvalidManifest: string := "The swing's manifest file appears to be invalid. Please check it and try again."

  /** A manifest list only counts when present and non-empty. */
  function NonEmptyList(list: Option<seq<string>>): seq<string> {
    if list.Some? then list.value else []
  }

  /** The React upgrade: a plain script becomes Babel when the manifest
      lists `react`. With no script file there is nothing to upgrade. */
  function WithReact(jsPreProcessor: Option<string>, manifestScripts: seq<string>): (r: Option<string>)
    ensures "react" in manifestScripts && jsPreProcessor == Some("none") ==> r == Some("babel")
    ensures !("react" in manifestScripts && jsPreProcessor == Some("none")) ==> r == jsPreProcessor
    ensures r.Some? <==> jsPreProcessor.Some?
  {
    if "react" in manifestScripts && jsPreProcessor == Some("none") then Some("babel") else jsPreProcessor
  }

  /** The pen for the chosen markup, script and stylesheet files and the
      (non-empty, parsed) manifest, if any. */
  function BuildPen(title: string, markup: Option<string>, script: Option<string>, stylesheet: Option<string>,
                    swing: Swing, manifest: Option<Manifest>, isUrl: string -> bool, latest: string -> Option<string>): (r: Pen)
    ensures r.title == title && r.description == title && r.tags == ["codeswing"]
    ensures r.html.Some? <==> markup.Some?
    ensures r.js.Some? <==> script.Some?
    ensures r.css.Some? <==> stylesheet.Some?
    ensures r.jsPreProcessor.Some? <==> script.Some?
    ensures markup.Some? ==> r.html == Some(swing.contents(markup.value)) && r.htmlPreProcessor == Some(HtmlPreProcessor(markup.value))
    ensures markup.None? ==> r.htmlPreProcessor.None?
    ensures stylesheet.Some? ==> r.css == Some(swing.contents(stylesheet.value)) && r.cssPreProcessor == Some(CssPreProcessor(stylesheet.value))
    ensures stylesheet.None? ==> r.cssPreProcessor.None?
    ensures script.Some? ==> r.js == Some(swing.contents(script.value))
    ensures script.Some? && (manifest.None? || manifest.value.scripts.None? || "react" !in manifest.value.scripts.value) ==>
              r.jsPreProcessor == Some(JsPreProcessor(script.value))
    ensures script.Some? && manifest.Some? && manifest.value.scripts.Some? && "react" in manifest.value.scripts.value ==>
              r.jsPreProcessor == Some(if JsPreProcessor(script.value) == "none" then "babel" else JsPreProcessor(script.value))
    ensures manifest.None? ==> r.jsExternal == External(TagFileUrls(swing, "scripts", ScriptLibraries))
    ensures manifest.None? ==> r.cssExternal == External(TagFileUrls(swing, "styles", StyleLibraries))
    ensures manifest.Some? ==>
              r.jsExternal == External(TagFileUrls(swing, "scripts", ScriptLibraries) + ResolveLibraries(NonEmptyList(manifest.value.scripts), isUrl, latest))
    ensures manifest.Some? ==>
              r.cssExternal == External(TagFileUrls(swing, "styles", StyleLibraries) + ResolveLibraries(NonEmptyList(manifest.value.styles), isUrl, latest))
  {
    var manifestScripts := if manifest.Some? then NonEmptyList(manifest.value.scripts) else [];
    var manifestStyles := if manifest.Some? then NonEmptyList(manifest.value.styles) else [];
    var jsPreProcessor := if script.Some? then Some(JsPreProcessor(script.value)) else None;
    Pen(
      title, title,
      if markup.Some? then Some(swing.contents(markup.value)) else None,
      if markup.Some? then Some(HtmlPreProcessor(markup.value)) else None,
      if stylesheet.Some? then Some(swing.contents(stylesheet.value)) else None,
      if stylesheet.Some? then Some(CssPreProcessor(stylesheet.value)) else None,
      if script.Some? then Some(swing.contents(script.value)) else None,
      WithReact(jsPreProcessor, manifestScripts),
      ExternalOf(swing, "styles", StyleLibraries, manifestStyles, isUrl, latest),
      ExternalOf(swing, "scripts", ScriptLibraries, manifestScripts, isUrl, latest),
      ["codeswing"])
  }

  /** One external list: the URLs in the swing's own library file, then the
      manifest's libraries resolved. */
  function ExternalOf(swing: Swing, name: string, kind: LibraryType, libraries: seq<string>,
                      isUrl: string -> bool, latest: string -> Option<string>): (r: Option<string>)
    ensures libraries == [] ==> r == External(TagFileUrls(swing, name, kind))
    ensures r == External(TagFileUrls(swing, name, kind) + ResolveLibraries(libraries, isUrl, latest))
  {
    var urls := TagFileUrls(swing, name, kind) + ResolveLibraries(libraries, isUrl, latest);
    assert libraries == [] ==> urls == TagFileUrls(swing, name, kind);
    External(urls)
  }

  /** `exportSwingToCodePen`: the pen definition, or the error for an invalid
      manifest. */
  function ExportPen(registry: LanguageProvider.Registry, swing: Swing, parse: Parser,
                     isUrl: string -> bool, latest: string -> Option<string>): (r: Outcome<Pen>)
    ensures r.Failure? <==> ExportManifest(swing, parse).Failure?
    ensures r.Success? ==> r.value.title == BaseName(swing.path) && r.value.description == r.value.title
    ensures r.Success? ==> r.value.tags == ["codeswing"]
    ensures r.Success? ==> (r.value.html.Some? <==> Preview.FileOfType(registry, swing.files, Preview.MarkupFile).Some?)
    ensures r.Success? ==> (r.value.js.Some? <==> Preview.FileOfType(registry, swing.files, Preview.ScriptFile).Some?)
    ensures r.Success? ==> (r.value.css.Some? <==> Preview.FileOfType(registry, swing.files, Preview.StylesheetFile).Some?)
    ensures r.Success? ==> (r.value.jsPreProcessor.Some? <==> r.value.js.Some?)
    ensures r.Success? && ExportManifest(swing, parse) == Success(None) ==>
              r.value.jsExternal == External(TagFileUrls(swing, "scripts", ScriptLibraries)) &&
              r.value.cssExternal == External(TagFileUrls(swing, "styles", StyleLibraries))
    ensures r.Success? && ExportManifest(swing, parse).value.Some? ==>
              var m := ExportManifest(swing, parse).value.value;
              r.value.jsExternal == External(TagFileUrls(swing, "scripts", ScriptLibraries) + ResolveLibraries(NonEmptyList(m.scripts), isUrl, latest)) &&
              r.value.cssExternal == External(TagFileUrls(swing, "styles", StyleLibraries) + ResolveLibraries(NonEmptyList(m.styles), isUrl, latest))
    ensures r.Success? ==> r.value == BuildPen(BaseName(swing.path),
                                               Preview.FileOfType(registry, swing.files, Preview.MarkupFile),
                                               Preview.FileOfType(registry, swing.files, Preview.ScriptFile),
                                               Preview.FileOfType(registry, swing.files, Preview.StylesheetFile),
                                               swing, ExportManifest(swing, parse).value, isUrl, latest)
  {
    var manifest :- ExportManifest(swing, parse);
    Success(BuildPen(BaseName(swing.path),
                     Preview.FileOfType(registry, swing.files, Preview.MarkupFile),
                     Preview.FileOfType(registry, swing.files, Preview.ScriptFile),
                     Preview.FileOfType(registry, swing.files, Preview.StylesheetFile),
                     swing, manifest, isUrl, latest))
  }

  /** A swing imported with its libraries as a `scripts` file of tags, and no
      manifest, exports those libraries as its external scripts. */
  lemma ScriptTagsExported(registry: LanguageProvider.Registry, swing: Swing, parse: Parser,
                           isUrl: string -> bool, latest: string -> Option<string>, urls: seq<string>)
    requires Preview.SwingFile !in swing.files && "scripts" in swing.files
    requires swing.contents("scripts") == Tags(ScriptLibraries, urls)
    requires |urls| > 0 && forall k :: 0 <= k < |urls| ==> |urls[k]| > 0 && '"' !in urls[k] && ';' !in urls[k]
    ensures var r := ExportPen(registry, swing, parse, isUrl, latest);
            r.Success? && r.value.jsExternal.Some? && Split(r.value.jsExternal.value, ";") == urls
  {
    assert ExportManifest(swing, parse) == Success(None);
    var r := ExportPen(registry, swing, parse, isUrl, latest);
    MatchAllTags(ScriptLibraries, urls);
    assert TagFileUrls(swing, "scripts", ScriptLibraries) == urls;
    assert r.value.jsExternal == External(urls);
    ExternalRoundTrip(urls);
  }

  /** A swing with no `scripts` file whose manifest lists script URLs only
      exports exactly those URLs, in order, as its external scripts. */
  lemma ManifestScriptsExported(registry: LanguageProvider.Registry, swing: Swing, parse: Parser,
                                isUrl: string -> bool, latest: string -> Option<string>, m: Manifest)
    requires Preview.SwingFile in swing.files && swing.contents(Preview.SwingFile) != ""
    requires parse(swing.contents(Preview.SwingFile)) == Some(m)
    requires "scripts" !in swing.files && m.scripts.Some? && |m.scripts.value| > 0
    requires forall k :: 0 <= k < |m.scripts.value| ==> isUrl(m.scripts.value[k]) && ';' !in m.scripts.value[k]
    ensures var r := ExportPen(registry, swing, parse, isUrl, latest);
            r.Success? && r.value.jsExternal.Some? && Split(r.value.jsExternal.value, ";") == m.scripts.value
  {
    var list := TagFileUrls(swing, "scripts", ScriptLibraries) + ResolveLibraries(m.scripts.value, isUrl, latest);
    assert list == m.scripts.value;
    ExternalRoundTrip(list);
  }

  /** A manifest listing `react` turns a plain script into Babel, but a swing
      with no script file keeps no pre-processor at all. */
  lemma ReactUpgradesPlainScript(registry: LanguageProvider.Registry, swing: Swing, parse: Parser,
                                 isUrl: string -> bool, latest: string -> Option<string>, m: Manifest)
    requires Preview.SwingFile in swing.files && swing.contents(Preview.SwingFile) != ""
    requires parse(swing.contents(Preview.SwingFile)) == Some(m)
    requires m.scripts.Some? && "react" in m.scripts.value
    ensures var r := ExportPen(registry, swing, parse, isUrl, latest);
            var script := Preview.FileOfType(registry, swing.files, Preview.ScriptFile);
            r.Success? &&
            (script.Some? && JsPreProcessor(script.value) == "none" ==> r.value.jsPreProcessor == Some("babel")) &&
            (script.None? ==> r.value.jsPreProcessor.None?)
  {
  }
}
