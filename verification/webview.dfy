/** The preview assembler (`SwingWebView`): the compiled parts of the swing it
    holds, the update operations that store a part and then either do nothing
    more, post an incremental message, or rebuild the whole preview document,
    and the values a rebuild computes. The document text itself is not modelled:
    a rebuild is recorded as the `Page` of values it would render. */
module Webview {
  import opened Wrappers
  import opened Strings
  import opened Manifests
  import opened Tools
  import Script
  import TutorialStorage

  /** The incremental messages the assembler posts to the renderer. */
  datatype Message = CssMessage(css: string) | InputMessage(input: string)

  /** The tutorial navigation bar: whether each button is disabled. */
  datatype Navigation = Navigation(current: int, total: nat, backDisabled: bool, forwardDisabled: bool)

  /** The values one rebuild renders into the preview document. */
  datatype Page = Page(
    scripts: string,
    styles: string,
    scriptType: string,
    header: string,
    footer: string,
    themed: bool,
    navigation: Option<Navigation>,
    css: string,
    html: string,
    javascript: string,
    config: string,
    input: string)

  /** What reaches the renderer, in order. */
  datatype Event = Rebuilt(page: Page) | Posted(message: Message)

  /** The assembler's fields; `log` records every rebuild and post. */
  datatype State = State(
    css: string,
    html: string,
    javascript: string,
    isJavaScriptModule: bool,
    manifest: Option<Manifest>,
    readme: string,
    config: string,
    input: string,
    codePenScripts: string,
    codePenStyles: string,
    totalTutorialSteps: Option<nat>,
    log: seq<Event>)

  /** The surroundings a rebuild consults: the `readmeBehavior` and
      `themePreview` settings ("" and `false` when unset), the `URI_PATTERN`
      test, the CDN registry's latest URL per library name, and the active
      tutorial's stored step. */
  datatype Env = Env(
    readmeBehavior: string,
    themePreview: bool,
    isUrl: string -> bool,
    latest: string -> Option<string>,
    currentStep: int)

  /** The constructor: every part empty, no manifest, nothing rendered yet. */
  function Initial(codePenScripts: string, codePenStyles: string, totalTutorialSteps: Option<nat>): (r: State)
    ensures r.log == [] && r.manifest.None? && !r.isJavaScriptModule
    ensures r.css == "" && r.html == "" && r.javascript == "" && r.readme == "" && r.config == "" && r.input == ""
  {
    State("", "", "", false, None, "", "", "", codePenScripts, codePenStyles, totalTutorialSteps, [])
  }

  // ---------------------------------------------------------------------------
  // What the renderer currently shows

  /** The number of rebuilds in a log. */
  function Rebuilds(log: seq<Event>): nat {
    if |log| == 0 then 0 else Rebuilds(log[..|log| - 1]) + (if log[|log| - 1].Rebuilt? then 1 else 0)
  }

  /** The stylesheet the renderer applies: the last `updateCSS` message or the
      last rebuilt page, whichever came later. */
  function RenderedCss(log: seq<Event>): Option<string> {
    if |log| == 0 then None
    else match log[|log| - 1]
      case Rebuilt(page) => Some(page.css)
      case Posted(CssMessage(css)) => Some(css)
      case Posted(InputMessage(_)) => RenderedCss(log[..|log| - 1])
  }

  /** The input the renderer last received, by message or in a rebuilt page. */
  function RenderedInput(log: seq<Event>): Option<string> {
    if |log| == 0 then None
    else match log[|log| - 1]
      case Rebuilt(page) => Some(page.input)
      case Posted(InputMessage(input)) => Some(input)
      case Posted(CssMessage(_)) => RenderedInput(log[..|log| - 1])
  }

  /** The last page rebuilt, if any. */
  function LastPage(log: seq<Event>): Option<Page> {
    if |log| == 0 then None
    else if log[|log| - 1].Rebuilt? then Some(log[|log| - 1].page)
    else LastPage(log[..|log| - 1])
  }

  // ---------------------------------------------------------------------------
  // Values computed by a rebuild

  /** One library tag. */
  function Tag(kind: LibraryType, url: string): string {
    match kind
    case StyleLibraries => "<link href=\"" + url + "\" rel=\"stylesheet\" />"
    case ScriptLibraries => "<script src=\"" + url + "\"></script>"
  }

  /** The tags of the non-blank entries that are URLs, in list order. */
  function UrlTags(kind: LibraryType, entries: seq<string>, isUrl: string -> bool): string {
    if |entries| == 0 then ""
    else (if !IsBlank(entries[0]) && isUrl(entries[0]) then Tag(kind, entries[0]) else "")
         + UrlTags(kind, entries[1..], isUrl)
  }

  /** The tags of the non-blank, non-URL entries the registry knows, in list order. */
  function NameTags(kind: LibraryType, entries: seq<string>, isUrl: string -> bool, latest: string -> Option<string>): string {
    if |entries| == 0 then ""
    else (if !IsBlank(entries[0]) && !isUrl(entries[0]) && latest(entries[0]).Some?
          then Tag(kind, latest(entries[0]).value) else "")
         + NameTags(kind, entries[1..], isUrl, latest)
  }

  /** `resolveLibraries`: the CodePen prefix followed by a tag per usable entry.
      URL entries are appended synchronously while the list is mapped; named
      entries only after awaiting the registry, so all URL tags precede all
      registry tags. */
  function ResolveLibraries(prefix: string, manifest: Option<Manifest>, kind: LibraryType,
                            isUrl: string -> bool, latest: string -> Option<string>): (r: string)
    ensures manifest.None? || Libraries(manifest.value, kind).None? ==> r == prefix
    ensures manifest.Some? && Libraries(manifest.value, kind).Some? ==>
              var entries := Libraries(manifest.value, kind).value;
              r == prefix + Tags(kind, UrlEntries(entries, isUrl)) + Tags(kind, KnownLatest(entries, isUrl, latest))
  {
    match manifest
    case None => prefix
    case Some(m) =>
      match Libraries(m, kind)
      case None => prefix
      case Some(entries) =>
        UrlTagsAre(kind, entries, isUrl);
        NameTagsAre(kind, entries, isUrl, latest);
        prefix + UrlTags(kind, entries, isUrl) + NameTags(kind, entries, isUrl, latest)
  }

  // The same tags described list-wise: the usable URL entries and the
  // registry URLs of the usable names, each turned into tags in order.

  predicate UsableUrl(entry: string, isUrl: string -> bool) {
    !IsBlank(entry) && isUrl(entry)
  }

  predicate UsableName(entry: string, isUrl: string -> bool, latest: string -> Option<string>) {
    !IsBlank(entry) && !isUrl(entry) && latest(entry).Some?
  }

  /** The entries emitted as given, in list order. */
  function UrlEntries(entries: seq<string>, isUrl: string -> bool): (r: seq<string>)
    ensures forall i :: 0 <= i < |r| ==> UsableUrl(r[i], isUrl)
  {
    if |entries| == 0 then []
    else (if UsableUrl(entries[0], isUrl) then [entries[0]] else []) + UrlEntries(entries[1..], isUrl)
  }

  /** The registry URLs of the entries looked up by name, in list order. */
  function KnownLatest(entries: seq<string>, isUrl: string -> bool, latest: string -> Option<string>): (r: seq<string>)
    ensures |r| <= |entries|
  {
    if |entries| == 0 then []
    else (if UsableName(entries[0], isUrl, latest) then [latest(entries[0]).value] else [])
         + KnownLatest(entries[1..], isUrl, latest)
  }

  /** The tags of a list of URLs, concatenated. */
  function Tags(kind: LibraryType, urls: seq<string>): string {
    if |urls| == 0 then "" else Tag(kind, urls[0]) + Tags(kind, urls[1..])
  }

  lemma TagsAppend(kind: LibraryType, a: seq<string>, b: seq<string>)
    ensures Tags(kind, a + b) == Tags(kind, a) + Tags(kind, b)
  {
    if |a| > 0 {
      assert (a + b)[0] == a[0] && (a + b)[1..] == a[1..] + b;
      TagsAppend(kind, a[1..], b);
    } else {
      assert a + b == b;
    }
  }

  lemma {:induction false} UrlTagsAre(kind: LibraryType, entries: seq<string>, isUrl: string -> bool)
    ensures UrlTags(kind, entries, isUrl) == Tags(kind, UrlEntries(entries, isUrl))
  {
    if |entries| > 0 {
      var head := if UsableUrl(entries[0], isUrl) then [entries[0]] else [];
      UrlTagsAre(kind, entries[1..], isUrl);
      TagsAppend(kind, head, UrlEntries(entries[1..], isUrl));
      assert head == [] || head[1..] == [];
    }
  }

  lemma {:induction false} NameTagsAre(kind: LibraryType, entries: seq<string>, isUrl: string -> bool, latest: string -> Option<string>)
    ensures NameTags(kind, entries, isUrl, latest) == Tags(kind, KnownLatest(entries, isUrl, latest))
  {
    if |entries| > 0 {
      var head := if UsableName(entries[0], isUrl, latest) then [latest(entries[0]).value] else [];
      NameTagsAre(kind, entries[1..], isUrl, latest);
      TagsAppend(kind, head, KnownLatest(entries[1..], isUrl, latest));
      assert head == [] || head[1..] == [];
    }
  }

  lemma UrlEntriesAppend(a: seq<string>, b: seq<string>, isUrl: string -> bool)
    ensures UrlEntries(a + b, isUrl) == UrlEntries(a, isUrl) + UrlEntries(b, isUrl)
  {
    if |a| > 0 {
      assert (a + b)[0] == a[0] && (a + b)[1..] == a[1..] + b;
      UrlEntriesAppend(a[1..], b, isUrl);
      var head := if UsableUrl(a[0], isUrl) then [a[0]] else [];
      assert head + (UrlEntries(a[1..], isUrl) + UrlEntries(b, isUrl)) == (head + UrlEntries(a[1..], isUrl)) + UrlEntries(b, isUrl);
    } else {
      assert a + b == b;
    }
  }

  lemma KnownLatestAppend(a: seq<string>, b: seq<string>, isUrl: string -> bool, latest: string -> Option<string>)
    ensures KnownLatest(a + b, isUrl, latest) == KnownLatest(a, isUrl, latest) + KnownLatest(b, isUrl, latest)
  {
    if |a| > 0 {
      assert (a + b)[0] == a[0] && (a + b)[1..] == a[1..] + b;
      KnownLatestAppend(a[1..], b, isUrl, latest);
      var head := if UsableName(a[0], isUrl, latest) then [latest(a[0]).value] else [];
      assert head + (KnownLatest(a[1..], isUrl, latest) + KnownLatest(b, isUrl, latest)) == (head + KnownLatest(a[1..], isUrl, latest)) + KnownLatest(b, isUrl, latest);
    } else {
      assert a + b == b;
    }
  }

  /** Entries that are blank, or neither URLs nor known names, add nothing. */
  lemma {:induction false} UnusableEntriesAddNothing(kind: LibraryType, entries: seq<string>, isUrl: string -> bool, latest: string -> Option<string>)
    requires forall i :: 0 <= i < |entries| ==> IsBlank(entries[i]) || (!isUrl(entries[i]) && latest(entries[i]).None?)
    ensures UrlTags(kind, entries, isUrl) == "" && NameTags(kind, entries, isUrl, latest) == ""
  {
    if |entries| > 0 {
      UnusableEntriesAddNothing(kind, entries[1..], isUrl, latest);
    }
  }

  /** A list of URLs is emitted verbatim, one tag per URL in list order. */
  lemma {:induction false} UrlEmittedVerbatim(prefix: string, m: Manifest, kind: LibraryType, urls: seq<string>,
                                              isUrl: string -> bool, latest: string -> Option<string>)
    requires Libraries(m, kind) == Some(urls)
    requires forall i :: 0 <= i < |urls| ==> UsableUrl(urls[i], isUrl)
    ensures ResolveLibraries(prefix, Some(m), kind, isUrl, latest) == prefix + Tags(kind, urls)
  {
    AllUrls(urls, isUrl, latest);
  }

  lemma {:induction false} AllUrls(urls: seq<string>, isUrl: string -> bool, latest: string -> Option<string>)
    requires forall i :: 0 <= i < |urls| ==> UsableUrl(urls[i], isUrl)
    ensures UrlEntries(urls, isUrl) == urls && KnownLatest(urls, isUrl, latest) == []
  {
    if |urls| > 0 {
      AllUrls(urls[1..], isUrl, latest);
    }
  }

  /** URL tags come before registry tags whatever the list order: a known
      name listed just before a URL renders as if the two were swapped. */
  lemma UrlsBeforeNames(prefix: string, m: Manifest, m': Manifest, kind: LibraryType,
                        before: seq<string>, name: string, url: string, after: seq<string>,
                        isUrl: string -> bool, latest: string -> Option<string>)
    requires Libraries(m, kind) == Some(before + [name, url] + after)
    requires Libraries(m', kind) == Some(before + [url, name] + after)
    requires UsableName(name, isUrl, latest) && UsableUrl(url, isUrl)
    ensures ResolveLibraries(prefix, Some(m), kind, isUrl, latest) == ResolveLibraries(prefix, Some(m'), kind, isUrl, latest)
  {
    var one, two := before + [name, url] + after, before + [url, name] + after;
    UrlEntriesAppend(before + [name, url], after, isUrl);
    UrlEntriesAppend(before, [name, url], isUrl);
    UrlEntriesAppend(before + [url, name], after, isUrl);
    UrlEntriesAppend(before, [url, name], isUrl);
    KnownLatestAppend(before + [name, url], after, isUrl, latest);
    KnownLatestAppend(before, [name, url], isUrl, latest);
    KnownLatestAppend(before + [url, name], after, isUrl, latest);
    KnownLatestAppend(before, [url, name], isUrl, latest);
    PairLists(name, url, isUrl, latest);
  }

  lemma PairLists(name: string, url: string, isUrl: string -> bool, latest: string -> Option<string>)
    requires UsableName(name, isUrl, latest) && UsableUrl(url, isUrl)
    ensures UrlEntries([name, url], isUrl) == [url] == UrlEntries([url, name], isUrl)
    ensures KnownLatest([name, url], isUrl, latest) == [latest(name).value] == KnownLatest([url, name], isUrl, latest)
  {
    assert [name, url][1..] == [url] && [url, name][1..] == [name];
    assert [url][1..] == [] && [name][1..] == [];
    assert UrlEntries([url], isUrl) == [url] + UrlEntries([], isUrl);
    assert UrlEntries([name], isUrl) == [] + UrlEntries([], isUrl);
    assert KnownLatest([url], isUrl, latest) == [] + KnownLatest([], isUrl, latest);
    assert KnownLatest([name], isUrl, latest) == [latest(name).value] + KnownLatest([], isUrl, latest);
  }

  /** The `type` of the swing's script element: "module" for module code,
      otherwise the manifest's `scriptType` when non-empty, else "text/javascript". */
  function ScriptType(isJavaScriptModule: bool, manifest: Option<Manifest>): (r: string)
    ensures isJavaScriptModule ==> r == "module"
    ensures !isJavaScriptModule && manifest.Some? && manifest.value.scriptType.Some? && manifest.value.scriptType.value != ""
            ==> r == manifest.value.scriptType.value
    ensures !isJavaScriptModule && (manifest.None? || manifest.value.scriptType.None? || manifest.value.scriptType.value == "")
            ==> r == "text/javascript"
  {
    if isJavaScriptModule then "module"
    else if manifest.Some? && manifest.value.scriptType.Some? && manifest.value.scriptType.value != "" then manifest.value.scriptType.value
    else "text/javascript"
  }

  /** The effective readme behaviour: the manifest's when non-empty, else the setting. */
  function ReadmeBehavior(manifest: Option<Manifest>, setting: string): (r: string)
    ensures manifest.Some? && manifest.value.readmeBehavior.Some? && manifest.value.readmeBehavior.value != "" ==>
              r == manifest.value.readmeBehavior.value
    ensures manifest.None? || manifest.value.readmeBehavior.None? || manifest.value.readmeBehavior.value == "" ==> r == setting
  {
    if manifest.Some? && manifest.value.readmeBehavior.Some? && manifest.value.readmeBehavior.value != "" then
      manifest.value.readmeBehavior.value
    else setting
  }

  /** The tutorial bar, shown only for a non-zero total: back is disabled on
      step 1, forward on the last step. */
  function TutorialNavigation(total: Option<nat>, current: int): (r: Option<Navigation>)
    ensures r.Some? <==> total.Some? && total.value != 0
    ensures r.Some? ==> (r.value.backDisabled <==> current == 1)
    ensures r.Some? ==> (r.value.forwardDisabled <==> current == total.value)
  {
    match total
    case None => None
    case Some(t) => if t == 0 then None else Some(Navigation(current, t, current == 1, current == t))
  }

  /** A tutorial with a single step disables both buttons on that step. */
  lemma SingleStepDisablesBoth()
    ensures TutorialNavigation(Some(1), 1) == Some(Navigation(1, 1, true, true))
  {
  }

  /** The values `rebuildWebview` renders: the stored parts, the resolved
      library tags, the script type, the readme above or below the markup
      (never both), the theme flag and the tutorial bar. */
  function Render(s: State, env: Env): (r: Page)
    ensures r.css == s.css && r.html == s.html && r.javascript == s.javascript && r.input == s.input && r.config == s.config
    ensures r.scripts == ResolveLibraries(s.codePenScripts, s.manifest, ScriptLibraries, env.isUrl, env.latest)
    ensures r.styles == ResolveLibraries(s.codePenStyles, s.manifest, StyleLibraries, env.isUrl, env.latest)
    ensures r.scriptType == ScriptType(s.isJavaScriptModule, s.manifest)
    ensures r.header == "" || r.footer == ""
    ensures ReadmeBehavior(s.manifest, env.readmeBehavior) == "previewHeader" ==> r.header == s.readme
    ensures ReadmeBehavior(s.manifest, env.readmeBehavior) == "previewFooter" ==> r.footer == s.readme
    ensures ReadmeBehavior(s.manifest, env.readmeBehavior) !in {"previewHeader", "previewFooter"} ==> r.header == r.footer == ""
    ensures r.themed == if s.manifest.Some? && s.manifest.value.themePreview.Some? then s.manifest.value.themePreview.value
                        else env.themePreview
    ensures r.navigation == TutorialNavigation(s.totalTutorialSteps, env.currentStep)
  {
    var behavior := ReadmeBehavior(s.manifest, env.readmeBehavior);
    Page(
      ResolveLibraries(s.codePenScripts, s.manifest, ScriptLibraries, env.isUrl, env.latest),
      ResolveLibraries(s.codePenStyles, s.manifest, StyleLibraries, env.isUrl, env.latest),
      ScriptType(s.isJavaScriptModule, s.manifest),
      if behavior == "previewHeader" then s.readme else "",
      if behavior == "previewFooter" then s.readme else "",
      if s.manifest.Some? && s.manifest.value.themePreview.Some? then s.manifest.value.themePreview.value else env.themePreview,
      TutorialNavigation(s.totalTutorialSteps, env.currentStep),
      s.css, s.html, s.javascript, s.config, s.input)
  }

  /** `rebuildWebview`: the renderer now shows the page of the current state,
      stylesheet and input included, and no field changes. */
  function Rebuild(s: State, env: Env): (r: State)
    ensures LastPage(r.log) == Some(Render(s, env))
    ensures Rebuilds(r.log) == Rebuilds(s.log) + 1
    ensures RenderedCss(r.log) == Some(s.css) && RenderedInput(r.log) == Some(s.input)
    ensures |r.log| == |s.log| + 1 && r.log[..|s.log|] == s.log
    ensures r.(log := s.log) == s
  {
    var r := s.(log := s.log + [Rebuilt(Render(s, env))]);
    assert r.log[..|s.log|] == s.log;
    r
  }

  // ---------------------------------------------------------------------------
  // Updates

  /** `updateCSS`: store, and with `rebuild` post an incremental message only. */
  function UpdateCss(s: State, css: string, rebuild: bool): (r: State)
    ensures r.css == css && r.(css := s.css, log := s.log) == s
    ensures Rebuilds(r.log) == Rebuilds(s.log)
    ensures !rebuild ==> r.log == s.log
  {
    s.(css := css, log := if rebuild then s.log + [Posted(CssMessage(css))] else s.log)
  }

  /** `updateInput`: store, and with `rebuild` post an incremental message only. */
  function UpdateInput(s: State, input: string, rebuild: bool): (r: State)
    ensures r.input == input && r.(input := s.input, log := s.log) == s
    ensures Rebuilds(r.log) == Rebuilds(s.log)
    ensures !rebuild ==> r.log == s.log
  {
    s.(input := input, log := if rebuild then s.log + [Posted(InputMessage(input))] else s.log)
  }

  /** `updateHTML`: store, and rebuild iff asked. */
  function UpdateHtml(s: State, env: Env, html: string, rebuild: bool): (r: State)
    ensures r.html == html && r.(html := s.html, log := s.log) == s
    ensures rebuild ==> LastPage(r.log) == Some(Render(s.(html := html), env))
    ensures rebuild ==> Rebuilds(r.log) == Rebuilds(s.log) + 1
    ensures !rebuild ==> r.log == s.log
  {
    var t := s.(html := html);
    if rebuild then Rebuild(t, env) else t
  }

  /** `updateReadme`: store, and rebuild iff asked. */
  function UpdateReadme(s: State, env: Env, readme: string, rebuild: bool): (r: State)
    ensures r.readme == readme && r.(readme := s.readme, log := s.log) == s
    ensures rebuild ==> LastPage(r.log) == Some(Render(s.(readme := readme), env))
    ensures rebuild ==> Rebuilds(r.log) == Rebuilds(s.log) + 1
    ensures !rebuild ==> r.log == s.log
  {
    var t := s.(readme := readme);
    if rebuild then Rebuild(t, env) else t
  }

  /** `updateConfig`: store, and rebuild iff asked. */
  function UpdateConfig(s: State, env: Env, config: string, rebuild: bool): (r: State)
    ensures r.config == config && r.(config := s.config, log := s.log) == s
    ensures rebuild ==> LastPage(r.log) == Some(Render(s.(config := config), env))
    ensures rebuild ==> Rebuilds(r.log) == Rebuilds(s.log) + 1
    ensures !rebuild ==> r.log == s.log
  {
    var t := s.(config := config);
    if rebuild then Rebuild(t, env) else t
  }

  /** `updateJavaScript`: compile with the current manifest; a failed compile
      changes nothing, otherwise store code and module flag and rebuild iff asked. */
  function UpdateJavaScript(s: State, env: Env, tools: Toolchain, content: string, path: string, rebuild: bool): (r: State)
    ensures Script.GetScriptContent(tools, content, path, s.manifest).None? ==> r == s
    ensures Script.GetScriptContent(tools, content, path, s.manifest).Some? ==>
              && r.javascript == Script.GetScriptContent(tools, content, path, s.manifest).value.code
              && r.isJavaScriptModule == Script.GetScriptContent(tools, content, path, s.manifest).value.isModule
              && r.(javascript := s.javascript, isJavaScriptModule := s.isJavaScriptModule, log := s.log) == s
              && (rebuild <==> Rebuilds(r.log) == Rebuilds(s.log) + 1)
              && (rebuild ==> LastPage(r.log) == Some(Render(s.(
                    javascript := Script.GetScriptContent(tools, content, path, s.manifest).value.code,
                    isJavaScriptModule := Script.GetScriptContent(tools, content, path, s.manifest).value.isModule), env)))
              && (!rebuild ==> r.log == s.log)
  {
    match Script.GetScriptContent(tools, content, path, s.manifest)
    case None => s
    case Some(data) =>
      var t := s.(javascript := data.code, isJavaScriptModule := data.isModule);
      if rebuild then Rebuild(t, env) else t
  }

  /** `updateManifest`: the empty text and invalid JSON change nothing; valid
      JSON replaces the manifest and rebuilds iff asked. */
  function UpdateManifest(s: State, env: Env, text: string, parse: Parser, rebuild: bool): (r: State)
    ensures text == "" ==> r == s
    ensures parse(text).None? ==> r == s
    ensures text != "" && parse(text).Some? ==>
              && r.manifest == parse(text) && r.(manifest := s.manifest, log := s.log) == s
              && (rebuild <==> Rebuilds(r.log) == Rebuilds(s.log) + 1)
              && (rebuild ==> LastPage(r.log) == Some(Render(s.(manifest := parse(text)), env)))
              && (!rebuild ==> r.log == s.log)
  {
    if text == "" then s
    else match parse(text)
      case None => s
      case Some(m) =>
        var t := s.(manifest := Some(m));
        if rebuild then Rebuild(t, env) else t
  }

  /** After `updateCSS(css, true)` the renderer applies `css`, with no rebuild;
      without `rebuild` it keeps what it had. */
  lemma CssReachesRenderer(s: State, css: string, rebuild: bool)
    ensures rebuild ==> RenderedCss(UpdateCss(s, css, rebuild).log) == Some(css)
    ensures !rebuild ==> RenderedCss(UpdateCss(s, css, rebuild).log) == RenderedCss(s.log)
    ensures LastPage(UpdateCss(s, css, rebuild).log) == LastPage(s.log)
  {
    var log := UpdateCss(s, css, rebuild).log;
    if rebuild {
      assert log[..|log| - 1] == s.log;
    }
  }

  /** After `updateInput(input, true)` the renderer has the input, with no rebuild. */
  lemma InputReachesRenderer(s: State, input: string, rebuild: bool)
    ensures rebuild ==> RenderedInput(UpdateInput(s, input, rebuild).log) == Some(input)
    ensures !rebuild ==> RenderedInput(UpdateInput(s, input, rebuild).log) == RenderedInput(s.log)
    ensures LastPage(UpdateInput(s, input, rebuild).log) == LastPage(s.log)
  {
    var log := UpdateInput(s, input, rebuild).log;
    if rebuild {
      assert log[..|log| - 1] == s.log;
    }
  }

  /** A rebuilding update shows every stored part: the page last rebuilt
      carries the new markup together with the stylesheet and input already held. */
  lemma HtmlRebuildShowsState(s: State, env: Env, html: string)
    ensures var r := UpdateHtml(s, env, html, true);
            && LastPage(r.log).Some? && LastPage(r.log).value.html == html
            && RenderedCss(r.log) == Some(s.css) && RenderedInput(r.log) == Some(s.input)
  {
  }

  // ---------------------------------------------------------------------------
  // Tutorial navigation

  /** The outcome of a `navigateTutorial` message. */
  datatype NavigationOutcome = Reopen(progress: TutorialStorage.Progress) | Completed(message: string)

  const DefaultCompletionMessage: string := "Congratulations! You're completed this tutorial"

  /** `navigateTutorial(value)`: the next step is the stored step plus `value`;
      within the total it is stored and the swing reopened, otherwise the
      manifest's completion message (or the default) is shown. */
  function NavigateTutorial(s: State, progress: TutorialStorage.Progress, id: string, value: int): (r: NavigationOutcome)
    ensures var next := TutorialStorage.CurrentStep(progress, id) + value;
            r.Reopen? <==> s.totalTutorialSteps.Some? && next <= s.totalTutorialSteps.value
    ensures r.Reopen? ==> r.progress == TutorialStorage.SetStep(progress, id, TutorialStorage.CurrentStep(progress, id) + value)
    ensures r.Completed? ==> r.message != ""
  {
    NavigateTo(s, progress, id, TutorialStorage.CurrentStep(progress, id) + value)
  }

  /** Navigation once the next step is known. */
  function NavigateTo(s: State, progress: TutorialStorage.Progress, id: string, next: int): (r: NavigationOutcome)
    ensures r.Reopen? <==> s.totalTutorialSteps.Some? && next <= s.totalTutorialSteps.value
    ensures r.Reopen? ==> r.progress == TutorialStorage.SetStep(progress, id, next)
    ensures r.Reopen? ==> TutorialStorage.CurrentStep(r.progress, id) == next
    ensures r.Reopen? ==>
      forall other :: other != id ==> TutorialStorage.CurrentStep(r.progress, other) == TutorialStorage.CurrentStep(progress, other)
    ensures r.Completed? ==> r.message != "" && r.message == CompletionMessage(s)
  {
    if s.totalTutorialSteps.Some? && next <= s.totalTutorialSteps.value then
      var stored := TutorialStorage.SetStep(progress, id, next);
      TutorialStorage.SetThenGet(progress, id, next);
      assert forall other :: other != id ==> TutorialStorage.CurrentStep(stored, other) == TutorialStorage.CurrentStep(progress, other) by {
        forall other | other != id
          ensures TutorialStorage.CurrentStep(stored, other) == TutorialStorage.CurrentStep(progress, other)
        {
          TutorialStorage.SetKeepsOthers(progress, id, next, other);
        }
      }
      Reopen(stored)
    else Completed(CompletionMessage(s))
  }

  /** The manifest's non-empty completion message, or the default one. */
  function CompletionMessage(s: State): (r: string)
    ensures r != ""
    ensures var input := if s.manifest.Some? then s.manifest.value.input else None;
      input.Some? && input.value.completionMessage.Some? && input.value.completionMessage.value != "" ==>
        r == input.value.completionMessage.value
    ensures r != DefaultCompletionMessage ==>
      s.manifest.Some? && s.manifest.value.input.Some? && s.manifest.value.input.value.completionMessage == Some(r)
  {
    var custom := if s.manifest.Some? && s.manifest.value.input.Some? then s.manifest.value.input.value.completionMessage else None;
    if custom.Some? && custom.value != "" then custom.value else DefaultCompletionMessage
  }

  /** Moving forward from the stored step persists exactly the next step and
      touches no other tutorial. */
  lemma ForwardPersistsNextStep(s: State, progress: TutorialStorage.Progress, id: string, other: string)
    requires s.totalTutorialSteps.Some? && TutorialStorage.CurrentStep(progress, id) + 1 <= s.totalTutorialSteps.value
    requires other != id
    ensures NavigateTutorial(s, progress, id, 1).Reopen?
    ensures TutorialStorage.CurrentStep(NavigateTutorial(s, progress, id, 1).progress, id) == TutorialStorage.CurrentStep(progress, id) + 1
    ensures TutorialStorage.CurrentStep(NavigateTutorial(s, progress, id, 1).progress, other) == TutorialStorage.CurrentStep(progress, other)
  {
    var next := TutorialStorage.CurrentStep(progress, id) + 1;
    TutorialStorage.SetThenGet(progress, id, next);
    TutorialStorage.SetKeepsOthers(progress, id, next, other);
  }
}
