/** The read-only `codeswing-proxy` file system: a proxy URI carries the
    target URI percent-encoded in its path; reading a `.js` proxy file turns
    the target (a component, JSON or CSS file named by the `type` query
    parameter) into a module. */
module ProxyFileSystem {
  import opened Wrappers
  import opened Strings
  import opened Host
  import Tools
  import Script
  import Skypack
  import UriComponent

  const Scheme: string := "codeswing-proxy"

  /** `getProxyUri`: the target URI's text, percent-encoded, as the path.
      `target` is `uri.toString()`. */
  function ProxyUri(target: string): (r: Uri)
    ensures r.scheme == Scheme && StartsWith(r.path, "/")
  {
    Uri(Scheme, "", "/" + UriComponent.Encode(target), "")
  }

  /** The target text `readFile` recovers: the path without its leading `/`,
      percent-decoded; `None` where decoding throws. */
  function TargetText(proxyPath: string): Option<string> {
    UriComponent.Decode(if |proxyPath| > 0 then proxyPath[1..] else "")
  }

  /** A proxy URI leads back to the URI it was made from. */
  lemma ProxyRoundTrip(target: string)
    ensures TargetText(ProxyUri(target).path) == Some(target)
  {
    var path := ProxyUri(target).path;
    assert path[1..] == UriComponent.Encode(target);
    UriComponent.DecodeEncode(target);
  }

  /** `new URLSearchParams(query).get(name)`: the value of the first
      `name=value` pair with that name (a pair without `=` has value ""). */
  function QueryParam(query: string, name: string): Option<string> {
    FirstParam(Split(query, "&"), name)
  }

  function FirstParam(pairs: seq<string>, name: string): (r: Option<string>)
    ensures r.None? <==> forall k :: 0 <= k < |pairs| ==> ParamName(pairs[k]) != name
  {
    if |pairs| == 0 then None
    else if ParamName(pairs[0]) == name then Some(ParamValue(pairs[0]))
    else FirstParam(pairs[1..], name)
  }

  function ParamName(pair: string): string {
    match IndexOf(pair, "=")
    case None => pair
    case Some(i) => pair[..i]
  }

  function ParamValue(pair: string): string {
    match IndexOf(pair, "=")
    case None => ""
    case Some(i) => pair[i + 1..]
  }

  /** The `type` as the template literal prints it: a missing parameter is `null`. */
  function TypeText(t: Option<string>): string {
    if t.Some? then t.value else "null"
  }

  /** The target read for a `.js` proxy file with a query: the first `.js` of
      the target path becomes `.<type>` and the query is dropped. */
  function RetargetForType(target: Uri, t: Option<string>): (r: Uri)
    ensures r.scheme == target.scheme && r.authority == target.authority && r.query == ""
    ensures Contains(target.path, ".js") ==> Contains(r.path, "." + TypeText(t))
    ensures Contains(target.path, ".js") ==> FirstReplaced(target.path, r.path, "." + TypeText(t))
    ensures !Contains(target.path, ".js") ==> r.path == target.path
  {
    var path := ReplaceFirst(target.path, ".js", "." + TypeText(t));
    assert Contains(target.path, ".js") ==> Contains(path, "." + TypeText(t)) && FirstReplaced(target.path, path, "." + TypeText(t)) by {
      if Contains(target.path, ".js") {
        ReplaceFirstInserts(target.path, ".js", "." + TypeText(t));
        var i := IndexOf(target.path, ".js").value;
        assert path == target.path[..i] + "." + TypeText(t) + target.path[i + 3..];
      }
    }
    target.(path := path, query := "")
  }

  /** `after` is `before` with its first `.js` replaced by `replacement`. */
  ghost predicate FirstReplaced(before: string, after: string, replacement: string) {
    exists i :: OccursAt(before, ".js", i) && (forall j :: 0 <= j < i ==> !OccursAt(before, ".js", j)) &&
      after == before[..i] + replacement + before[i + 3..]
  }

  lemma ReplaceFirstInserts(s: string, pattern: string, replacement: string)
    requires IndexOf(s, pattern).Some?
    ensures Contains(ReplaceFirst(s, pattern, replacement), replacement)
  {
    var i := IndexOf(s, pattern).value;
    var r := ReplaceFirst(s, pattern, replacement);
    assert r == s[..i] + replacement + s[i + |pattern|..];
    assert r[i..i + |replacement|] == replacement;
    var k := IndexOf(r, replacement);
    assert OccursAt(r, replacement, i);
  }

  /** The module wrapping a stylesheet: a script that appends a `<style>`
      element holding the text. */
  function CssModule(contents: string): string {
    CssHead + contents + CssTail
  }

  const CssHead: string := "const styleElement = document.createElement(\"style\");\nstyleElement.textContent = `"
  const CssTail: string := "`;\ndocument.head.appendChild(styleElement);"

  /** The per-type wrapping, before `processImports`. `svelte` is the Svelte
      component compiler (its first output), `None` where it throws. */
  function WrapByType(t: Option<string>, contents: string, tools: Tools.Toolchain, svelte: string -> Option<string>): (r: Option<string>)
    ensures t == Some("json") ==> r == Some("export default " + contents)
    ensures t == Some("css") ==> r == Some(CssModule(contents))
    ensures t == Some("svelte") ==> r == svelte(contents)
    ensures t == Some("jsx") || t == Some("tsx") ==> r == Some(CompiledOrSource(tools, contents, "." + t.value))
    ensures t.None? || t.value !in {"json", "css", "svelte", "jsx", "tsx"} ==> r == Some(contents)
  {
    TypeNamesDistinct();
    match t
    case None => Some(contents)
    case Some(name) =>
      if name == "svelte" then svelte(contents)
      else if name == "jsx" || name == "tsx" then Some(CompiledOrSource(tools, contents, "." + name))
      else if name == "json" then Some("export default " + contents)
      else if name == "css" then Some(CssModule(contents))
      else Some(contents)
  }

  /** A JSX or TSX component compiled as a module with JSX, falling back to
      its own text when compilation fails or yields nothing. */
  function CompiledOrSource(tools: Tools.Toolchain, contents: string, extension: string): string {
    var compiled := Script.CompileScriptContent(tools, contents, extension, true, true);
    if compiled.Some? && compiled.value != "" then compiled.value else contents
  }

  /** The type names told apart by `readFile`. */
  lemma TypeNamesDistinct()
    ensures "svelte" != "jsx" && "svelte" != "tsx" && "svelte" != "json" && "svelte" != "css"
    ensures "jsx" != "tsx" && "jsx" != "json" && "jsx" != "css"
    ensures "tsx" != "json" && "tsx" != "css" && "json" != "css"
  {
    assert "jsx"[0] != "tsx"[0] && "jsx"[0] != "css"[0] && "tsx"[0] != "css"[0];
  }

  /** `readFile(uri)`. `parse` is the host's URI parser and `read` the
      workspace read of a target (text; `None` where it throws). A `.js`
      proxy file is wrapped by type and then passed through `processImports`;
      any other file is the target's content unchanged. */
  function ReadFile(uri: Uri, parse: string -> Uri, read: Uri -> Option<string>,
                    tools: Tools.Toolchain, svelte: string -> Option<string>): (r: Option<string>)
    ensures TargetText(uri.path).None? ==> r.None?
    ensures TargetText(uri.path).Some? && ExtName(uri.path) != ".js" ==> r == read(parse(TargetText(uri.path).value))
    ensures TargetText(uri.path).Some? && ExtName(uri.path) == ".js" && uri.query == "" ==>
              r == (var c := read(parse(TargetText(uri.path).value)); if c.Some? then Some(Skypack.ProcessImports(c.value)) else None)
  {
    var text :- TargetText(uri.path);
    var target := parse(text);
    if ExtName(uri.path) == ".js" then
      var t := if uri.query != "" then QueryParam(uri.query, "type") else None;
      var source := if uri.query != "" then RetargetForType(target, t) else target;
      var contents :- read(source);
      var wrapped :- WrapByType(t, contents, tools, svelte);
      Some(Skypack.ProcessImports(wrapped))
    else read(target)
  }

  /** A JSON file requested as `<path>.js?type=json` is read from `<path>.json`
      and becomes a module exporting it. */
  lemma JsonBecomesModule(uri: Uri, parse: string -> Uri, read: Uri -> Option<string>,
                          tools: Tools.Toolchain, svelte: string -> Option<string>, json: string)
    requires TargetText(uri.path).Some? && ExtName(uri.path) == ".js" && uri.query == "type=json"
    requires read(RetargetForType(parse(TargetText(uri.path).value), Some("json"))) == Some(json)
    ensures ReadFile(uri, parse, read, tools, svelte) == Some(Skypack.ProcessImports("export default " + json))
  {
    JsonTypeQuery();
    ReadTypedScript(uri, parse, read, tools, svelte, TargetText(uri.path).value, "json", json);
  }

  lemma JsonTypeQuery()
    ensures QueryParam("type=json", "type") == Some("json")
  {
    TypeParamOf("json");
    assert "type=" + "json" == "type=json";
  }

  /** A `.js` proxy file with a `type` query is the wrapped retargeted file. */
  lemma ReadTypedScript(uri: Uri, parse: string -> Uri, read: Uri -> Option<string>,
                        tools: Tools.Toolchain, svelte: string -> Option<string>,
                        target: string, t: string, contents: string)
    requires TargetText(uri.path) == Some(target) && ExtName(uri.path) == ".js"
    requires uri.query != "" && QueryParam(uri.query, "type") == Some(t)
    requires read(RetargetForType(parse(target), Some(t))) == Some(contents)
    requires WrapByType(Some(t), contents, tools, svelte).Some?
    ensures ReadFile(uri, parse, read, tools, svelte) == Some(Skypack.ProcessImports(WrapByType(Some(t), contents, tools, svelte).value))
  {
  }

  /** The query `type=<t>` names type `t`. */
  lemma TypeParamOf(t: string)
    requires '&' !in t
    ensures QueryParam("type=" + t, "type") == Some(t)
  {
    var q := "type=" + t;
    assert '&' !in q by {
      assert forall k :: 5 <= k < |q| ==> q[k] == t[k - 5];
    }
    NoCharNoOccurrence(q, '&');
    assert Split(q, "&") == [q];
    FirstCharAfter("type", '=', t);
    assert "type" + ['='] + t == q;
    assert q[..4] == "type" && q[5..] == t;
  }

  /** `stat`: every proxy path is a file of size 0. */
  function Stat(uri: Uri): (r: FileStat)
    ensures r.kind == File && r.size == 0
  {
    FileStat(File, 0)
  }

  /** The mutating operations (`writeFile`, `delete`, `readDirectory`,
      `rename`, `createDirectory`, `watch`): all throw NoPermissions. */
  datatype Operation = WriteFile | Delete | ReadDirectory | Rename | CreateDirectory | Watch

  function Perform(op: Operation, uri: Uri): (r: Result<()>)
    ensures r == Err(NoPermissions)
  {
    Err(NoPermissions)
  }
}
