/** The script file of a swing (`script.ts`): how its text becomes the code the
    preview runs, and whether it runs as an ES module. */
module Script {
  import opened Wrappers
  import opened Strings
  import opened Patterns
  import opened Tools
  import opened Manifests
  import Skypack

  const BaseName: string := "script"

  const ReactExtensions: seq<string> := [".babel", ".jsx", ".tsx"]

  const ModuleExtensions: seq<string> := [".mjs"]

  const TypeScriptExtensions: seq<string> := [".ts"] + ReactExtensions

  const Extensions: seq<string> := [".js"] + ModuleExtensions + TypeScriptExtensions

  /** The tables as the extension lists them, React extensions being TypeScript ones. */
  lemma ExtensionTables()
    ensures Extensions == [".js", ".mjs", ".ts", ".babel", ".jsx", ".tsx"]
    ensures forall e :: e in ReactExtensions ==> e in TypeScriptExtensions && e in Extensions
  {
  }

  /** `isReactFile`: the extension, compared as written (not lower-cased). */
  predicate IsReactFile(fileName: string) {
    ExtName(fileName) in ReactExtensions
  }

  predicate IncludesReactFiles(files: seq<string>) {
    exists i :: 0 <= i < |files| && IsReactFile(files[i])
  }

  /** Whether a file counts as React depends only on its extension: a name
      `<stem><ext>` is a React file exactly when `ext` is `.babel`, `.jsx` or `.tsx`. */
  lemma ReactFileByExtension(stem: string, ext: string)
    requires |stem| > 0 && |ext| > 1 && ext[0] == '.'
    requires forall k :: 1 <= k < |ext| ==> ext[k] != '.' && ext[k] != '/'
    requires forall k :: 0 <= k < |stem| ==> stem[k] != '/'
    ensures IsReactFile(stem + ext) <==> ext in ReactExtensions
  {
    ExtNameOf(stem, ext);
  }

  /** `includesReactFiles` over two lists put together holds exactly when it
      holds over one of them. */
  lemma IncludesReactFilesAppend(files: seq<string>, more: seq<string>)
    ensures IncludesReactFiles(files + more) <==> IncludesReactFiles(files) || IncludesReactFiles(more)
  {
    var all := files + more;
    if IncludesReactFiles(all) {
      var i :| 0 <= i < |all| && IsReactFile(all[i]);
      if i >= |files| {
        assert more[i - |files|] == all[i];
      }
    }
    if IncludesReactFiles(more) {
      var i :| 0 <= i < |more| && IsReactFile(more[i]);
      assert all[|files| + i] == more[i];
    }
    if IncludesReactFiles(files) {
      var i :| 0 <= i < |files| && IsReactFile(files[i]);
      assert all[i] == files[i];
    }
  }

  const ReactScripts: seq<string> := ["react", "react-dom"]

  predicate IncludesReactScripts(scripts: seq<string>) {
    forall i :: 0 <= i < |ReactScripts| ==> ReactScripts[i] in scripts
  }

  /** `includesReactScripts` holds exactly when both React packages are listed. */
  lemma IncludesReactScriptsIff(scripts: seq<string>)
    ensures IncludesReactScripts(scripts) <==> "react" in scripts && "react-dom" in scripts
  {
    if "react" in scripts && "react-dom" in scripts {
      forall i | 0 <= i < |ReactScripts| ensures ReactScripts[i] in scripts {
        assert i == 0 || i == 1;
      }
    }
    if IncludesReactScripts(scripts) {
      assert ReactScripts[0] in scripts && ReactScripts[1] in scripts;
    }
  }

  // ---------------------------------------------------------------------------
  // The React import rewrites, each a non-global `replace`
  // ---------------------------------------------------------------------------

  /** `literal` followed by a double-quoted, then a single-quoted `specifier`. */
  function FromModule(literal: string, specifier: string): seq<string> {
    [literal + "\"" + specifier + "\"", literal + "'" + specifier + "'"]
  }

  /** `/import (?:\* as )?React from (["'])react\1/` -> "" */
  function DropReactImport(s: string): string {
    ReplaceFirstChoice(s, FromModule("import * as React from ", "react") + FromModule("import React from ", "react"), ["", "", "", ""])
  }

  /** `/import (?:\* as )?ReactDOM from (["'])react-dom\1/` -> "" */
  function DropReactDomImport(s: string): string {
    ReplaceFirstChoice(s, FromModule("import * as ReactDOM from ", "react-dom") + FromModule("import ReactDOM from ", "react-dom"), ["", "", "", ""])
  }

  /** `/import React, {(.+)} from (["'])react\2/` -> `const {$1} = React` */
  function DestructureReactImport(s: string): string {
    ReplaceFirstMatch(s, "import React, {", AnyButLineTerminator, 1, FromModule("} from ", "react"), "const {", "} = React")
  }

  /** `/import (.+) from (["'])react\2/` -> `const $1 = React` */
  function BindReactImport(s: string): string {
    ReplaceFirstMatch(s, "import ", AnyButLineTerminator, 1, FromModule(" from ", "react"), "const ", " = React")
  }

  /** The React Native shim the `react-native` specifier is pointed at. */
  const ReactNativeShim: string := "https://gistcdn.githack.com/lostintangent/6de9be49a0f112dd36eff3b8bc771b9e/raw/ce12b9075322245be20a79eba4d89d4e5152a4aa/index.js"

  /** `/from (["'])react-native\1/` -> `from $1<shim>$1` */
  function ShimReactNative(s: string): string {
    ReplaceFirstChoice(s, FromModule("from ", "react-native"), FromModule("from ", ReactNativeShim))
  }

  /** The five rewrites, in the order the code applies them. */
  function RewriteReactImports(s: string): string {
    ShimReactNative(BindReactImport(DestructureReactImport(DropReactDomImport(DropReactImport(s)))))
  }

  /** `/import .* from (["'])react\1/` matches somewhere in `s`. */
  predicate ContainsReactImport(s: string) {
    FirstMatch(s, 0, "import ", AnyButLineTerminator, 0, FromModule(" from ", "react")).Some?
  }

  /** The text `compileScriptContent` hands on: for module code, the React
      rewrites (when JSX is on) and then `processImports`; other code as it is. */
  function PrepareCode(content: string, isModule: bool, includesJsx: bool): string {
    if isModule then Skypack.ProcessImports(if includesJsx then RewriteReactImports(content) else content)
    else content
  }

  /** `compileScriptContent`: TypeScript extensions and JSX code are
      transpiled (with the React JSX factory for React extensions and JSX
      code), a transpile failure gives `None`, and anything else is the
      prepared text itself. */
  function CompileScriptContent(tools: Toolchain, content: string, extension: string, isModule: bool, includesJsx: bool): (r: Option<string>)
    ensures !isModule && extension !in TypeScriptExtensions && !includesJsx && !ContainsReactImport(content) ==> r == Some(content)
    ensures var code := PrepareCode(content, isModule, includesJsx);
      var jsx := includesJsx || ContainsReactImport(code);
      && (extension in TypeScriptExtensions || jsx ==> r == tools.transpile(code, extension in ReactExtensions || jsx))
      && (extension !in TypeScriptExtensions && !jsx ==> r == Some(code))
  {
    var code := PrepareCode(content, isModule, includesJsx);
    var containsJsx := includesJsx || ContainsReactImport(code);
    if extension in TypeScriptExtensions || containsJsx then
      tools.transpile(code, extension in ReactExtensions || containsJsx)
    else Some(code)
  }

  /** The compiled code and whether it runs as a module. */
  datatype ScriptContent = ScriptContent(code: string, isModule: bool)

  /** Whether non-blank script text runs as a module: the manifest's
      `scriptType: "module"` forces it; otherwise a `.mjs` file or text that
      starts with `import ` after trimming. */
  predicate RunsAsModule(content: string, extension: string, manifest: Option<Manifest>) {
    || ForcesModule(manifest)
    || extension == ".mjs"
    || StartsWith(Trim(content), "import ")
  }

  /** The manifest's `scriptType: "module"`. */
  predicate ForcesModule(manifest: Option<Manifest>) {
    manifest.Some? && manifest.value.scriptType == Some("module")
  }

  /** `includesJsx`: `manifest && manifest.scripts && manifest.scripts.includes("react")`,
      where an `undefined` result lets the parameter default of `true` apply. */
  function IncludesJsx(manifest: Option<Manifest>): (r: bool)
    ensures manifest.None? || manifest.value.scripts.None? ==> r
    ensures manifest.Some? && manifest.value.scripts.Some? ==> (r <==> "react" in manifest.value.scripts.value)
  {
    match manifest
    case None => true
    case Some(m) => match m.scripts
      case None => true
      case Some(scripts) => "react" in scripts
  }

  /** `getScriptContent`. */
  function GetScriptContent(tools: Toolchain, content: string, path: string, manifest: Option<Manifest>): (r: Option<ScriptContent>)
    ensures var extension := ToLower(ExtName(path));
      IsBlank(content) ==> r == Some(ScriptContent(content, extension == ".mjs"))
    ensures var extension := ToLower(ExtName(path));
      !IsBlank(content) && r.Some? ==> r.value.isModule == RunsAsModule(content, extension, manifest)
    ensures var extension := ToLower(ExtName(path));
      var compiled := CompileScriptContent(tools, content, extension, RunsAsModule(content, extension, manifest), IncludesJsx(manifest));
      !IsBlank(content) ==> (r.None? <==> compiled.None? || compiled.value == "")
    ensures r.Some? ==> r.value.code != "" || IsBlank(content)
  {
    if IsBlank(content) then
      ScriptContentBlank(tools, content, path, manifest);
      ScriptContentWith(tools, content, path, ForcesModule(manifest), IncludesJsx(manifest))
    else
      ScriptContentCompiled(tools, content, path, manifest);
      ScriptContentWith(tools, content, path, ForcesModule(manifest), IncludesJsx(manifest))
  }

  /** `getScriptContent` once the manifest is reduced to the two facts it uses. */
  function ScriptContentWith(tools: Toolchain, content: string, path: string, forcesModule: bool, includesJsx: bool): Option<ScriptContent> {
    var extension := ToLower(ExtName(path));
    var isModule := extension in ModuleExtensions;
    if Trim(content) == "" then Some(ScriptContent(content, isModule))
    else
      var isModule := if forcesModule then true else isModule || StartsWith(Trim(content), "import ");
      var compiled := CompileScriptContent(tools, content, extension, isModule, includesJsx);
      if compiled.None? || compiled.value == "" then None else Some(ScriptContent(compiled.value, isModule))
  }

  lemma ScriptContentBlank(tools: Toolchain, content: string, path: string, manifest: Option<Manifest>)
    requires IsBlank(content)
    ensures ScriptContentWith(tools, content, path, ForcesModule(manifest), IncludesJsx(manifest)) ==
      Some(ScriptContent(content, ToLower(ExtName(path)) == ".mjs"))
  {
    TrimEmptyIffBlank(content);
  }

  lemma ScriptContentCompiled(tools: Toolchain, content: string, path: string, manifest: Option<Manifest>)
    requires !IsBlank(content)
    ensures var extension, r := ToLower(ExtName(path)), ScriptContentWith(tools, content, path, ForcesModule(manifest), IncludesJsx(manifest));
      var compiled := CompileScriptContent(tools, content, extension, RunsAsModule(content, extension, manifest), IncludesJsx(manifest));
      && (r.None? <==> compiled.None? || compiled.value == "")
      && (r.Some? ==> r.value.isModule == RunsAsModule(content, extension, manifest) && r.value.code != "")
  {
    TrimEmptyIffBlank(content);
  }

  /** With no manifest, or a manifest without `scripts`, the script is
      compiled exactly as if the manifest listed React: the JSX handling is on. */
  lemma MissingScriptsActAsReact(tools: Toolchain, content: string, path: string, manifest: Option<Manifest>)
    requires manifest.None? || manifest.value.scripts.None?
    ensures var listed := if manifest.Some? then manifest.value.(scripts := Some(["react"])) else Empty.(scripts := Some(["react"]));
      GetScriptContent(tools, content, path, manifest) == GetScriptContent(tools, content, path, Some(listed))
  {
    var listed := if manifest.Some? then manifest.value.(scripts := Some(["react"])) else Empty.(scripts := Some(["react"]));
    assert IncludesJsx(Some(listed)) by {
      assert listed.scripts.value[0] == "react";
    }
    SameScriptContent(tools, content, path, manifest, Some(listed));
  }

  /** The script depends on the manifest only through its `scriptType` and
      whether JSX handling is on. */
  lemma SameScriptContent(tools: Toolchain, content: string, path: string, a: Option<Manifest>, b: Option<Manifest>)
    requires IncludesJsx(a) == IncludesJsx(b) && ForcesModule(a) == ForcesModule(b)
    ensures GetScriptContent(tools, content, path, a) == GetScriptContent(tools, content, path, b)
  {
  }

  /** The index of the alternative of `FromModule` a quote selects. */
  function QuoteIndex(quote: char): nat {
    if quote == '"' then 0 else 1
  }

  /** The greedy JSX bindings: `import <clause> from "react"` on a line of its
      own becomes `const <clause> = React`. */
  lemma BindReactImportLine(clause: string, quote: char)
    requires |clause| > 0 && forall c :: c in clause ==> !IsLineTerminator(c)
    requires quote == '"' || quote == '\''
    ensures BindReactImport("import " + clause + FromModule(" from ", "react")[QuoteIndex(quote)]) == "const " + clause + " = React"
  {
    var choices := FromModule(" from ", "react");
    var s := "import " + clause + choices[QuoteIndex(quote)];
    assert s[7 + |clause|..] == choices[QuoteIndex(quote)];
    QuotedChoice(s, 7 + |clause|, " from ", "react", quote);
    ReplaceWholeMatch(s, "import ", clause, AnyButLineTerminator, 1, choices, QuoteIndex(quote), 7 + |clause|, "const ", " = React");
  }

  /** `import React, {<names>} from "react"` on a line of its own becomes
      `const {<names>} = React`. */
  lemma DestructureReactImportLine(names: string, quote: char)
    requires |names| > 0 && forall c :: c in names ==> !IsLineTerminator(c)
    requires quote == '"' || quote == '\''
    ensures DestructureReactImport("import React, {" + names + FromModule("} from ", "react")[QuoteIndex(quote)]) ==
      "const {" + names + "} = React"
  {
    var choices := FromModule("} from ", "react");
    var s := "import React, {" + names + choices[QuoteIndex(quote)];
    assert s[15 + |names|..] == choices[QuoteIndex(quote)];
    QuotedChoice(s, 15 + |names|, "} from ", "react", quote);
    ReplaceWholeMatch(s, "import React, {", names, AnyButLineTerminator, 1, choices, QuoteIndex(quote), 15 + |names|, "const {", "} = React");
  }

  /** `import React from "react"` or `import * as React from 'react'`. */
  function ReactDefaultImport(star: bool, quote: char): string {
    FromModule(if star then "import * as React from " else "import React from ", "react")[QuoteIndex(quote)]
  }

  /** A React default import at the start of the code is removed, and the
      later rewrites see only the text after it. */
  lemma RewriteDropsLeadingReactImport(star: bool, quote: char, rest: string)
    requires quote == '"' || quote == '\''
    ensures RewriteReactImports(ReactDefaultImport(star, quote) + rest) ==
      ShimReactNative(BindReactImport(DestructureReactImport(DropReactDomImport(rest))))
  {
    DropLeadingReactImport(star, quote, rest);
  }

  lemma {:induction false} DropLeadingReactImport(star: bool, quote: char, rest: string)
    requires quote == '"' || quote == '\''
    ensures DropReactImport(ReactDefaultImport(star, quote) + rest) == rest
  {
    var line := ReactDefaultImport(star, quote);
    var s := line + rest;
    var choices := FromModule("import * as React from ", "react") + FromModule("import React from ", "react");
    var k := (if star then 0 else 2) + QuoteIndex(quote);
    assert choices[k] == line;
    assert s[..|line|] == line;
    assert OccursAt(s, choices[k], 0);
    var n := ChoiceAt(s, 0, choices).value;
    assert FirstChoice(s, 0, choices) == Some(0);
    assert s[7] == choices[k][7];
    assert choices[n][7] == s[7];
    assert |choices[n]| == |line|;
    assert s[..0] + "" + s[|line|..] == rest;
  }

  /** The quote decides which alternative of `FromModule` matches. */
  lemma QuotedChoice(s: string, j: nat, literal: string, specifier: string, quote: char)
    requires quote == '"' || quote == '\''
    requires j <= |s| && s[j..] == FromModule(literal, specifier)[QuoteIndex(quote)]
    ensures ChoiceAt(s, j, FromModule(literal, specifier)) == Some(QuoteIndex(quote))
  {
    var choices := FromModule(literal, specifier);
    assert choices[0][|literal|] == '"' && choices[1][|literal|] == '\'';
    assert OccursAt(s, choices[QuoteIndex(quote)], j);
    if quote == '\'' {
      assert s[j + |literal|] == '\'';
      assert !OccursAt(s, choices[0], j);
    }
  }
}
