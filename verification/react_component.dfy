/** React single-file components (`components/react.ts`): the component's code
    is compiled like a swing script and mounted into the `app` element. */
module ReactComponent {
  import opened Wrappers
  import opened Strings
  import opened Patterns
  import opened Tools
  import Script

  /** `\w` */
  predicate IsWordChar(c: char) {
    ('a' <= c <= 'z') || ('A' <= c <= 'Z') || ('0' <= c <= '9') || c == '_'
  }

  /** The end of the run of word characters that starts at `from`: the
      greedy `(\w+)`. */
  function WordEnd(s: string, from: nat): (r: nat)
    requires from <= |s|
    ensures from <= r <= |s|
    ensures forall k :: from <= k < r ==> IsWordChar(s[k])
    ensures r < |s| ==> !IsWordChar(s[r])
    decreases |s| - from
  {
    if from == |s| || !IsWordChar(s[from]) then from else WordEnd(s, from + 1)
  }

  /** `export\sdefault\s` at index `i`. */
  predicate ExportDefaultAt(s: string, i: int) {
    OccursAt(s, "export", i) && i + 15 <= |s| && IsWhitespace(s[i + 6])
    && OccursAt(s, "default", i + 7) && IsWhitespace(s[i + 14])
  }

  /** Where the optional `(?:(?:class|function)\s)?` leaves off, from index `a`:
      the keyword and its whitespace are skipped when both are there. */
  function AfterKeyword(s: string, a: nat): (r: nat)
    requires a <= |s|
    ensures a <= r <= |s|
  {
    if OccursAt(s, "class", a) && a + 5 < |s| && IsWhitespace(s[a + 5]) then a + 6
    else if OccursAt(s, "function", a) && a + 8 < |s| && IsWhitespace(s[a + 8]) then a + 9
    else a
  }

  /** The leftmost `export default` at or after `from`. */
  function FirstExportDefault(s: string, from: nat): (r: Option<nat>)
    requires from <= |s|
    ensures r.Some? ==> from <= r.value && ExportDefaultAt(s, r.value)
    ensures r.Some? ==> forall i :: from <= i < r.value ==> !ExportDefaultAt(s, i)
    ensures r.None? ==> forall i :: from <= i ==> !ExportDefaultAt(s, i)
    decreases |s| - from
  {
    if ExportDefaultAt(s, from) then Some(from)
    else if from == |s| then None
    else FirstExportDefault(s, from + 1)
  }

  /** `getComponentName`: `None` when `export default` does not occur (the
      destructuring of a null match throws); otherwise the optional `(\w+)`
      group, absent (`undefined`) when no word character follows. */
  function ComponentName(code: string): (r: Option<Option<string>>)
    ensures r.None? <==> forall i :: 0 <= i ==> !ExportDefaultAt(code, i)
    ensures r.Some? && r.value.Some? ==> |r.value.value| > 0 && forall c :: c in r.value.value ==> IsWordChar(c)
  {
    match FirstExportDefault(code, 0)
    case None => None
    case Some(i) =>
      var b := AfterKeyword(code, i + 15);
      var e := WordEnd(code, b);
      if e == b then Some(None) else Some(Some(code[b..e]))
  }

  /** The name as the template literal prints it. */
  function NameText(name: Option<string>): string {
    match name
    case None => "undefined"
    case Some(n) => n
  }

  /** The init snippet that mounts the component. */
  function InitSnippet(name: Option<string>): string {
    "ReactDOM.render(React.createElement(" + NameText(name) + "), document.getElementById(\"app\"));"
  }

  /** `compileComponent`: the document's `text` (the source reads the document,
      not its own `content` argument) compiled as a script with no manifest, and
      the init snippet; `None` where the code throws (a null compile result, or
      no `export default`). */
  function CompileComponent(tools: Toolchain, text: string, path: string): (r: Option<(string, string)>)
    ensures r.Some? ==> (Script.GetScriptContent(tools, text, path, None).Some?
      && r.value.0 == Script.GetScriptContent(tools, text, path, None).value.code)
    ensures r.Some? ==> ComponentName(r.value.0).Some? && r.value.1 == InitSnippet(ComponentName(r.value.0).value)
    ensures Script.GetScriptContent(tools, text, path, None).None? ==> r.None?
  {
    match Script.GetScriptContent(tools, text, path, None)
    case None => None
    case Some(compiled) =>
      match ComponentName(compiled.code)
      case None => None
      case Some(name) => Some((compiled.code, InitSnippet(name)))
  }

  /** The name follows `export default`, skipping a `class` or `function`
      keyword: for code that starts `export default <kw> <Name>` the name is
      found. */
  lemma NamedExport(keyword: string, name: string, rest: string)
    requires keyword == "" || keyword == "class " || keyword == "function "
    requires |name| > 0 && forall c :: c in name ==> IsWordChar(c)
    requires rest == [] || !IsWordChar(rest[0])
    requires keyword == "" ==> name != "class" && name != "function"
    ensures ComponentName("export default " + keyword + name + rest) == Some(Some(name))
  {
    var head := "export default " + keyword;
    var code := head + name + rest;
    ExportDefaultAtStart(code, keyword + name + rest);
    SkipsKeyword(keyword, name, rest);
    WordAfter(code, head, name, rest, 15 + |keyword|);
    NameAt(code, 15 + |keyword|, 15 + |keyword| + |name|);
  }

  /** Code that starts with `export default ` has its export at index 0. */
  lemma ExportDefaultAtStart(code: string, tail: string)
    requires code == "export default " + tail
    ensures ExportDefaultAt(code, 0)
  {
    assert code[..6] == "export" && code[7..14] == "default";
  }

  /** A word between a head and a non-word character is the whole word run. */
  lemma WordAfter(code: string, head: string, name: string, rest: string, b: nat)
    requires code == head + name + rest && b == |head|
    requires forall c :: c in name ==> IsWordChar(c)
    requires rest == [] || !IsWordChar(rest[0])
    ensures WordEnd(code, b) == b + |name| && code[b..b + |name|] == name
  {
    forall k | b <= k < b + |name| ensures IsWordChar(code[k]) {
      assert code[k] == name[k - b];
    }
    WordEndAt(code, b, b + |name|);
  }

  /** The name read once the export is at 0 and the word run is known. */
  lemma NameAt(code: string, b: nat, e: nat)
    requires ExportDefaultAt(code, 0) && AfterKeyword(code, 15) == b && b < e <= |code| && WordEnd(code, b) == e
    ensures ComponentName(code) == Some(Some(code[b..e]))
  {
  }

  lemma SkipsKeyword(keyword: string, name: string, rest: string)
    requires keyword == "" || keyword == "class " || keyword == "function "
    requires |name| > 0 && forall c :: c in name ==> IsWordChar(c)
    requires rest == [] || !IsWordChar(rest[0])
    requires keyword == "" ==> name != "class" && name != "function"
    ensures AfterKeyword("export default " + keyword + name + rest, 15) == 15 + |keyword|
  {
    var code := "export default " + keyword + name + rest;
    assert code[15..] == keyword + name + rest;
    if keyword == "class " {
      assert code[15..20] == "class";
    } else if keyword == "function " {
      assert code[15..23] == "function";
      assert !OccursAt(code, "class", 15) by {
        assert code[15] == 'f';
      }
    } else {
      KeywordNotSkipped(code, name, rest);
    }
  }

  /** A name other than the keywords themselves is not taken for a keyword. */
  lemma KeywordNotSkipped(code: string, name: string, rest: string)
    requires code == "export default " + name + rest
    requires |name| > 0 && forall c :: c in name ==> IsWordChar(c)
    requires rest == [] || !IsWordChar(rest[0])
    requires name != "class" && name != "function"
    ensures AfterKeyword(code, 15) == 15
  {
    NotKeyword(code, name, rest, "class");
    NotKeyword(code, name, rest, "function");
  }

  lemma NotKeyword(code: string, name: string, rest: string, keyword: string)
    requires code == "export default " + name + rest
    requires |name| > 0 && forall c :: c in name ==> IsWordChar(c)
    requires rest == [] || !IsWordChar(rest[0])
    requires name != keyword && (keyword == "class" || keyword == "function")
    ensures !(OccursAt(code, keyword, 15) && 15 + |keyword| < |code| && IsWhitespace(code[15 + |keyword|]))
  {
    var k := |keyword|;
    if |name| > k {
      assert code[15 + k] == name[k] && name[k] in name;
      assert !IsWhitespace(code[15 + k]);
    } else if |name| == k {
      assert code[15..15 + k] == name;
    } else if 15 + k <= |code| {
      assert code[15 + |name|] == rest[0];
      assert code[15..15 + k][|name|] != keyword[|name|];
    }
  }

  /** The word run is exactly the given one when a non-word character ends it. */
  lemma {:induction false} WordEndAt(s: string, from: nat, j: nat)
    requires from <= j <= |s| && forall k :: from <= k < j ==> IsWordChar(s[k])
    requires j == |s| || !IsWordChar(s[j])
    ensures WordEnd(s, from) == j
    decreases |s| - from
  {
    if from < j {
      WordEndAt(s, from + 1, j);
    }
  }

  /** Code without `export default` has no component name: the call throws. */
  lemma NoDefaultExport(code: string)
    requires !Contains(code, "export")
    ensures ComponentName(code).None?
  {
    forall i | 0 <= i ensures !ExportDefaultAt(code, i) {
      assert !OccursAt(code, "export", i);
    }
  }
}
