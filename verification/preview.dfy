/** The swing directory classifier of `openSwing`: which listing entry plays
    which role, whether an open document belongs to the active swing, and how a
    tutorial's step directory and manifest are resolved. */
module Preview {
  import opened Wrappers
  import opened Strings
  import opened Host
  import opened Manifests
  import LanguageProvider
  import Markup
  import Script
  import Stylesheet
  import Readme
  import TutorialStorage

  /** `SWING_FILE` */
  const SwingFile: string := "codeswing.json"
  /** `TOUR_FILE` */
  const TourFileName: string := "main.tour"
  /** `CONFIG_FILE` */
  const ConfigFileName: string := "config.json"
  /** `INPUT_SCHEME` */
  const InputScheme: string := "codeswing-input"

  /** `SwingFileType` */
  datatype SwingFileType = ConfigFile | MarkupFile | ScriptFile | StylesheetFile | ManifestFile | ReadmeFile | TourFile

  /** `extensions.map(extension => base + extension)` */
  function Named(base: string, extensions: seq<string>): (r: seq<string>)
    ensures |r| == |extensions| && forall i :: 0 <= i < |r| ==> r[i] == base + extensions[i]
  {
    seq(|extensions|, i requires 0 <= i < |extensions| => base + extensions[i])
  }

  /** The candidate names `getFileOfType` accepts for a role. */
  function Candidates(registry: LanguageProvider.Registry, fileType: SwingFileType): seq<string> {
    match fileType
    case MarkupFile => Markup.CandidateFilenames(registry)
    case ScriptFile => Named(Script.BaseName, Script.Extensions)
    case ReadmeFile => Named(Readme.BaseName, Readme.Extensions)
    case ManifestFile => Named(SwingFile, [""])
    case TourFile => Named(TourFileName, [""])
    case ConfigFile => Named(ConfigFileName, [""])
    case StylesheetFile => Named(Stylesheet.BaseName, Stylesheet.Extensions)
  }

  /** The candidate names `isSwingDocumentOfType` accepts: its switch has no
      tour case, so a tour request falls through to the stylesheet default. */
  function DocumentCandidates(registry: LanguageProvider.Registry, fileType: SwingFileType): seq<string> {
    if fileType == TourFile then Candidates(registry, StylesheetFile) else Candidates(registry, fileType)
  }

  /** The fixed candidate tables: base name plus each extension, in table order,
      and exactly one name for the manifest, the tour and the config file. */
  lemma CandidateTables(registry: LanguageProvider.Registry)
    ensures Candidates(registry, ManifestFile) == ["codeswing.json"]
    ensures Candidates(registry, TourFile) == ["main.tour"]
    ensures Candidates(registry, ConfigFile) == ["config.json"]
    ensures Candidates(registry, ScriptFile) ==
      ["script.js", "script.mjs", "script.ts", "script.babel", "script.jsx", "script.tsx"]
    ensures Candidates(registry, StylesheetFile) == ["style.css", "style.less", "style.sass", "style.scss"]
    ensures Candidates(registry, ReadmeFile) == ["README.md", "README.markdown"]
    ensures Candidates(registry, MarkupFile)[..3] == ["index.html", "index.md", "index.pug"]
  {
    SingleNameTables(registry);
    ScriptTable(registry);
    StylesheetTable(registry);
    ReadmeTable(registry);
    MarkupTable(registry);
  }

  lemma SingleNameTables(registry: LanguageProvider.Registry)
    ensures Candidates(registry, ManifestFile) == ["codeswing.json"]
    ensures Candidates(registry, TourFile) == ["main.tour"]
    ensures Candidates(registry, ConfigFile) == ["config.json"]
  {
    NamedTable(SwingFile, [""], ["codeswing.json"]);
    NamedTable(TourFileName, [""], ["main.tour"]);
    NamedTable(ConfigFileName, [""], ["config.json"]);
  }

  lemma ScriptTable(registry: LanguageProvider.Registry)
    ensures Candidates(registry, ScriptFile) ==
      ["script.js", "script.mjs", "script.ts", "script.babel", "script.jsx", "script.tsx"]
  {
    Script.ExtensionTables();
    NamedTable(Script.BaseName, Script.Extensions,
               ["script.js", "script.mjs", "script.ts", "script.babel", "script.jsx", "script.tsx"]);
  }

  lemma StylesheetTable(registry: LanguageProvider.Registry)
    ensures Candidates(registry, StylesheetFile) == ["style.css", "style.less", "style.sass", "style.scss"]
  {
    NamedTable(Stylesheet.BaseName, Stylesheet.Extensions, ["style.css", "style.less", "style.sass", "style.scss"]);
  }

  lemma ReadmeTable(registry: LanguageProvider.Registry)
    ensures Candidates(registry, ReadmeFile) == ["README.md", "README.markdown"]
  {
    NamedTable(Readme.BaseName, Readme.Extensions, ["README.md", "README.markdown"]);
  }

  lemma MarkupTable(registry: LanguageProvider.Registry)
    ensures Candidates(registry, MarkupFile)[..3] == ["index.html", "index.md", "index.pug"]
  {
    var markup := Candidates(registry, MarkupFile);
    assert markup[0] == "index.html" && markup[1] == "index.md" && markup[2] == "index.pug";
  }

  lemma NamedTable(base: string, extensions: seq<string>, expected: seq<string>)
    requires |expected| == |extensions| && forall i :: 0 <= i < |expected| ==> expected[i] == base + extensions[i]
    ensures Named(base, extensions) == expected
  {
  }

  /** The position of the first element satisfying `p`. */
  function FirstWhere(files: seq<string>, p: string -> bool): (r: Option<nat>)
    ensures r.Some? ==> r.value < |files| && p(files[r.value])
    ensures r.Some? ==> forall j :: 0 <= j < r.value ==> !p(files[j])
    ensures r.None? <==> forall j :: 0 <= j < |files| ==> !p(files[j])
  {
    if |files| == 0 then None
    else if p(files[0]) then Some(0)
    else match FirstWhere(files[1..], p)
      case None => None
      case Some(i) => Some(i + 1)
  }

  /** `getFileOfType`: the first listing entry, in listing order, equal to any
      candidate of the role. (The source joins this name to the directory URI.) */
  function FileOfType(registry: LanguageProvider.Registry, files: seq<string>, fileType: SwingFileType): (r: Option<string>)
    ensures r.None? <==> forall j :: 0 <= j < |files| ==> files[j] !in Candidates(registry, fileType)
    ensures r.Some? ==> r.value in Candidates(registry, fileType)
    ensures r.Some? ==> exists i :: 0 <= i < |files| && files[i] == r.value &&
                          forall j :: 0 <= j < i ==> files[j] !in Candidates(registry, fileType)
  {
    var candidates := Candidates(registry, fileType);
    match FirstWhere(files, f => f in candidates)
    case None => None
    case Some(i) => Some(files[i])
  }

  /** The choice depends only on which names are candidates, never on the
      order of the extension table. */
  lemma {:induction false} FirstWhereIgnoresCandidateOrder(files: seq<string>, a: seq<string>, b: seq<string>)
    requires forall f :: f in a <==> f in b
    ensures FirstWhere(files, f => f in a) == FirstWhere(files, f => f in b)
  {
    if |files| > 0 {
      FirstWhereIgnoresCandidateOrder(files[1..], a, b);
      assert (files[0] in a) == (files[0] in b);
    }
  }

  /** Listing order beats extension priority: with both `script.ts` and
      `script.js` present, whichever is listed first is the script. */
  lemma ListingOrderWins(registry: LanguageProvider.Registry)
    ensures FileOfType(registry, ["script.ts", "script.js"], ScriptFile) == Some("script.ts")
    ensures FileOfType(registry, ["README.markdown", "README.md"], ReadmeFile) == Some("README.markdown")
  {
    ScriptTable(registry);
    ReadmeTable(registry);
  }

  /** `localeCompare(a, b)` at base sensitivity, taken as ASCII case folding. */
  predicate SameIgnoringCase(a: string, b: string) {
    ToUpper(a) == ToUpper(b)
  }

  /** `isSwingDocument`: same scheme, authority and query ignoring case, and the
      upper-cased document path starts with the upper-cased swing path. */
  predicate IsSwingDocument(swing: Uri, document: Uri) {
    && SameIgnoringCase(swing.scheme, document.scheme)
    && SameIgnoringCase(swing.authority, document.authority)
    && SameIgnoringCase(swing.query, document.query)
    && StartsWith(ToUpper(document.path), ToUpper(swing.path))
  }

  /** `isSwingDocumentOfType`: a swing document whose base name is a candidate. */
  predicate IsSwingDocumentOfType(registry: LanguageProvider.Registry, swing: Uri, document: Uri, fileType: SwingFileType) {
    IsSwingDocument(swing, document) && BaseName(document.path) in DocumentCandidates(registry, fileType)
  }

  /** `Uri.joinPath(directory, name)` for a plain file name. */
  function JoinPath(directory: Uri, name: string): (r: Uri)
    ensures r.scheme == directory.scheme && r.authority == directory.authority && r.query == directory.query
    ensures StartsWith(r.path, directory.path) && EndsWith(r.path, name)
  {
    if EndsWith(directory.path, "/") then directory.(path := directory.path + name)
    else directory.(path := directory.path + "/" + name)
  }

  lemma StartsWithUpper(s: string, prefix: string)
    requires StartsWith(s, prefix)
    ensures StartsWith(ToUpper(s), ToUpper(prefix))
  {
    assert ToUpper(s)[..|prefix|] == ToUpper(prefix);
  }

  lemma BaseNameOfJoin(directory: string, name: string)
    requires forall k :: 0 <= k < |name| ==> name[k] != '/'
    requires EndsWith(directory, "/")
    ensures BaseName(directory + name) == name
  {
    var path := directory + name;
    assert path[|directory| - 1] == '/';
    forall j | |directory| <= j < |path| ensures path[j] != '/' {
      assert path[j] == name[j - |directory|];
    }
    var i := LastIndexOfChar(path, '/').value;
    assert i == |directory| - 1;
    assert path[i + 1..] == name;
  }

  /** The base name of a name joined to a directory is the name. */
  lemma JoinedBaseName(directory: Uri, name: string)
    requires forall k :: 0 <= k < |name| ==> name[k] != '/'
    ensures BaseName(JoinPath(directory, name).path) == name
  {
    if EndsWith(directory.path, "/") {
      BaseNameOfJoin(directory.path, name);
    } else {
      assert directory.path + "/" + name == (directory.path + "/") + name;
      BaseNameOfJoin(directory.path + "/", name);
    }
  }

  /** Everything joined under the swing directory is a swing document. */
  lemma JoinedIsSwingDocument(swing: Uri, name: string)
    ensures IsSwingDocument(swing, JoinPath(swing, name))
  {
    StartsWithUpper(JoinPath(swing, name).path, swing.path);
  }

  /** Belonging to a swing is a preorder: the swing directory belongs to
      itself, and a document under a directory that belongs to the swing
      belongs to the swing too. */
  lemma SwingDocumentPreorder(a: Uri, b: Uri, c: Uri)
    ensures IsSwingDocument(a, a)
    ensures IsSwingDocument(a, b) && IsSwingDocument(b, c) ==> IsSwingDocument(a, c)
  {
    assert ToUpper(a.path)[..|ToUpper(a.path)|] == ToUpper(a.path);
    if IsSwingDocument(a, b) && IsSwingDocument(b, c) {
      var ua, ub, uc := ToUpper(a.path), ToUpper(b.path), ToUpper(c.path);
      assert uc[..|ua|] == uc[..|ub|][..|ua|] == ub[..|ua|] == ua;
    }
  }

  /** The file `getFileOfType` opens for a role is recognised as a document of
      that role (the tour role excepted, which the document test lacks). */
  lemma OpenedFileHasType(registry: LanguageProvider.Registry, swing: Uri, files: seq<string>, fileType: SwingFileType, name: string)
    requires fileType != TourFile
    requires FileOfType(registry, files, fileType) == Some(name)
    requires forall k :: 0 <= k < |name| ==> name[k] != '/'
    ensures IsSwingDocumentOfType(registry, swing, JoinPath(swing, name), fileType)
  {
    JoinedIsSwingDocument(swing, name);
    JoinedBaseName(swing, name);
  }

  /** A tour request is answered with the stylesheet candidates, so the tour
      file itself is not recognised as the tour. */
  lemma TourDocumentsUseStylesheetNames(registry: LanguageProvider.Registry, swing: Uri, document: Uri)
    ensures IsSwingDocumentOfType(registry, swing, document, TourFile) ==
            IsSwingDocumentOfType(registry, swing, document, StylesheetFile)
    ensures !IsSwingDocumentOfType(registry, swing, JoinPath(swing, TourFileName), TourFile)
  {
    TourNameIsNoStylesheet(registry);
    TourNameIsPlain();
    JoinedBaseName(swing, TourFileName);
  }

  lemma TourNameIsNoStylesheet(registry: LanguageProvider.Registry)
    ensures TourFileName !in Candidates(registry, StylesheetFile)
  {
    var names := Candidates(registry, StylesheetFile);
    StylesheetTable(registry);
    assert forall k :: 0 <= k < |names| ==> names[k][0] == 's';
  }

  lemma TourNameIsPlain()
    ensures forall k :: 0 <= k < |TourFileName| ==> TourFileName[k] != '/'
  {
  }

  // ---------------------------------------------------------------------------
  // Tutorial steps

  predicate IsDigit(c: char) {
    '0' <= c <= '9'
  }

  /** The end of the run of digits starting at `i`. */
  function DigitsEnd(s: string, i: nat): (r: nat)
    requires i <= |s|
    ensures i <= r <= |s| && (r == |s| || !IsDigit(s[r]))
    ensures forall k :: i <= k < r ==> IsDigit(s[k])
    decreases |s| - i
  {
    if i < |s| && IsDigit(s[i]) then DigitsEnd(s, i + 1) else i
  }

  /** The number a string of decimal digits denotes (`Number("007") == 7`). */
  function DigitsValue(digits: string): nat
    requires forall k :: 0 <= k < |digits| ==> IsDigit(digits[k])
  {
    if |digits| == 0 then 0
    else
      assert IsDigit(digits[|digits| - 1]);
      10 * DigitsValue(digits[..|digits| - 1]) + (digits[|digits| - 1] as int - '0' as int)
  }

  /** Where the step digits start: after one optional leading `#`. */
  function StepStart(name: string): nat {
    if |name| > 0 && name[0] == '#' then 1 else 0
  }

  /** The `step` group of `TUTORIAL_STEP_PATTERN` (`^#?(\d+)[^\/]*`), as a number,
      or `None` when the name does not match. */
  function StepNumber(name: string): Option<nat> {
    var start := StepStart(name);
    var end := DigitsEnd(name, start);
    if start == end then None else Some(DigitsValue(name[start..end]))
  }

  /** `${n}` for an integer. */
  function Decimal(n: int): (r: string)
    ensures |r| > 0
    decreases if n < 0 then 1 - n else n
  {
    if n < 0 then "-" + Decimal(-n)
    else if n < 10 then [('0' as int + n) as char]
    else Decimal(n / 10) + [('0' as int + n % 10) as char]
  }

  lemma {:induction false} DecimalDigits(n: nat)
    ensures forall k :: 0 <= k < |Decimal(n)| ==> IsDigit(Decimal(n)[k])
    ensures DigitsValue(Decimal(n)) == n
  {
    if n >= 10 {
      DecimalDigits(n / 10);
      var d := Decimal(n);
      assert d[..|d| - 1] == Decimal(n / 10);
    }
  }

  /** A step directory named `<n><rest>` or `#<n><rest>`, where `rest` does not
      begin with a digit, is step `n`: the decimal rendering of a step and the
      step pattern are inverse to each other. */
  lemma {:induction false} StepNumberOfName(n: nat, hash: bool, rest: string)
    requires rest == [] || !IsDigit(rest[0])
    ensures StepNumber((if hash then "#" else "") + Decimal(n) + rest) == Some(n)
  {
    var d := Decimal(n);
    var name := (if hash then "#" else "") + d + rest;
    var start := if hash then 1 else 0;
    DecimalDigits(n);
    assert name[start..start + |d|] == d;
    assert name[start + |d|..] == rest;
    StepNumberAt(name, start, d);
  }

  lemma StepNumberAt(name: string, start: nat, d: string)
    requires start + |d| <= |name| && name[start..start + |d|] == d && |d| > 0
    requires forall k :: 0 <= k < |d| ==> IsDigit(d[k])
    requires start <= 1 && (start == 1 <==> name[0] == '#')
    requires start + |d| == |name| || !IsDigit(name[start + |d|])
    ensures StepNumber(name) == Some(DigitsValue(d))
  {
    forall k | start <= k < start + |d| ensures IsDigit(name[k]) {
      assert name[k] == d[k - start];
    }
    DigitsEndAt(name, start, start + |d|);
  }

  lemma DigitsEndAt(s: string, i: nat, e: nat)
    requires i <= e <= |s|
    requires forall k :: i <= k < e ==> IsDigit(s[k])
    requires e == |s| || !IsDigit(s[e])
    ensures DigitsEnd(s, i) == e
    decreases e - i
  {
    if i < e {
      DigitsEndAt(s, i + 1, e);
    }
  }

  /** `totalTutorialSteps`: the reduce over the matching entries, keeping the
      larger step, from 0. */
  function TotalTutorialSteps(files: seq<string>): (r: nat)
    ensures forall i :: 0 <= i < |files| && StepNumber(files[i]).Some? ==> StepNumber(files[i]).value <= r
    ensures r == 0 || exists i :: 0 <= i < |files| && StepNumber(files[i]) == Some(r)
  {
    if |files| == 0 then 0
    else
      var rest := TotalTutorialSteps(files[1..]);
      assert forall i :: 1 <= i < |files| ==> files[i] == files[1..][i - 1];
      match StepNumber(files[0])
      case Some(step) => if step > rest then step else rest
      case None => rest
  }

  /** `name` matches the step pattern with step number `step`. */
  predicate IsStep(name: string, step: int) {
    step >= 0 && StepNumber(name) == Some(step as nat)
  }

  /** The regular expression `^#?<step>`: the name starts with the step's
      decimal text, optionally after a `#`. */
  predicate HasStepPrefix(name: string, step: int) {
    StartsWith(name, Decimal(step)) || StartsWith(name, "#" + Decimal(step))
  }

  /** The step directory as written: the first entry matching
      `new RegExp("^#?" + step)`, a plain prefix test. */
  function StepDirectoryAsWritten(files: seq<string>, step: int): (r: Option<string>)
    ensures r.None? <==> forall j :: 0 <= j < |files| ==> !HasStepPrefix(files[j], step)
    ensures r.Some? ==> exists i :: 0 <= i < |files| && files[i] == r.value && HasStepPrefix(files[i], step) &&
                                    forall j :: 0 <= j < i ==> !HasStepPrefix(files[j], step)
  {
    match FirstWhere(files, f => HasStepPrefix(f, step))
    case None => None
    case Some(i) => Some(files[i])
  }

  /** The step directory as intended: the first entry whose step number is `step`. */
  function StepDirectory(files: seq<string>, step: int): (r: Option<string>)
    ensures r.None? <==> forall j :: 0 <= j < |files| ==> !IsStep(files[j], step)
    ensures r.Some? ==> exists i :: 0 <= i < |files| && files[i] == r.value && IsStep(files[i], step) &&
                                    forall j :: 0 <= j < i ==> !IsStep(files[j], step)
  {
    match FirstWhere(files, f => IsStep(f, step))
    case None => None
    case Some(i) => Some(files[i])
  }

  /** In a listing sorted by name, step 1 opens step 10: `"10_end"` sorts before
      `"1_intro"` and `^#?1` matches it. The intended lookup opens `"1_intro"`. */
  lemma StepOneOpensStepTen()
    ensures StepDirectoryAsWritten(["10_end", "1_intro"], 1) == Some("10_end")
    ensures StepDirectory(["10_end", "1_intro"], 1) == Some("1_intro")
  {
    assert Decimal(1) == "1";
    assert Decimal(10) == "10";
    StepNumberOfName(10, false, "_end");
    StepNumberOfName(1, false, "_intro");
    assert "10_end" == "" + Decimal(10) + "_end";
    assert "1_intro" == "" + Decimal(1) + "_intro";
    assert StartsWith("10_end", Decimal(1));
  }

  /** A step directory named after its step is found by the intended lookup. */
  lemma StepDirectoryFindsNamedStep(files: seq<string>, n: nat, rest: string)
    requires rest == [] || !IsDigit(rest[0])
    requires Decimal(n) + rest in files
    ensures StepDirectory(files, n).Some?
  {
    StepNumberOfName(n, false, rest);
    assert "" + Decimal(n) + rest == Decimal(n) + rest;
  }

  // ---------------------------------------------------------------------------
  // Manifest resolution

  /** The root manifest: the parsed `codeswing.json` when the listing has one
      and its text reads and parses; `{}` otherwise (the `catch` swallows both). */
  function RootManifest(registry: LanguageProvider.Registry, files: seq<string>, text: Option<string>, parse: Parser): (r: Manifest)
    ensures SwingFile !in files ==> r == Empty
    ensures SwingFile in files && text.Some? && parse(text.value).Some? ==> r == parse(text.value).value
    ensures text.None? || parse(text.value).None? ==> r == Empty
  {
    SingleNameTables(registry);
    if FileOfType(registry, files, ManifestFile).None? then Empty
    else match text
      case None => Empty
      case Some(t) => parse(t).GetOr(Empty)
  }

  /** `if (manifest.tutorial)`: present and not the empty string. */
  predicate IsTutorial(m: Manifest) {
    m.tutorial.Some? && m.tutorial.value != ""
  }

  /** The step manifest spread over the root manifest. Without a step manifest
      the root one stands; a step manifest that cannot be read or parsed throws
      out of `openSwing` (`None`). */
  function MergeStepManifest(registry: LanguageProvider.Registry, root: Manifest, stepFiles: seq<string>,
                             text: Option<string>, parse: Parser): (r: Option<Manifest>)
    ensures SwingFile !in stepFiles ==> r == Some(root)
    ensures SwingFile in stepFiles ==> (r.Some? <==> text.Some? && parse(text.value).Some?)
    ensures SwingFile in stepFiles && r.Some? ==> r.value == Spread(root, parse(text.value).value)
  {
    SingleNameTables(registry);
    if FileOfType(registry, stepFiles, ManifestFile).None? then Some(root)
    else
      var t :- text;
      var step :- parse(t);
      Some(Spread(root, step))
  }

  /** A step manifest's keys win and the root's other keys survive the merge. */
  lemma StepManifestWins(registry: LanguageProvider.Registry, root: Manifest, stepFiles: seq<string>,
                         text: string, parse: Parser, k: Key)
    requires SwingFile in stepFiles && parse(text).Some?
    ensures var merged := MergeStepManifest(registry, root, stepFiles, Some(text), parse).value;
            Get(merged, k) == if Get(parse(text).value, k).Some? then Get(parse(text).value, k) else Get(root, k)
  {
    SpreadLookup(root, parse(text).value);
  }

  /** The virtual input file: `codeswing-input:///<fileName>` when the manifest
      names a non-empty input file name, "" otherwise. */
  function InputFile(m: Manifest): (r: string)
    ensures r == "" <==> m.input.None? || m.input.value.fileName.None? || m.input.value.fileName.value == ""
    ensures r != "" ==> StartsWith(r, InputScheme + ":///") && EndsWith(r, m.input.value.fileName.value)
  {
    if m.input.Some? && m.input.value.fileName.Some? && m.input.value.fileName.value != "" then
      InputScheme + ":///" + m.input.value.fileName.value
    else ""
  }

  /** The outcome of `openSwing` before anything is shown. */
  datatype Swing = Swing(
    manifest: Manifest,
    stepDirectory: Option<string>,
    currentStep: Option<int>,
    totalSteps: Option<nat>,
    markup: Option<string>,
    stylesheet: Option<string>,
    script: Option<string>,
    readme: Option<string>,
    config: Option<string>,
    inputFile: string,
    includedFiles: nat)

  /** `includedFiles`: how many of markup, stylesheet, script and input are present. */
  function IncludedFiles(markup: bool, stylesheet: bool, script: bool, input: bool): (r: nat)
    ensures r <= 4
    ensures r == 0 <==> !markup && !stylesheet && !script && !input
    ensures r == 4 <==> markup && stylesheet && script && input
  {
    (if markup then 1 else 0) + (if stylesheet then 1 else 0) + (if script then 1 else 0) + (if input then 1 else 0)
  }

  /** `choice` is what a listing offers for a role: absent exactly when no entry
      is a candidate, otherwise an entry of the listing that is a candidate. */
  predicate Picked(registry: LanguageProvider.Registry, files: seq<string>, fileType: SwingFileType, choice: Option<string>) {
    && (choice.None? <==> forall j :: 0 <= j < |files| ==> files[j] !in Candidates(registry, fileType))
    && (choice.Some? ==> choice.value in files && choice.value in Candidates(registry, fileType))
  }

  /** The role files of a (step) directory and the count of editor documents. */
  function Assemble(registry: LanguageProvider.Registry, m: Manifest, stepDirectory: Option<string>,
                    currentStep: Option<int>, totalSteps: Option<nat>, files: seq<string>): (r: Swing)
    ensures r.manifest == m && r.stepDirectory == stepDirectory && r.currentStep == currentStep && r.totalSteps == totalSteps
    ensures r.includedFiles == IncludedFiles(r.markup.Some?, r.stylesheet.Some?, r.script.Some?, r.inputFile != "")
    ensures Picked(registry, files, MarkupFile, r.markup) && Picked(registry, files, StylesheetFile, r.stylesheet)
    ensures Picked(registry, files, ScriptFile, r.script) && Picked(registry, files, ReadmeFile, r.readme)
    ensures Picked(registry, files, ConfigFile, r.config)
    ensures r.inputFile == "" <==> m.input.None? || m.input.value.fileName.None? || m.input.value.fileName.value == ""
  {
    var markup := FileOfType(registry, files, MarkupFile);
    var stylesheet := FileOfType(registry, files, StylesheetFile);
    var script := FileOfType(registry, files, ScriptFile);
    var inputFile := InputFile(m);
    Swing(m, stepDirectory, currentStep, totalSteps, markup, stylesheet, script,
          FileOfType(registry, files, ReadmeFile), FileOfType(registry, files, ConfigFile),
          inputFile, IncludedFiles(markup.Some?, stylesheet.Some?, script.Some?, inputFile != ""))
  }

  /** What `openSwing` reads: the root listing, root files by name, step
      directory listings, and files inside a step directory. */
  datatype Workspace = Workspace(
    files: seq<string>,
    read: string -> Option<string>,
    list: string -> Option<seq<string>>,
    readInStep: (string, string) -> Option<string>)

  /** The resolution part of `openSwing` for the swing whose root URI string is
      `id`, with `lookup` choosing the step directory from the root listing.
      `None` when the source throws: no step directory for the stored step,
      an unreadable step directory, or an unreadable step manifest. */
  function OpenSwingWith(registry: LanguageProvider.Registry, workspace: Workspace, parse: Parser,
                         progress: TutorialStorage.Progress, id: string,
                         lookup: (seq<string>, int) -> Option<string>): (r: Option<Swing>)
    ensures var root := RootManifest(registry, workspace.files, workspace.read(SwingFile), parse);
            !IsTutorial(root) ==> r == Some(Assemble(registry, root, None, None, None, workspace.files))
    ensures r.Some? ==> r.value.includedFiles <= 4
    ensures var root := RootManifest(registry, workspace.files, workspace.read(SwingFile), parse);
            var current := TutorialStorage.CurrentStep(progress, id);
            IsTutorial(root) ==>
              && (lookup(workspace.files, current).None? ==> r.None?)
              && (r.Some? ==>
                    && r.value.stepDirectory == lookup(workspace.files, current)
                    && r.value.currentStep == Some(current)
                    && r.value.totalSteps == Some(TotalTutorialSteps(workspace.files)))
  {
    var root := RootManifest(registry, workspace.files, workspace.read(SwingFile), parse);
    if !IsTutorial(root) then Some(Assemble(registry, root, None, None, None, workspace.files))
    else
      var current := TutorialStorage.CurrentStep(progress, id);
      var total := TotalTutorialSteps(workspace.files);
      var directory :- lookup(workspace.files, current);
      var stepFiles :- workspace.list(directory);
      var m :- MergeStepManifest(registry, root, stepFiles, workspace.readInStep(directory, SwingFile), parse);
      Some(Assemble(registry, m, Some(directory), Some(current), Some(total), stepFiles))
  }

  /** `openSwing` as written: a tutorial opens the first root entry whose name
      starts with the stored step's number, so step 1 may open `10_end`. */
  function OpenSwing(registry: LanguageProvider.Registry, workspace: Workspace, parse: Parser,
                     progress: TutorialStorage.Progress, id: string): (r: Option<Swing>)
    ensures var root := RootManifest(registry, workspace.files, workspace.read(SwingFile), parse);
            !IsTutorial(root) ==> r == Some(Assemble(registry, root, None, None, None, workspace.files))
    ensures r.Some? ==> r.value.includedFiles <= 4
    ensures r.Some? && r.value.stepDirectory.Some? ==>
              && r.value.currentStep == Some(TutorialStorage.CurrentStep(progress, id))
              && r.value.stepDirectory == StepDirectoryAsWritten(workspace.files, r.value.currentStep.value)
              && HasStepPrefix(r.value.stepDirectory.value, r.value.currentStep.value)
              && r.value.totalSteps == Some(TotalTutorialSteps(workspace.files))
  {
    OpenSwingWith(registry, workspace, parse, progress, id, StepDirectoryAsWritten)
  }

  /** `openSwing` with the intended step lookup: the step directory's number
      is exactly the stored step. */
  function OpenSwingIntended(registry: LanguageProvider.Registry, workspace: Workspace, parse: Parser,
                             progress: TutorialStorage.Progress, id: string): (r: Option<Swing>)
    ensures var root := RootManifest(registry, workspace.files, workspace.read(SwingFile), parse);
            !IsTutorial(root) ==> r == Some(Assemble(registry, root, None, None, None, workspace.files))
    ensures r.Some? ==> r.value.includedFiles <= 4
    ensures r.Some? && r.value.stepDirectory.Some? ==>
              && r.value.stepDirectory.value in workspace.files
              && r.value.currentStep == Some(TutorialStorage.CurrentStep(progress, id))
              && IsStep(r.value.stepDirectory.value, r.value.currentStep.value)
              && r.value.totalSteps == Some(TotalTutorialSteps(workspace.files))
  {
    OpenSwingWith(registry, workspace, parse, progress, id, StepDirectory)
  }
}
