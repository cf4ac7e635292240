/** Adding a library to the active swing: the cdnjs URL of a chosen library
    file, and the de-duplicating append into the manifest's list. */
module CdnLibraries {
  import opened Wrappers
  import opened Strings
  import opened Manifests

  /** The libraries cdnjs serves under a bare name the preview resolves itself. */
  const SupportedDefaultLibraries: seq<string> :=
    ["angular.js", "d3", "ember.js", "font-awesome", "jquery", "react", "react-dom", "redux", "mobx", "polymer", "vue"]

  const CdnjsPrefix: string := "https://cdnjs.cloudflare.com/ajax/libs/"

  /** `createLibraryUrl(name, version, file)` */
  function CreateLibraryUrl(name: string, version: string, file: string): (r: string)
    ensures StartsWith(r, CdnjsPrefix) && EndsWith(r, file)
  {
    CdnjsPrefix + name + "/" + version + "/" + file
  }

  /** Reading a cdnjs URL back into its name, version and file. */
  function ParseLibraryUrl(url: string): Option<(string, string, string)> {
    if !StartsWith(url, CdnjsPrefix) then None
    else
      var path := url[|CdnjsPrefix|..];
      match IndexOf(path, "/")
      case None => None
      case Some(i) =>
        var rest := path[i + 1..];
        match IndexOf(rest, "/")
        case None => None
        case Some(j) => Some((path[..i], rest[..j], rest[j + 1..]))
  }

  /** A library URL names its library, version and file unambiguously as long
      as the name and version hold no `/` (the file may). */
  lemma LibraryUrlRoundTrip(name: string, version: string, file: string)
    requires '/' !in name && '/' !in version
    ensures ParseLibraryUrl(CreateLibraryUrl(name, version, file)) == Some((name, version, file))
  {
    var url := CreateLibraryUrl(name, version, file);
    var path := url[|CdnjsPrefix|..];
    assert path == name + "/" + (version + "/" + file);
    FirstCharAfter(name, '/', version + "/" + file);
    var rest := path[|name| + 1..];
    assert rest == version + "/" + file;
    FirstCharAfter(version, '/', file);
    assert path[..|name|] == name;
    assert rest[..|version|] == version && rest[|version| + 1..] == file;
  }

  /** `filterOutCommonJsFiles`: the files not starting with `cjs`, in order. */
  function FilterOutCommonJs(files: seq<string>): (r: seq<string>)
    ensures forall x :: x in r <==> x in files && !StartsWith(x, "cjs")
    ensures IsSubsequence(r, files)
    ensures forall x :: multiset(r)[x] == if StartsWith(x, "cjs") then 0 else multiset(files)[x]
  {
    if |files| == 0 then []
    else
      var rest := FilterOutCommonJs(files[1..]);
      assert multiset(files) == multiset{files[0]} + multiset(files[1..]) by {
        assert files == [files[0]] + files[1..];
      }
      if StartsWith(files[0], "cjs") then rest
      else
        assert ([files[0]] + rest)[1..] == rest;
        [files[0]] + rest
  }

  /** `getPlaygroundJson`: the parsed keys over the default manifest, or the
      default manifest when the text does not parse. */
  function PlaygroundJson(text: string, parse: Parser): (r: Manifest)
    ensures parse(text).None? ==> r == Default
    ensures parse(text).Some? ==> r.scripts == (if parse(text).value.scripts.Some? then parse(text).value.scripts else Some([]))
    ensures parse(text).Some? ==> r.styles == (if parse(text).value.styles.Some? then parse(text).value.styles else Some([]))
    ensures r.scripts.Some? && r.styles.Some?
  {
    match parse(text)
    case None => Default
    case Some(json) => Spread(Default, json)
  }

  /** The manifest a parse leaves unchanged apart from the defaults it fills in. */
  lemma PlaygroundJsonKeepsParsedKeys(text: string, parse: Parser)
    requires parse(text).Some?
    ensures forall k :: k in AsObject(parse(text).value) ==> AsObject(PlaygroundJson(text, parse))[k] == AsObject(parse(text).value)[k]
  {
    SpreadIsObjectUnion(Default, parse(text).value);
  }

  /** `[...new Set(list)]`: the first occurrence of every element, in order. */
  function Dedup(s: seq<string>): (r: seq<string>)
    ensures forall x :: x in r <==> x in s
    ensures NoDuplicates(r)
    decreases |s|
  {
    if |s| == 0 then []
    else
      var d := Dedup(s[..|s| - 1]);
      if s[|s| - 1] in d then d else d + [s[|s| - 1]]
  }

  /** The index of the first occurrence of `x`, or `|s|` when absent. */
  function FirstIndex(s: seq<string>, x: string): (r: nat)
    ensures r <= |s| && (r < |s| <==> x in s)
    ensures r < |s| ==> s[r] == x
    ensures forall j :: 0 <= j < r ==> s[j] != x
  {
    if |s| == 0 then 0 else if s[0] == x then 0 else 1 + FirstIndex(s[1..], x)
  }

  /** The elements of `r` appear in the order of their first occurrence in `s`. */
  predicate InFirstOccurrenceOrder(r: seq<string>, s: seq<string>) {
    forall i, j :: 0 <= i < j < |r| ==> FirstIndex(s, r[i]) < FirstIndex(s, r[j])
  }

  lemma FirstIndexInPrefix(s: seq<string>, n: nat, x: string)
    requires n <= |s| && x in s[..n]
    ensures FirstIndex(s, x) == FirstIndex(s[..n], x) < n
  {
    var i := FirstIndex(s[..n], x);
    assert s[i] == x;
    var k := FirstIndex(s, x);
    assert k <= i;
    assert s[..n][k] == x;
  }

  /** An order by first occurrence in a prefix is one in the whole list. */
  lemma OrderExtends(d: seq<string>, s: seq<string>, n: nat)
    requires n <= |s| && forall x :: x in d ==> x in s[..n]
    requires InFirstOccurrenceOrder(d, s[..n])
    ensures InFirstOccurrenceOrder(d, s)
    ensures forall x :: x in d ==> FirstIndex(s, x) < n
  {
    forall x | x in d ensures FirstIndex(s, x) == FirstIndex(s[..n], x) < n {
      FirstIndexInPrefix(s, n, x);
    }
    forall i, j | 0 <= i < j < |d| ensures FirstIndex(s, d[i]) < FirstIndex(s, d[j]) {
      assert d[i] in d && d[j] in d;
    }
  }

  /** Appending an element whose first occurrence comes after all others keeps the order. */
  lemma OrderAppend(d: seq<string>, s: seq<string>, x: string)
    requires InFirstOccurrenceOrder(d, s)
    requires forall y :: y in d ==> FirstIndex(s, y) < FirstIndex(s, x)
    ensures InFirstOccurrenceOrder(d + [x], s)
  {
    var r := d + [x];
    forall i, j | 0 <= i < j < |r| ensures FirstIndex(s, r[i]) < FirstIndex(s, r[j]) {
      assert r[i] == d[i] && d[i] in d;
      if j < |d| {
        assert r[j] == d[j];
      }
    }
  }

  /** The de-duplicated list keeps elements in the order of their first occurrence. */
  lemma {:induction false} DedupKeepsFirstOccurrenceOrder(s: seq<string>)
    ensures InFirstOccurrenceOrder(Dedup(s), s)
    decreases |s|
  {
    if |s| > 0 {
      var n := |s| - 1;
      DedupKeepsFirstOccurrenceOrder(s[..n]);
      OrderStep(s, n, Dedup(s[..n]), Dedup(s));
    }
  }

  /** One step of the de-duplication keeps the order by first occurrence. */
  lemma OrderStep(s: seq<string>, n: nat, d: seq<string>, r: seq<string>)
    requires n < |s| && (forall x :: x in d <==> x in s[..n]) && InFirstOccurrenceOrder(d, s[..n])
    requires r == if s[n] in d then d else d + [s[n]]
    ensures InFirstOccurrenceOrder(r, s)
  {
    OrderExtends(d, s, n);
    if s[n] !in d {
      FirstIndexOfNew(s, n);
      OrderAppend(d, s, s[n]);
    }
  }

  /** An element not seen before index `n` first occurs at `n`. */
  lemma FirstIndexOfNew(s: seq<string>, n: nat)
    requires n < |s| && s[n] !in s[..n]
    ensures FirstIndex(s, s[n]) == n
  {
  }

  /** A list without duplicates is its own de-duplication. */
  lemma {:induction false} DedupOfDistinct(s: seq<string>)
    requires NoDuplicates(s)
    ensures Dedup(s) == s
    decreases |s|
  {
    if |s| > 0 {
      var init := s[..|s| - 1];
      DedupOfDistinct(init);
      assert s[|s| - 1] !in init;
      assert init + [s[|s| - 1]] == s;
    }
  }

  /** `addDependencyLink`: the manifest read from the swing (its text, or
      `None` when the read fails), with the URL appended to the list and the
      list de-duplicated. */
  function AddDependencyLink(text: Option<string>, parse: Parser, kind: LibraryType, url: string): (r: Manifest)
    ensures Libraries(r, kind).Some? && url in Libraries(r, kind).value
    ensures NoDuplicates(Libraries(r, kind).value)
    ensures var m := SwingManifest(text, parse);
            var before := Libraries(m, kind).value;
            && (forall x :: x in Libraries(r, kind).value <==> x in before || x == url)
            && InFirstOccurrenceOrder(Libraries(r, kind).value, before + [url])
            && (NoDuplicates(before) ==> Libraries(r, kind).value == if url in before then before else before + [url])
            && r.(scripts := m.scripts, styles := m.styles) == m
            && (forall k :: k != kind ==> Libraries(r, k) == Libraries(m, k))
  {
    var m := SwingManifest(text, parse);
    AddedList(Libraries(m, kind).value, url);
    WithLibraries(m, kind, Dedup(Libraries(m, kind).value + [url]))
  }

  /** The manifest `addDependencyLink` starts from: the swing's, or the
      default one when reading it fails. Both lists are present. */
  function SwingManifest(text: Option<string>, parse: Parser): (m: Manifest)
    ensures m.scripts.Some? && m.styles.Some?
    ensures text.None? ==> m == Default
  {
    if text.Some? then PlaygroundJson(text.value, parse) else Default
  }

  /** The de-duplicated list with `url` appended: every old entry and the URL,
      once each, in first-occurrence order. */
  lemma AddedList(before: seq<string>, url: string)
    ensures var r := Dedup(before + [url]);
            && (forall x :: x in r <==> x in before || x == url)
            && InFirstOccurrenceOrder(r, before + [url])
            && (NoDuplicates(before) ==> r == if url in before then before else before + [url])
  {
    DedupKeepsFirstOccurrenceOrder(before + [url]);
    if NoDuplicates(before) {
      AddToDistinctList(before, url);
    }
  }

  /** Appending to a list without duplicates adds the URL at the end when it
      is new and changes nothing otherwise. */
  lemma AddToDistinctList(list: seq<string>, url: string)
    requires NoDuplicates(list)
    ensures url !in list ==> Dedup(list + [url]) == list + [url]
    ensures url in list ==> Dedup(list + [url]) == list
  {
    var s := list + [url];
    assert s[..|s| - 1] == list;
    DedupOfDistinct(list);
  }

  /** `createLatestUrl`: a supported default library by its bare name, any
      other by its `latest` URL. */
  function CreateLatestUrl(name: string, latest: string): (r: string)
    ensures name in SupportedDefaultLibraries ==> r == name
    ensures name !in SupportedDefaultLibraries ==> r == latest
  {
    if name in SupportedDefaultLibraries then name else latest
  }

  /** The file of the chosen version: with more than one non-CommonJS file the
      user picks one (`None` when dismissed); otherwise the only one is taken,
      and with none the label is `undefined`. */
  function FileChoice(files: seq<string>, picked: Option<string>): (r: Option<string>)
    ensures |FilterOutCommonJs(files)| == 1 ==> r == Some(FilterOutCommonJs(files)[0])
    ensures |FilterOutCommonJs(files)| > 1 ==> r == picked
    ensures |FilterOutCommonJs(files)| == 0 ==> r == Some("undefined")
  {
    var remaining := FilterOutCommonJs(files);
    if |remaining| > 1 then picked
    else if |remaining| == 1 then Some(remaining[0])
    else Some("undefined")
  }

  /** The URL added for a library: the `latest` version resolves through
      `createLatestUrl`, any other version to the cdnjs file URL. */
  function LibraryUrl(name: string, latest: string, version: string, file: string): (r: string)
    ensures version == "latest" ==> r == CreateLatestUrl(name, latest)
    ensures version != "latest" ==> r == CreateLibraryUrl(name, version, file)
    ensures version != "latest" && '/' !in name && '/' !in version ==> ParseLibraryUrl(r) == Some((name, version, file))
  {
    assert '/' !in name && '/' !in version ==> ParseLibraryUrl(CreateLibraryUrl(name, version, file)) == Some((name, version, file)) by {
      if '/' !in name && '/' !in version {
        LibraryUrlRoundTrip(name, version, file);
      }
    }
    if version == "latest" then CreateLatestUrl(name, latest) else CreateLibraryUrl(name, version, file)
  }

  /** The accepted pick: a URL is added as it is; a library needs a version
      (`None` when that prompt is dismissed) and then a file. `latest` is the
      library's `latest` URL as cdnjs lists it. */
  function AcceptLibrary(answer: string, isUrl: string -> bool, latest: string,
                         version: Option<string>, files: seq<string>, picked: Option<string>): (r: Option<string>)
    ensures isUrl(answer) ==> r == Some(answer)
    ensures !isUrl(answer) && version.None? ==> r.None?
    ensures !isUrl(answer) && version.Some? && FileChoice(files, picked).Some? ==>
              r == Some(LibraryUrl(answer, latest, version.value, FileChoice(files, picked).value))
    ensures !isUrl(answer) && FileChoice(files, picked).None? ==> r.None?
  {
    if isUrl(answer) then Some(answer)
    else if version.None? then None
    else
      var file :- FileChoice(files, picked);
      Some(LibraryUrl(answer, latest, version.value, file))
  }

  /** A single remaining file is used without prompting, even if the user
      would have dismissed the prompt. */
  lemma SingleFileNeedsNoPrompt(file: string)
    requires !StartsWith(file, "cjs")
    ensures FileChoice(["cjs/index.js", file], None) == Some(file)
  {
    var files := ["cjs/index.js", file];
    assert StartsWith(files[0], "cjs");
    assert files[1..] == [file] && files[1..][1..] == [];
    assert FilterOutCommonJs(files) == [file];
  }
}
