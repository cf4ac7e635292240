/** The extension's public API: recognising a directory listing as a swing. */
module Api {
  import opened Wrappers
  import opened Strings
  import LanguageProvider
  import Markup
  import Preview

  /** `isPlayground(files)` as written: the manifest clause compares against
      `PLAYGROUND_FILE`, a name `src/constants.ts` does not export, so the
      imported value is `undefined` and no listing entry equals it. */
  predicate IsPlaygroundAsWritten(registry: LanguageProvider.Registry, files: seq<string>) {
    || ".block" in files
    || HasMarkupFile(registry, files)
    || "scripts" in files
    || ("script.js" in files && HasMarkdownFile(files))
  }

  /** `isPlayground(files)` with the manifest clause naming `codeswing.json`
      (`SWING_FILE`, the name `getFileOfType` looks for): a `.block` file, the
      manifest, any candidate markup file, a `scripts` entry, or `script.js`
      together with a `.markdown` file. */
  predicate IsPlayground(registry: LanguageProvider.Registry, files: seq<string>) {
    || ".block" in files
    || Preview.SwingFile in files
    || HasMarkupFile(registry, files)
    || "scripts" in files
    || ("script.js" in files && HasMarkdownFile(files))
  }

  /** An entry that by itself marks a swing. */
  predicate IsMarker(registry: LanguageProvider.Registry, file: string) {
    file == ".block" || file == Preview.SwingFile || file == "scripts" || file in Markup.CandidateFilenames(registry)
  }

  /** Some entry is a candidate markup file name. */
  predicate HasMarkupFile(registry: LanguageProvider.Registry, files: seq<string>) {
    exists i :: 0 <= i < |files| && files[i] in Markup.CandidateFilenames(registry)
  }

  /** Some entry has the extension `.markdown`. */
  predicate HasMarkdownFile(files: seq<string>) {
    exists i :: 0 <= i < |files| && ExtName(files[i]) == ".markdown"
  }

  /** An empty listing is not a swing. */
  lemma EmptyListingIsNotPlayground(registry: LanguageProvider.Registry)
    ensures !IsPlayground(registry, [])
  {
  }

  /** Adding entries never turns a swing listing into a non-swing one. */
  lemma PlaygroundMonotone(registry: LanguageProvider.Registry, files: seq<string>, more: seq<string>)
    requires IsPlayground(registry, files)
    requires forall f :: f in files ==> f in more
    ensures IsPlayground(registry, more)
  {
    if HasMarkupFile(registry, files) {
      var i :| 0 <= i < |files| && files[i] in Markup.CandidateFilenames(registry);
      assert files[i] in more;
    } else if "script.js" in files && HasMarkdownFile(files) {
      var i :| 0 <= i < |files| && ExtName(files[i]) == ".markdown";
      assert files[i] in more;
    }
  }

  /** A listing is a swing exactly when one of its entries is a marker, or it
      holds `script.js` together with a `.markdown` file. */
  lemma PlaygroundIffMarker(registry: LanguageProvider.Registry, files: seq<string>)
    ensures IsPlayground(registry, files) <==>
      (exists i :: 0 <= i < |files| && IsMarker(registry, files[i])) || ("script.js" in files && HasMarkdownFile(files))
  {
    if IsPlayground(registry, files) && !("script.js" in files && HasMarkdownFile(files)) {
      PlaygroundHasMarker(registry, files);
    }
    if exists i :: 0 <= i < |files| && IsMarker(registry, files[i]) {
      var i :| 0 <= i < |files| && IsMarker(registry, files[i]);
      MarkerMakesPlayground(registry, files, i);
    }
  }

  lemma PlaygroundHasMarker(registry: LanguageProvider.Registry, files: seq<string>)
    requires IsPlayground(registry, files) && !("script.js" in files && HasMarkdownFile(files))
    ensures exists i :: 0 <= i < |files| && IsMarker(registry, files[i])
  {
    var i: nat;
    if HasMarkupFile(registry, files) {
      i :| i < |files| && files[i] in Markup.CandidateFilenames(registry);
    } else if ".block" in files {
      i :| i < |files| && files[i] == ".block";
    } else if Preview.SwingFile in files {
      i :| i < |files| && files[i] == Preview.SwingFile;
    } else {
      i :| i < |files| && files[i] == "scripts";
    }
    assert IsMarker(registry, files[i]);
  }

  lemma MarkerMakesPlayground(registry: LanguageProvider.Registry, files: seq<string>, i: nat)
    requires i < |files| && IsMarker(registry, files[i])
    ensures IsPlayground(registry, files)
  {
    assert files[i] in files;
    if files[i] in Markup.CandidateFilenames(registry) {
      assert HasMarkupFile(registry, files);
    }
  }

  /** The listing the written test misses: the manifest alone is a swing, but
      `isPlayground` as written says it is not. */
  lemma ManifestAloneMissedAsWritten(registry: LanguageProvider.Registry)
    ensures IsPlayground(registry, [Preview.SwingFile])
    ensures !IsPlaygroundAsWritten(registry, [Preview.SwingFile])
  {
    var files := [Preview.SwingFile];
    ManifestIsNoMarkup(registry);
    assert ".block" !in files && "scripts" !in files && "script.js" !in files;
  }

  lemma ManifestIsNoMarkup(registry: LanguageProvider.Registry)
    ensures !HasMarkupFile(registry, [Preview.SwingFile])
  {
    var x := Preview.SwingFile;
    var markup := Markup.CandidateFilenames(registry);
    assert x[0] == 'c';
    forall i | 0 <= i < |markup| ensures markup[i] != x {
      assert markup[i][0] == Markup.BaseName[0] == 'i';
    }
    assert x !in markup;
  }

  /** The written test agrees with the intended one on every listing without
      the manifest, and never accepts more. */
  lemma PlaygroundAsWrittenAgrees(registry: LanguageProvider.Registry, files: seq<string>)
    ensures IsPlaygroundAsWritten(registry, files) ==> IsPlayground(registry, files)
    ensures Preview.SwingFile !in files ==> (IsPlaygroundAsWritten(registry, files) <==> IsPlayground(registry, files))
  {
  }

  /** `script.js` alone is not a swing. */
  lemma ScriptAloneIsNotPlayground(registry: LanguageProvider.Registry)
    ensures !IsPlayground(registry, ["script.js"])
  {
    var x := "script.js";
    ScriptExtension();
    ScriptIsNotMarkup(registry);
    SingleEntryIsNotPlayground(registry, x);
  }

  lemma ScriptExtension()
    ensures ExtName("script.js") == ".js"
  {
    ExtNameOf("script", ".js");
    assert "script" + ".js" == "script.js";
  }

  /** A single entry is a swing only through one of the markers. */
  lemma SingleEntryIsNotPlayground(registry: LanguageProvider.Registry, x: string)
    requires |x| != |".block"| && |x| != |Preview.SwingFile| && |x| != |"scripts"|
    requires x !in Markup.CandidateFilenames(registry) && ExtName(x) != ".markdown"
    ensures !IsPlayground(registry, [x])
  {
    var files := [x];
    assert !HasMarkupFile(registry, files) by {
      forall i | 0 <= i < |files| ensures files[i] !in Markup.CandidateFilenames(registry) {
        assert files[i] == x;
      }
    }
    assert !HasMarkdownFile(files) by {
      forall i | 0 <= i < |files| ensures ExtName(files[i]) != ".markdown" {
        assert files[i] == x;
      }
    }
    assert ".block" !in files && Preview.SwingFile !in files && "scripts" !in files;
  }

  /** `script.js` with a `.markdown` file is a swing. */
  lemma ScriptWithMarkdownIsPlayground(registry: LanguageProvider.Registry, stem: string)
    requires |stem| > 0 && forall k :: 0 <= k < |stem| ==> stem[k] != '/'
    ensures IsPlayground(registry, ["script.js", stem + ".markdown"])
  {
    ExtNameOf(stem, ".markdown");
    ScriptWithMarkdownFile(registry, stem + ".markdown");
  }

  lemma ScriptWithMarkdownFile(registry: LanguageProvider.Registry, notes: string)
    requires ExtName(notes) == ".markdown"
    ensures IsPlayground(registry, ["script.js", notes])
  {
    var files := ["script.js", notes];
    assert HasMarkdownFile(files) by {
      assert ExtName(files[1]) == ".markdown";
    }
    assert files[0] in files;
  }

  lemma ScriptIsNotMarkup(registry: LanguageProvider.Registry)
    ensures "script.js" !in Markup.CandidateFilenames(registry)
  {
    var markup := Markup.CandidateFilenames(registry);
    forall i | 0 <= i < |markup| ensures markup[i] != "script.js" {
      assert markup[i][0] == 'i';
    }
  }
}
