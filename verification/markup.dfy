/** The markup file of a swing (`markup.ts`): `index` plus one of the built-in
    or provider-contributed extensions, rendered to HTML for the preview. */
module Markup {
  import opened Wrappers
  import opened Strings
  import opened Tools
  import LanguageProvider

  const BaseName: string := "index"

  /** HTML, Markdown and Pug, in that order. */
  const BuiltinExtensions: seq<string> := [".html", ".md", ".pug"]

  /** `getMarkupExtensions`: the built-in extensions first, then every
      extension registered for the markup type. */
  function Extensions(registry: LanguageProvider.Registry): (r: seq<string>)
    ensures |r| >= 3 && r[..3] == BuiltinExtensions
    ensures r[3..] == LanguageProvider.GetExtensions(registry, LanguageProvider.MarkupLanguage)
  {
    BuiltinExtensions + LanguageProvider.GetExtensions(registry, LanguageProvider.MarkupLanguage)
  }

  /** `getCandidateMarkupFilenames`: `index` plus each extension, in order. */
  function CandidateFilenames(registry: LanguageProvider.Registry): (r: seq<string>)
    ensures |r| == |Extensions(registry)|
    ensures forall i :: 0 <= i < |r| ==> r[i] == BaseName + Extensions(registry)[i]
  {
    var extensions := Extensions(registry);
    seq(|extensions|, i requires 0 <= i < |extensions| => BaseName + extensions[i])
  }

  /** A name is a markup candidate exactly when it is `index` followed by one
      of the markup extensions. */
  lemma {:induction false} CandidateIffExtension(registry: LanguageProvider.Registry, name: string)
    ensures name in CandidateFilenames(registry) <==>
      (StartsWith(name, BaseName) && name[|BaseName|..] in Extensions(registry))
  {
    var candidates := CandidateFilenames(registry);
    var extensions := Extensions(registry);
    if name in candidates {
      var i :| 0 <= i < |candidates| && candidates[i] == name;
      assert name == BaseName + extensions[i];
      assert name[|BaseName|..] == extensions[i];
    }
    if StartsWith(name, BaseName) && name[|BaseName|..] in extensions {
      var i :| 0 <= i < |extensions| && extensions[i] == name[|BaseName|..];
      assert name == BaseName + name[|BaseName|..];
      assert candidates[i] == name;
    }
  }

  /** `getMarkupContent`: blank text is returned as it is; otherwise the
      lower-cased extension picks Pug, Markdown, plain HTML or the registered
      provider, and every failure yields `None`. */
  function Content(tools: Toolchain, registry: LanguageProvider.Registry, host: LanguageProvider.ExtensionHost,
                   content: string, path: string): (r: Option<string>)
    ensures IsBlank(content) ==> r == Some(content)
    ensures !IsBlank(content) ==> var extension := ToLower(ExtName(path));
      && (extension == ".html" ==> r == Some(content))
      && (extension == ".pug" ==> r == tools.pug(content))
      && (extension == ".md" ==> r == tools.markdown(content))
      && (extension !in BuiltinExtensions ==>
            r == LanguageProvider.CompileCode(registry, host, LanguageProvider.MarkupLanguage, extension, content))
  {
    TrimEmptyIffBlank(content);
    if Trim(content) == "" then Some(content)
    else
      var extension := ToLower(ExtName(path));
      if extension == ".pug" then tools.pug(content)
      else if extension == ".md" then tools.markdown(content)
      else if extension == ".html" then Some(content)
      else LanguageProvider.CompileCode(registry, host, LanguageProvider.MarkupLanguage, extension, content)
  }

  /** Dispatch ignores the case of the extension: `INDEX.HTML` renders like
      `index.html`. */
  lemma ContentIgnoresExtensionCase(tools: Toolchain, registry: LanguageProvider.Registry,
                                    host: LanguageProvider.ExtensionHost, content: string, path: string, other: string)
    requires ToLower(ExtName(path)) == ToLower(ExtName(other))
    ensures Content(tools, registry, host, content, path) == Content(tools, registry, host, content, other)
  {
  }
}
