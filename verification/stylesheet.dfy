/** The stylesheet file of a swing (`stylesheet.ts`): `style` plus a CSS, Less,
    Sass or SCSS extension, compiled to CSS for the preview. */
module Stylesheet {
  import opened Wrappers
  import opened Strings
  import opened Tools

  const BaseName: string := "style"

  const Extensions: seq<string> := [".css", ".less", ".sass", ".scss"]

  /** The `codeswing.stylesheetLanguage` setting. */
  datatype Language = Css | Less | Sass | Scss

  /** The `StylesheetLanguage` table. */
  function ExtensionOf(language: Language): (r: string)
    ensures r in Extensions
  {
    match language
    case Css => ".css"
    case Less => ".less"
    case Sass => ".sass"
    case Scss => ".scss"
  }

  /** `getNewStylesheetFilename`: `style` plus the configured language's extension. */
  function NewFilename(language: Language): (r: string)
    ensures StartsWith(r, BaseName) && r[|BaseName|..] in Extensions
  {
    BaseName + ExtensionOf(language)
  }

  /** Distinct settings give distinct file names, so the name determines the language. */
  lemma NewFilenameInjective(a: Language, b: Language)
    requires NewFilename(a) == NewFilename(b)
    ensures a == b
  {
    assert NewFilename(a)[|BaseName|..] == ExtensionOf(a);
    assert NewFilename(b)[|BaseName|..] == ExtensionOf(b);
  }

  /** `getStylesheetContent`: blank text is returned as it is; `.scss` and
      `.sass` go through Sass (indented syntax exactly for `.sass`), `.less`
      through Less, a compiler failure gives `None`, and every other extension
      is passed through. */
  function Content(tools: Toolchain, content: string, path: string): (r: Option<string>)
    ensures IsBlank(content) ==> r == Some(content)
    ensures !IsBlank(content) ==> var extension := ToLower(ExtName(path));
      && (extension == ".scss" ==> r == tools.sass(content, false))
      && (extension == ".sass" ==> r == tools.sass(content, true))
      && (extension == ".less" ==> r == tools.less(content))
      && (extension !in [".scss", ".sass", ".less"] ==> r == Some(content))
  {
    TrimEmptyIffBlank(content);
    if Trim(content) == "" then Some(content)
    else
      var extension := ToLower(ExtName(path));
      if extension == ".scss" || extension == ".sass" then tools.sass(content, extension == ".sass")
      else if extension == ".less" then tools.less(content)
      else Some(content)
  }
}
