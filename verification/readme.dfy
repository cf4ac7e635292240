/** The README of a swing (`readme.ts`), rendered from Markdown. */
module Readme {
  import opened Wrappers
  import opened Strings
  import opened Tools

  const BaseName: string := "README"

  const Extensions: seq<string> := [".md", ".markdown"]

  /** `getReadmeContent`: blank text is returned as it is, anything else is
      rendered, and a render failure gives `None`. */
  function Content(tools: Toolchain, readme: string): (r: Option<string>)
    ensures IsBlank(readme) ==> r == Some(readme)
    ensures !IsBlank(readme) ==> r == tools.markdown(readme)
  {
    TrimEmptyIffBlank(readme);
    if Trim(readme) == "" then Some(readme) else tools.markdown(readme)
  }
}
