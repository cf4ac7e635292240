# CodeSwing core, modelled in Dafny

CodeSwing is an editor extension for "swings": small web playgrounds kept as a
directory of files. The files are a markup file, a stylesheet, a script, an
optional README, an optional tutorial input, and a `codeswing.json` manifest.
This project models the extension's deterministic core as pure functions over
immutable datatypes, and proves properties of it:

- **File roles and tutorials** (`Preview`, `Api`, `LanguageProvider`,
  `Markup`, `Stylesheet`, `Script`, `Readme`):
  - the candidate file names of each role;
  - picking a role file from a directory listing;
  - whether a document belongs to the open swing;
  - the highest tutorial step, and the step manifest merged over the root;
  - the playground test of a listing;
  - the per-language content dispatch.
- **Script and import rewriting** (`Script`, `Skypack`, `ReactComponent`,
  `ProxyFileSystem`, `UriComponent`, `Patterns`):
  - whether a script is a module;
  - the React import rewrites;
  - bare specifiers rewritten to `https://esm.sh/`, and relative component
    imports tagged with `?type=`;
  - the `codeswing-proxy` file system that wraps JSON, CSS and components as
    modules.
- **The preview page** (`Webview`): the `SwingWebView` state record and its
  update operations. Each update is recorded as "store only", "incremental
  post" or "rebuild". A rebuild computes the library tags, the script type,
  the README placement and the tutorial navigation flags.
- **Editor layout** (`Layout`): the group tree and the columns for a file count
  and a layout name.
- **Libraries and CodePen export** (`CdnLibraries`, `CodePen`):
  - cdnjs URLs, and the de-duplicating append into the manifest;
  - the export form's escaping and the URL extraction from library tags;
  - the preprocessor mapping and the joined external resources.
- **Small stores** (`TutorialStorage`, `InputFileSystem`, `TemplateMru`,
  `TempFileSystem`, `Creation`, `Galleries`, `AiFiles`):
  - the tutorial step list and the template MRU list;
  - the tutorial input file system and the in-memory file system for new
    swings;
  - manifest normalisation and template list shaping when creating a swing;
  - gallery enablement;
  - turning an AI answer into files.

Things the model cannot see are parameters, each a function returning an
`Option` where the original can throw or return nothing:

- JSON parsing and serializing (`Manifests.Parser`, `Manifests.Serializer`);
- the compilers and renderers (`Tools.Toolchain`, the Svelte compiler);
- the URL pattern;
- the library registry and the gallery fetch;
- workspace reads.

`Wrappers` holds `Option`, `Result` and `Outcome`, and `Strings` holds the
sequence helpers.

## Model

| member | source | states |
|---|---|---|
| LanguageProvider.Put | src/preview/languages/languageProvider.ts:66-68 | setting an extension makes it map to the new provider id and leaves every other extension's provider as it was |
| LanguageProvider.PutKeys | src/preview/languages/languageProvider.ts:66-68 | a `Map` keeps insertion order: an extension already present keeps its place, a new one goes last |
| LanguageProvider.PutNoDuplicates | src/preview/languages/languageProvider.ts:66-68 | the extensions of a type never repeat |
| LanguageProvider.GetExtensions | src/preview/languages/languageProvider.ts:15-22 | `[]` for a type nothing registered; otherwise exactly the extensions registered for that type |
| LanguageProvider.Register | src/preview/languages/languageProvider.ts:61-69 | after one definition, its extensions map to its source under its type; every other (type, extension) pair is unaffected |
| LanguageProvider.DiscoverLookup | src/preview/languages/languageProvider.ts:50-70 | after discovery an extension belongs to the last definition that lists it for that type (stated through an independent `LastProvider`), else keeps what it had |
| LanguageProvider.CompileCode | src/preview/languages/languageProvider.ts:24-48 | null when no provider id (or an empty one) is registered for the pair, or the extension is missing or exports no compiler; otherwise the compiler's result on (extension, code) |
| LanguageProvider.CompileAfterDiscover | src/preview/languages/languageProvider.ts:24-70 | compiling after discovery reaches the compiler of the last definition registering the extension |
| Markup.Extensions | src/preview/languages/markup.ts:13-28 | `.html, .md, .pug` always come first, followed by exactly the registered markup extensions |
| Markup.CandidateFilenames | src/preview/languages/markup.ts:19-23 | one candidate `index<ext>` per extension, in the same order |
| Markup.CandidateIffExtension | src/preview/languages/markup.ts:19-28 | a name is a candidate iff it is `index` followed by a markup extension |
| Markup.Content | src/preview/languages/markup.ts:30-54 | whitespace-only text comes back unchanged; otherwise the lower-cased extension chooses Pug, Markdown, passthrough for `.html`, or the registered provider; a failure is null |
| Markup.ContentIgnoresExtensionCase | src/preview/languages/markup.ts:38 | two paths whose extensions differ only in case render alike |
| Stylesheet.ExtensionOf | src/preview/languages/stylesheet.ts:8-20 | every configurable language maps into `[.css, .less, .sass, .scss]` |
| Stylesheet.NewFilename | src/preview/languages/stylesheet.ts:22-25 | the new name is `style` followed by a stylesheet extension |
| Stylesheet.NewFilenameInjective | src/preview/languages/stylesheet.ts:22-25 | distinct settings give distinct names |
| Stylesheet.Content | src/preview/languages/stylesheet.ts:27-65 | whitespace-only text unchanged; `.scss`/`.sass` compiled by Sass with indented syntax exactly for `.sass`; `.less` by Less; a compiler failure is null; any other extension passes through |
| Readme.Content | src/preview/languages/readme.ts:5-19 | whitespace-only text unchanged; anything else is the Markdown rendering, null when rendering throws |
| Patterns.MatchAt | src/preview/libraries/skypack.ts:18 | a `prefix(\S+)(alt…)` match at an index has the prefix there, a run of class characters of at least the minimum length, and an alternative right after; no alternative follows later within the run (greedy), and no match means no alternative anywhere in the run |
| Patterns.FirstMatch | src/preview/libraries/skypack.ts:18 | the match found is the leftmost one: nothing matches at any earlier index, and none means no index matches |
| Patterns.FirstChoice | src/preview/languages/script.ts:93-96 | the leftmost index where any alternative occurs, none earlier; none means no index has one |
| Patterns.ReplaceFirstMatch | src/preview/languages/script.ts:88-92 | a non-global `replace`: without a match the text is unchanged; with one only the matched span is replaced, by the captured run between the fixed parts |
| Patterns.WholeMatch | src/preview/languages/script.ts:88-92 | text that is exactly prefix, class run and one alternative is matched as a whole |
| Script.ExtensionTables | src/preview/languages/script.ts:8-31 | the extension list is `.js, .mjs, .ts, .babel, .jsx, .tsx`, and every React extension counts as a TypeScript one |
| Script.ReactFileByExtension | src/preview/languages/script.ts:33-35 | `<stem><ext>` is a React file exactly when `ext` is `.babel`, `.jsx` or `.tsx` |
| Script.IncludesReactFilesAppend | src/preview/languages/script.ts:39-41 | two listings joined include React files exactly when one of them does |
| Script.IncludesReactScriptsIff | src/preview/languages/script.ts:37-45 | React scripts are included exactly when both `react` and `react-dom` are listed |
| Script.CompileScriptContent | src/preview/languages/script.ts:75-126 | plain non-module, non-TypeScript, non-JSX code passes through unchanged; TypeScript extensions or JSX (from the flag or a React import left in the prepared code) go to the transpiler, with JSX on for React extensions or JSX code |
| Script.IncludesJsx | src/preview/languages/script.ts:63-64 | no manifest or no `scripts` counts as JSX (the parameter default); otherwise JSX exactly when `react` is listed |
| Script.GetScriptContent | src/preview/languages/script.ts:47-73 | blank text comes back as is, a module only for `.mjs`; otherwise the module flag follows the manifest's `scriptType`, `.mjs` or a leading `import `, and the result is null exactly when compilation fails or yields nothing |
| Script.MissingScriptsActAsReact | src/preview/languages/script.ts:63-80 | a manifest without `scripts` compiles like one listing `react` |
| Script.BindReactImportLine | src/preview/languages/script.ts:92 | `import <clause> from "react"` (either quote) becomes `const <clause> = React` |
| Script.DestructureReactImportLine | src/preview/languages/script.ts:88-91 | `import React, {<names>} from "react"` becomes `const {<names>} = React` |
| Script.RewriteDropsLeadingReactImport | src/preview/languages/script.ts:85-97 | a leading `import React from "react"` or `import * as React from 'react'` is removed, and the later rewrites see only the rest |
| Skypack.ModuleUrl | src/preview/libraries/skypack.ts:3-5 | the URL is the Skypack CDN base followed by the module name |
| Skypack.ModuleUrlInjective | src/preview/libraries/skypack.ts:3-5 | different modules get different URLs |
| Skypack.ImportMatchAt | src/preview/libraries/skypack.ts:13 | the import regex at an index: `import` there, the last possible opening quote after `from` (greedy), a bare specifier, and the last matching closing quote on the line; no match means no such quote |
| Skypack.FirstImport | src/preview/libraries/skypack.ts:13-17 | the leftmost import match; no earlier index matches, and none means no index matches |
| SkypackRewrite.RewriteBareImportLine | src/preview/libraries/skypack.ts:13-17 | an import of a bare specifier gets `https://esm.sh/` inserted before the specifier, keeping the quote |
| SkypackRewrite.KeepNonBareImportLine | src/preview/libraries/skypack.ts:13-17 | an import whose specifier starts with `./` or `http` is left unchanged |
| SkypackRewrite.RewriteBareImportLineIdempotent | src/preview/libraries/skypack.ts:13-17 | rewriting an already rewritten import changes nothing |
| Skypack.TagComponentPath | src/preview/libraries/skypack.ts:18 | `./name.<ext>` for a component extension becomes `./name.js?type=<ext>` |
| Skypack.SuffixesPrefixFree | src/preview/libraries/skypack.ts:18 | no component extension is a prefix of another, so at most one fits at any index |
| Skypack.TagComponentsWithoutRelativePath | src/preview/libraries/skypack.ts:18 | text without `./` is left unchanged by the second pass |
| SkypackRewrite.NoMatchKeepsText | src/preview/libraries/skypack.ts:13-17 | pass 1 copies the text unchanged from any index after which no import matches |
| SkypackRewrite.ImportAfterProse | src/preview/libraries/skypack.ts:13-17 | an import line after any lines of prose without quotes is rewritten while the prose is kept |
| SkypackRewrite.ProcessBareImportLine | src/preview/libraries/skypack.ts:15-19 | `processImports` on a bare import line without `./`: pass 1 points it at esm.sh and pass 2 leaves the result unchanged |
| ReactComponent.ComponentName | src/preview/languages/components/react.ts:4-7 | the match fails (the destructuring throws) exactly when `export default` occurs nowhere; a name found is a non-empty run of word characters |
| ReactComponent.NamedExport | src/preview/languages/components/react.ts:5 | for `export default [class \| function ]<Name>` the name is `Name`, with the keyword skipped |
| ReactComponent.NoDefaultExport | src/preview/languages/components/react.ts:5-6 | code without `export` has no component name |
| ReactComponent.CompileComponent | src/preview/languages/components/react.ts:9-15 | the code is the script compiled with no manifest, and the init snippet mounts the component named in that compiled code; a failed compile gives nothing |
| TutorialStorage.EntryIndex | src/preview/tutorials/storage.ts:23 | the index of the first entry for the swing, `-1` exactly when no entry has that id |
| TutorialStorage.CurrentStep | src/preview/tutorials/storage.ts:17-25 | the step stored in the first entry for the swing, step 1 when there is none |
| TutorialStorage.SetStep | src/preview/tutorials/storage.ts:26-41 | an existing first entry is updated in place (the list keeps its length and every other entry); a new swing is appended at the end |
| TutorialStorage.SetThenGet | src/preview/tutorials/storage.ts:17-41 | after setting a step, reading it back gives that step |
| TutorialStorage.SetKeepsOthers | src/preview/tutorials/storage.ts:17-41 | setting one swing's step leaves every other swing's step unchanged |
| Preview.CandidateTables | src/preview/index.ts:157-201 | the candidate names per role: `codeswing.json`, `main.tour`, `config.json`, `script` with each script extension, `style` with each stylesheet extension, `README.md`/`README.markdown`, and the markup names starting `index.html, index.md, index.pug` |
| Preview.FileOfType | src/preview/index.ts:157-210 | none exactly when no listed name is a candidate; otherwise a candidate name from the listing, the earliest such entry |
| Preview.FirstWhereIgnoresCandidateOrder | src/preview/index.ts:203-205 | the file chosen depends only on which names are candidates, not on their order |
| Preview.ListingOrderWins | src/preview/index.ts:203-205 | listing order beats extension priority: `script.ts` listed before `script.js` is the one chosen |
| Preview.JoinPath | src/preview/index.ts:208 | a joined URI keeps the directory's scheme, authority and query, and its path starts with the directory and ends with the name |
| Preview.JoinedIsSwingDocument | src/preview/index.ts:93-105 | any name joined under the swing directory counts as a swing document |
| Preview.SwingDocumentPreorder | src/preview/index.ts:93-105 | every swing URI belongs to itself, and a document under a document of the swing belongs to the swing |
| Preview.OpenedFileHasType | src/preview/index.ts:107-155 | the file opened for a role (tour excepted) is recognised as a document of that role |
| Preview.TourDocumentsUseStylesheetNames | src/preview/index.ts:119-145 | the document test has no tour case, so a tour request falls to the stylesheet names and `main.tour` itself is not recognised |
| Preview.DecimalDigits | src/preview/index.ts:261-263 | `${n}` is all digits and reads back as `n` |
| Preview.StepNumberOfName | src/preview/index.ts:212 | a name `<n>…` or `#<n>…` (rest not starting with a digit) has step number `n` |
| Preview.TotalTutorialSteps | src/preview/index.ts:247-258 | the count is at least every step number in the listing and is itself 0 or one of them |
| Preview.StepDirectoryAsWritten | src/preview/index.ts:261-263 | none exactly when no entry starts with `<step>` or `#<step>` as text; otherwise the first entry that does |
| Preview.StepDirectory | src/preview/index.ts:261-263 | the first entry whose step number is exactly the step; none exactly when no entry has it |
| Preview.StepOneOpensStepTen | src/preview/index.ts:261-263 | in `["10_end", "1_intro"]` step 1 opens `10_end` as written and `1_intro` as intended |
| Preview.StepDirectoryFindsNamedStep | src/preview/index.ts:261-263 | a listing holding a directory named after step `n` always yields a step directory for `n` |
| Preview.RootManifest | src/preview/index.ts:233-240 | `{}` without `codeswing.json` or when reading or parsing fails; otherwise the parsed manifest |
| Preview.MergeStepManifest | src/preview/index.ts:267-283 | without a step manifest the root manifest is kept; with one, a failed parse fails the open, and a success spreads it over the root |
| Preview.StepManifestWins | src/preview/index.ts:279-282 | after the merge a key set in the step manifest has its value, and any other key keeps the root's value |
| Preview.InputFile | src/preview/index.ts:298-301 | empty exactly when the manifest names no input file (or an empty one); otherwise `codeswing-input:///` followed by the file name |
| Preview.IncludedFiles | src/preview/index.ts:303-308 | at most 4; 0 exactly when none of the four is present, 4 exactly when all are |
| Preview.Assemble | src/preview/index.ts:287-308 | each role file is absent exactly when no listed name is a candidate and otherwise a listed candidate; the input file is empty exactly when the manifest names none; the count is the present markup, stylesheet, script and input |
| Preview.OpenSwing | src/preview/index.ts:213-312 | as written: a non-tutorial swing is assembled from the root listing; a tutorial opens the step directory the prefix lookup finds for the stored step, which starts with that step's text, and its total is the largest step number; never more than 4 included files |
| Preview.OpenSwingWith | src/preview/index.ts:213-312 | for any step lookup: a non-tutorial swing is assembled from the root listing; a tutorial fails when the lookup finds nothing, and otherwise records the looked-up directory, the stored step and the largest step number |
| Preview.OpenSwingIntended | src/preview/index.ts:213-312 | with the intended lookup, a tutorial's step directory is in the root listing and its step number is exactly the stored step |
| Api.EmptyListingIsNotPlayground | src/api.ts:6-15 | an empty directory is not a playground |
| Api.PlaygroundMonotone | src/api.ts:6-15 | adding files to a playground's listing keeps it a playground |
| Api.ScriptAloneIsNotPlayground | src/api.ts:12-13 | `script.js` alone is not enough |
| Api.ScriptWithMarkdownIsPlayground | src/api.ts:12-13 | `script.js` with a `.markdown` file is a playground |
| Api.ScriptWithMarkdownFile | src/api.ts:12-13 | `script.js` with any file whose extension is `.markdown` is a playground |
| Api.PlaygroundIffMarker | src/api.ts:6-15 | corrected: a listing is a playground exactly when an entry is `.block`, `codeswing.json`, `scripts` or a markup candidate, or it holds `script.js` with a `.markdown` file |
| Api.PlaygroundAsWrittenAgrees | src/api.ts:6-15 | the test as written never accepts more than the corrected one, and agrees with it on every listing without `codeswing.json` |
| Api.ManifestAloneMissedAsWritten | src/api.ts:2-9 | a listing of `codeswing.json` alone is a playground, but the test as written rejects it |
| Webview.Initial | src/preview/webview.ts:16-33 | a new assembler holds empty parts, no manifest, a non-module script and has rendered nothing |
| Webview.ResolveLibraries | src/preview/webview.ts:243-288 | without a manifest or a list, the CodePen prefix alone; otherwise the prefix, then one tag per usable URL entry in list order, then one tag per name the registry knows, with its registry URL, in list order |
| Webview.UnusableEntriesAddNothing | src/preview/webview.ts:259-282 | blank entries, and names neither URLs nor known to cdnjs, add no tag |
| Webview.UrlEmittedVerbatim | src/preview/webview.ts:263-274 | a list of usable URLs, of any length, is emitted verbatim: the prefix followed by one tag per URL, in list order |
| Webview.UrlsBeforeNames | src/preview/webview.ts:258-284 | in any list, swapping a known name with the URL right after it renders the same tags, so URL tags precede registry tags whatever the list order |
| Webview.ScriptType | src/preview/webview.ts:308-310 | `module` for module code; otherwise the manifest's non-empty `scriptType`, else `text/javascript` |
| Webview.ReadmeBehavior | src/preview/webview.ts:312-314 | the manifest's non-empty `readmeBehavior` wins over the setting |
| Webview.TutorialNavigation | src/preview/webview.ts:326-380 | the bar appears exactly for a non-zero step total; back is disabled exactly on step 1, forward exactly on the last step |
| Webview.SingleStepDisablesBoth | src/preview/webview.ts:366-373 | a one-step tutorial disables both buttons |
| Webview.Render | src/preview/webview.ts:290-320 | the page carries the stored parts, the resolved script and style library tags, the script type, the readme as header exactly for `previewHeader` and as footer exactly for `previewFooter` (never both), the manifest's `themePreview` over the setting, and the tutorial navigation of the stored total and the current step |
| Webview.Rebuild | src/preview/webview.ts:290 | afterwards the last page shown is the render of the state, the rebuild count rises by one, the renderer holds the stored stylesheet and input, the earlier log is kept, and no field changes |
| Webview.UpdateCss | src/preview/webview.ts:170-176 | the stylesheet is stored; with `rebuild` only an `updateCSS` message is posted, never a rebuild |
| Webview.UpdateInput | src/preview/webview.ts:178-184 | the input is stored; with `rebuild` only an `updateInput` message is posted, never a rebuild |
| Webview.UpdateHtml | src/preview/webview.ts:202-208 | the markup is stored and every other field is unchanged; with `rebuild` the page of the new state is rendered once, without it nothing is posted |
| Webview.UpdateReadme | src/preview/webview.ts:186-192 | the readme is stored and every other field is unchanged; with `rebuild` the page of the new state is rendered once, without it nothing is posted |
| Webview.UpdateConfig | src/preview/webview.ts:194-200 | the config is stored and every other field is unchanged; with `rebuild` the page of the new state is rendered once, without it nothing is posted |
| Webview.UpdateJavaScript | src/preview/webview.ts:210-225 | a failed compile changes nothing; otherwise the compiled code and module flag are stored, every other field is unchanged, and the page is rebuilt exactly when asked, the rebuilt page being the render of the updated state |
| Webview.UpdateManifest | src/preview/webview.ts:227-241 | empty text or invalid JSON changes nothing; valid JSON replaces the manifest, every other field is unchanged, and with `rebuild` the page of the new state is rendered once |
| Webview.CssReachesRenderer | src/preview/webview.ts:170-176 | after an update with `rebuild`, the renderer applies the new stylesheet while the last rebuilt page stays the same |
| Webview.InputReachesRenderer | src/preview/webview.ts:178-184 | after an update with `rebuild`, the renderer has the new input while the last rebuilt page stays the same |
| Webview.HtmlRebuildShowsState | src/preview/webview.ts:202-208 | a rebuilding markup update shows the new markup with the stylesheet and input already held |
| Webview.NavigateTutorial | src/preview/webview.ts:115-140 | the swing reopens exactly when the stored step plus the offset is within the total, and that step is stored; otherwise a non-empty completion message is shown |
| Webview.NavigateTo | src/preview/webview.ts:123-136 | the swing reopens exactly when the next step is within the stored total; then the next step is stored and every other tutorial keeps its step; otherwise the completion message is shown |
| Webview.CompletionMessage | src/preview/webview.ts:127-130 | the manifest's non-empty completion message, else the default one; never empty |
| Webview.ForwardPersistsNextStep | src/preview/webview.ts:115-125 | moving forward stores exactly the next step and leaves other tutorials alone |
| Layout.CreateLayoutManager | src/preview/layoutManager.ts:64-126 | the manifest's non-empty layout wins over the setting; the tree is applied exactly when there are files and the layout is not `preview`; `splitRight` reverses the base groups, `splitTop` turns them vertical, `splitBottom` does both; the tabbed layouts use one split; `grid` with three files is the 2x2 grid; `splitRight`, `splitBottom` and `splitRightTabbed` start editors in column 2 with the preview in 1, `splitLeftTabbed` in 1 with the preview in 2, any other layout in 1 with the preview after the last file |
| Layout.ShowDocument | src/preview/layoutManager.ts:128-150 | nothing is shown in the `preview` layout; otherwise the document opens in the current column, which advances by one unless the layout is tabbed, and nothing else changes |
| Layout.ShowAllColumns | src/preview/layoutManager.ts:128-150 | outside the preview and tabbed layouts the k-th document opens in the start column plus k |
| Layout.TabbedShowsInOneColumn | src/preview/layoutManager.ts:142-147 | in a tabbed layout every document opens in the same column |
| Layout.EditorsAvoidPreview | src/preview/layoutManager.ts:64-150 | for up to four files no editor ever opens in the preview's column |
| Layout.CellsMatchFiles | src/preview/layoutManager.ts:9-104 | outside the tabbed layouts the tree has one cell per file plus one for the preview for one to three files, and the two cells of a single split for four |
| CodePen.EscapeAsWritten | src/preview/codepen.ts:11-14 | the escaping as written removes every double and single quote, so the value cannot end its attribute early; on JSON without `&` it equals the corrected escaping |
| CodePen.EscapeAsWrittenLosesEntities | src/preview/codepen.ts:11-17 | as written, JSON holding `&lt;` is left as is and the browser reads it back as `<` |
| CodePen.Escape | src/preview/codepen.ts:11-14 | the corrected escaping also leaves no quote in the value |
| CodePen.EscapeRoundTrip | src/preview/codepen.ts:11-17 | with `&` escaped too, the browser reads the attribute back as exactly the JSON text |
| CodePen.ExportMarkup | src/preview/codepen.ts:10-28 | as written: the CodePen form around a quote-free value that reads back as the JSON text whenever the JSON holds no `&` |
| CodePen.ExportMarkupIntended | src/preview/codepen.ts:10-28 | corrected: the CodePen form around a value that always reads back as the JSON text |
| CodePen.TagShape | src/preview/codepen.ts:30-31 | the tags the preview writes for a library have exactly the shape the export patterns look for |
| CodePen.MatchAt | src/preview/codepen.ts:30-31 | a match has a non-empty URL without quotes and covers more than the opening text |
| CodePen.FirstMatch | src/preview/codepen.ts:47-58 | the leftmost match: none at an earlier index, and none means no index matches |
| CodePen.MatchAllUrls | src/preview/codepen.ts:47-58 | every URL collected is non-empty and quote-free; the list is empty exactly when nothing matches |
| CodePen.MatchTag | src/preview/codepen.ts:30-31 | a tag followed by anything matches at its start with its own URL and its own length |
| CodePen.MatchAllTags | src/preview/codepen.ts:47-58 | reading the URLs back from tags written one after another gives the URLs, in order |
| CodePen.MatchAllAfterTag | src/preview/codepen.ts:47-58 | after a tag, collection goes on in the rest of the text |
| CodePen.HtmlPreProcessor | src/preview/codepen.ts:98-101 | `pug` exactly for a file ending in `.pug`, otherwise `none` |
| CodePen.JsPreProcessor | src/preview/codepen.ts:106-118 | `babel` exactly for `.babel`/`.jsx`, `typescript` exactly for `.ts`/`.tsx`, otherwise `none` |
| CodePen.CssPreProcessor | src/preview/codepen.ts:123-136 | the extension without its dot for `.scss`, `.sass` and `.less`, otherwise `none` |
| CodePen.ResolveLibraries | src/preview/codepen.ts:60-78 | one entry per library, in order: a URL as it is, a name as its cdnjs `latest`, an unknown name as "" |
| CodePen.External | src/preview/codepen.ts:180-186 | the field is set exactly for a non-empty list |
| CodePen.ExternalRoundTrip | src/preview/codepen.ts:180-186 | splitting the joined list on `;` gives the entries back, when none holds a `;` |
| CodePen.ExportManifest | src/preview/codepen.ts:152-162 | the export fails exactly when a non-empty `codeswing.json` does not parse; a parsed manifest is used as is |
| CodePen.WithReact | src/preview/codepen.ts:163-169 | a manifest listing `react` turns a `none` script into `babel`; anything else is kept |
| CodePen.BuildPen | src/preview/codepen.ts:88-186 | title and description are the swing name, tagged `codeswing`; each part present exactly when its file is, holding that file's contents with the pre-processor of its extension, `babel` instead of `none` when the manifest lists `react`; each external list is the URLs of the `scripts`/`styles` tag file followed, when there is a manifest, by its libraries resolved |
| CodePen.ExportPen | src/preview/codepen.ts:80-188 | fails exactly on an invalid manifest; otherwise the pen built from the swing's name, the files `getFileOfType` finds and the parsed manifest: each part exactly when its file is found, and the external lists of the tag files plus the manifest's resolved libraries |
| CodePen.ScriptTagsExported | src/preview/codepen.ts:139-186 | a swing with a `scripts` tag file and no manifest exports those URLs as its external scripts |
| CodePen.ManifestScriptsExported | src/preview/codepen.ts:139-186 | a swing without a `scripts` file whose manifest lists script URLs exports exactly those URLs, in order, as its external scripts |
| CodePen.ReactUpgradesPlainScript | src/preview/codepen.ts:163-169 | a manifest listing `react` turns a plain script into Babel, and a swing without a script has no pre-processor |
| CdnLibraries.CreateLibraryUrl | src/preview/libraries/index.ts:60-66 | the URL lies under the cdnjs prefix and ends with the file |
| CdnLibraries.LibraryUrlRoundTrip | src/preview/libraries/index.ts:60-66 | name, version and file can be read back from the URL when name and version hold no `/` |
| CdnLibraries.FilterOutCommonJs | src/preview/libraries/index.ts:68-74 | exactly the files not starting with `cjs` are kept, each as often as it occurs, in their original order |
| CdnLibraries.PlaygroundJson | src/preview/libraries/index.ts:76-87 | text that does not parse gives the default manifest; otherwise the parsed `scripts`/`styles`, or `[]` when missing, so both lists are always present |
| CdnLibraries.PlaygroundJsonKeepsParsedKeys | src/preview/libraries/index.ts:80-83 | every key the parsed text sets keeps its parsed value over the defaults |
| CdnLibraries.Dedup | src/preview/libraries/index.ts:104 | the same elements without repeats |
| CdnLibraries.DedupKeepsFirstOccurrenceOrder | src/preview/libraries/index.ts:104 | the kept elements stay in the order of their first occurrence |
| CdnLibraries.DedupOfDistinct | src/preview/libraries/index.ts:104 | a list without repeats is left unchanged |
| CdnLibraries.AddDependencyLink | src/preview/libraries/index.ts:89-110 | the chosen list holds exactly the old entries and the URL, without repeats, in first-occurrence order (an old list without repeats just gains the URL at the end, if new); the other list and every other field are unchanged; an unreadable file starts from the default manifest |
| CdnLibraries.AddedList | src/preview/libraries/index.ts:103-104 | the de-duplicated list with the URL appended holds every old entry and the URL once each, in first-occurrence order |
| CdnLibraries.AddToDistinctList | src/preview/libraries/index.ts:103-104 | a new URL is appended at the end; one already listed leaves the list unchanged |
| CdnLibraries.CreateLatestUrl | src/preview/libraries/index.ts:112-115 | a supported default library is added by its bare name, any other by its `latest` URL |
| CdnLibraries.FileChoice | src/preview/libraries/index.ts:158-174 | with more than one non-CommonJS file the user's pick; with exactly one that file without asking; with none the label `undefined` |
| CdnLibraries.LibraryUrl | src/preview/libraries/index.ts:176-183 | the `latest` version resolves through `createLatestUrl`; any other version gives exactly `createLibraryUrl(name, version, file)`, from which the three parts read back |
| CdnLibraries.AcceptLibrary | src/preview/libraries/index.ts:138-185 | a URL is added as it is; a dismissed version or file prompt adds nothing; otherwise the URL built from the chosen version and file |
| CdnLibraries.SingleFileNeedsNoPrompt | src/preview/libraries/index.ts:162-170 | when CommonJS filtering leaves one file, it is used even if the prompt would have been dismissed |
| UriComponent.Encode | src/preview/proxyFileSystemProvider.ts:68 | the encoding holds only unreserved characters, `%` and hexadecimal digits |
| UriComponent.DecodeEncode | src/preview/proxyFileSystemProvider.ts:25 | percent-decoding an encoded string gives it back, for every code point (one- to four-byte UTF-8) |
| UriComponent.DecodeEscapeOf | src/preview/proxyFileSystemProvider.ts:25 | the escapes of a character's UTF-8 bytes decode to that character and consume three characters per byte |
| UriComponent.LonePercentFails | src/preview/proxyFileSystemProvider.ts:25 | a lone `%` is a malformed escape, so decoding throws |
| ProxyFileSystem.ProxyUri | src/preview/proxyFileSystemProvider.ts:66-70 | a proxy URI has the `codeswing-proxy` scheme and a path starting with `/` |
| ProxyFileSystem.ProxyRoundTrip | src/preview/proxyFileSystemProvider.ts:25-68 | reading a proxy URI recovers exactly the text of the URI it was made from |
| ProxyFileSystem.FirstParam | src/preview/proxyFileSystemProvider.ts:31-32 | a query parameter is missing exactly when no pair has that name |
| ProxyFileSystem.RetargetForType | src/preview/proxyFileSystemProvider.ts:33-36 | the retargeted URI keeps scheme and authority and drops the query; the first `.js` of the path is replaced in place by `.<type>` with the text around it kept, and a path without `.js` is unchanged |
| ProxyFileSystem.WrapByType | src/preview/proxyFileSystemProvider.ts:42-58 | `json` becomes `export default …`, `css` a style-injecting script, `svelte` the component compiler's output, `jsx`/`tsx` the compiled script unless compilation gives nothing, and any other type the contents unchanged |
| ProxyFileSystem.ReadFile | src/preview/proxyFileSystemProvider.ts:24-64 | an undecodable path fails; a non-`.js` path reads the target unchanged; a `.js` path without query reads the target and rewrites its imports |
| ProxyFileSystem.JsonBecomesModule | src/preview/proxyFileSystemProvider.ts:28-60 | `<path>.js?type=json` is read from `<path>.json` and becomes a module exporting it, with its imports rewritten |
| ProxyFileSystem.ReadTypedScript | src/preview/proxyFileSystemProvider.ts:28-60 | a `.js` proxy file with a `type` query is the retargeted file, wrapped by type and with its imports rewritten |
| ProxyFileSystem.TypeParamOf | src/preview/proxyFileSystemProvider.ts:31-32 | the query `type=<t>` names type `t` |
| Manifests.WithLibraries | src/preview/libraries/index.ts:103-104 | the chosen list is replaced and the other list is kept |
| Manifests.SpreadLookup | src/preview/index.ts:279-282 | in `{...base, ...over}` a key present in `over` has its value, any other key keeps the base's |
| Manifests.SpreadIsObjectUnion | src/preview/libraries/index.ts:80-83 | the spread is the union of the two JSON objects, with the right-hand object winning |
| Manifests.WithoutTemplate | src/creation/index.ts:86 | `template` is gone and every other key keeps its value |
| Manifests.WithoutTemplateRemovesKey | src/creation/index.ts:86 | as a JSON object, exactly the `template` key is removed |
| InputFileSystem.ReadFile | src/preview/tutorials/inputFileSystem.ts:22-26 | the text stored under the base name, or "" for a name never written |
| InputFileSystem.WriteFile | src/preview/tutorials/inputFileSystem.ts:28-35 | the base name is stored, and every other name keeps its text |
| InputFileSystem.Delete | src/preview/tutorials/inputFileSystem.ts:37-40 | exactly the base name is forgotten; the rest keep their text |
| InputFileSystem.WriteThenRead | src/preview/tutorials/inputFileSystem.ts:22-35 | reading after writing the same URI gives back the text written |
| InputFileSystem.SameNameAliases | src/preview/tutorials/inputFileSystem.ts:23-34 | URIs whose paths end in the same name share one input, whatever their directories |
| InputFileSystem.WriteLeavesOthers | src/preview/tutorials/inputFileSystem.ts:28-35 | writing one name leaves every other name's text unchanged |
| InputFileSystem.DeleteThenRead | src/preview/tutorials/inputFileSystem.ts:22-40 | after a delete the name reads as "", and other names read as before |
| TemplateMru.GetTemplateMru | src/creation/storage.ts:20-23 | nothing stored gives `[]`; otherwise a template is in the result exactly when it is stored |
| TemplateMru.FilterKeepsOrder | src/creation/storage.ts:20-23 | the `null` filter keeps stored order and repeats: a concatenation reads back part by part, a template as itself and `null` as nothing |
| TemplateMru.RemoveFirst | src/creation/storage.ts:26-29 | without the template the list is unchanged; with it, one entry shorter, other entries in their order |
| TemplateMru.AddTemplate | src/creation/storage.ts:24-36 | the template comes first, at most 3 entries are kept, the rest keep their relative order, and the length is the grown length capped at 3 |
| TemplateMru.AddTwiceIsOnce | src/creation/storage.ts:24-36 | adding the same template twice in a row is the same as adding it once |
| TemplateMru.AddHeadUnchanged | src/creation/storage.ts:24-36 | adding the template already first in a full-size list changes nothing |
| TemplateMru.RemoveFirstDistinct | src/creation/storage.ts:26-29 | in a list without repeats, removal drops exactly that template |
| TemplateMru.AddKeepsDistinct | src/creation/storage.ts:24-36 | a list without repeats stays without repeats |
| TemplateMru.AddKeepsRecent | src/creation/storage.ts:24-36 | the entries among the first two stay in the list |
| TempFileSystem.Find | src/creation/tempFileSystem.ts:17 | the position of the path in a swing's files, `-1` exactly when no file has that path |
| TempFileSystem.Put | src/creation/tempFileSystem.ts:118 | `Map.set`: the path then holds the new bytes, every other path keeps its bytes, and an existing path keeps its position while a new one is appended |
| TempFileSystem.Remove | src/creation/tempFileSystem.ts:45 | `Map.delete`: the path no longer occurs, and the remaining paths keep their order |
| TempFileSystem.RemoveLeavesOthers | src/creation/tempFileSystem.ts:45 | deleting a path leaves every other path's bytes as they were |
| TempFileSystem.ReadFile | src/creation/tempFileSystem.ts:49-55 | FileNotFound exactly for an unknown swing; otherwise `undefined` exactly when no file has the path, and else the bytes of the first file with that path |
| TempFileSystem.ReadDirectory | src/creation/tempFileSystem.ts:57-65 | FileNotFound exactly for an unknown swing; otherwise every path of the swing as a file, in insertion order |
| TempFileSystem.Delete | src/creation/tempFileSystem.ts:40-47 | FileNotFound exactly for an unknown swing; otherwise one Deleted event, and the other swings are untouched |
| TempFileSystem.Write | src/creation/tempFileSystem.ts:113-118 | a missing swing is created, and the other swings are untouched |
| TempFileSystem.WriteEventAsWritten | src/creation/tempFileSystem.ts:117-120 | as written, a write reports Created exactly when the path already existed |
| TempFileSystem.WriteEvent | src/creation/tempFileSystem.ts:117-120 | the corrected event is Created exactly for a new path, Changed otherwise |
| TempFileSystem.WriteFile | src/creation/tempFileSystem.ts:108-122 | corrected: the store after the write, with a single event that is Created exactly for a new path |
| TempFileSystem.WriteFileAsWritten | src/creation/tempFileSystem.ts:108-122 | as written: the same store as the corrected write, and a single event that is Created exactly when the path existed, always the opposite of the corrected one |
| TempFileSystem.FirstWriteReportedAsChange | src/creation/tempFileSystem.ts:117-121 | as written, the first write into an empty store is announced as Changed; the corrected event says Created |
| TempFileSystem.SecondWriteIsChange | src/creation/tempFileSystem.ts:117-121 | a second write to the same path is reported as Changed |
| TempFileSystem.WriteThenRead | src/creation/tempFileSystem.ts:49-55 | reading after a write gives back the bytes written |
| TempFileSystem.WriteLeavesOthers | src/creation/tempFileSystem.ts:108-122 | a write changes no other file |
| TempFileSystem.WriteKeepsValid | src/creation/tempFileSystem.ts:108-122 | a write keeps every swing's paths distinct, and the written path is listed |
| TempFileSystem.DeleteThenRead | src/creation/tempFileSystem.ts:40-65 | after a delete the path reads as never written and is not listed, while other paths read as before |
| TempFileSystem.Stat | src/creation/tempFileSystem.ts:82-106 | `/` is a directory of size 100; an unstored path, or one in an unknown swing, is FileNotFound; a stored file reports the length of its bytes |
| TempFileSystem.StatAfterWrite | src/creation/tempFileSystem.ts:82-122 | a written file's size is the length of the bytes written |
| TempFileSystem.RenameAsWritten | src/creation/tempFileSystem.ts:67-80 | as written: the old path's key is gone; what the old path names among the authorities is stored under the new path (nothing when it names none); every other authority keeps its files; the events are Deleted then Created |
| TempFileSystem.RenameAsWrittenMovesNothing | src/creation/tempFileSystem.ts:67-80 | as written, renaming a file inside a swing leaves it readable at its old URI and unreadable at the new one |
| TempFileSystem.Rename | src/creation/tempFileSystem.ts:67-80 | the corrected rename fails exactly when the old file does not exist, and announces Deleted then Created |
| TempFileSystem.RenameMoves | src/creation/tempFileSystem.ts:67-80 | after the corrected rename the new URI holds the old bytes and the old URI reads as never written |
| AiFiles.RequestPrompt | src/ai/index.ts:13-17 | the prompt sits between `REQUEST:\n` and `\n\nRESPONSE:\n`, unchanged |
| AiFiles.DropProse | src/ai/index.ts:97-100 | with a file marker, the answer from its first marker on, with no marker in the prose dropped; without one, `slice(-1)` leaves at most the last character |
| AiFiles.ParseChunk | src/ai/index.ts:107-110 | a file has content exactly when the trimmed chunk contains `]=\n`; without it, the name is the trimmed chunk with its first marker removed |
| AiFiles.BlankChunkIsNameless | src/ai/index.ts:107-110 | a whitespace-only chunk yields a file with no name and no content |
| AiFiles.FilesOfChunksAsWritten | src/ai/index.ts:104-111 | as written, exactly the non-empty chunks become files, before trimming |
| AiFiles.FilesOfChunks | src/ai/index.ts:104-111 | corrected, exactly the chunks that are not blank become files |
| AiFiles.BlankTailChunk | src/ai/index.ts:104-111 | a trailing whitespace chunk adds a nameless file as written, and nothing when corrected |
| AiFiles.TrailingNewlineAsWritten | src/ai/index.ts:104-111 | an answer ending in a newline after its last file gets an extra nameless file as written, but not when corrected |
| AiFiles.SplitAroundSeparator | src/ai/index.ts:105 | splitting on `—>>` around a separator gives the text before it and the text after it |
| AiFiles.ParseFilesAsWritten | src/ai/index.ts:104-111 | as written: at most one file per `—>>` chunk, and exactly the parses of the non-empty chunks |
| AiFiles.ParseFiles | src/ai/index.ts:104-111 | corrected: at most one file per chunk, and exactly the parses of the chunks that are not blank |
| AiFiles.MergeDuplicates | src/ai/index.ts:113-122 | names and count are kept; every later file of a name stays as parsed, and the first file of a name carries its content followed by every later content of that name, in order, each after a blank line |
| AiFiles.MergeDistinct | src/ai/index.ts:113-122 | with distinct names nothing changes |
| AiFiles.MergeTwoOfOneName | src/ai/index.ts:113-122 | with two files of one name the first carries both contents joined by a blank line, and the second stays |
| AiFiles.FirstScript | src/ai/index.ts:129-131 | the index of the first `script.*` file, none before it |
| AiFiles.DropStrayScript | src/ai/index.ts:126-135 | without a component file nothing changes; otherwise every component stays, nothing is added, and when a script exists exactly one file, the first script, is dropped |
| AiFiles.CarryOverShape | src/ai/index.ts:137-146 | the new files come first, unchanged, followed only by files of the previous version |
| AiFiles.CarryOverKeepsNames | src/ai/index.ts:137-146 | after the carry-over every name of the previous version is present |
| AiFiles.CarryOverDistinct | src/ai/index.ts:137-146 | with distinct names on both sides, the carry-over adds no second file of a name |
| AiFiles.Synthesize | src/ai/index.ts:37-150 | as written: fails exactly when there is no history; otherwise history gains one version with the templated prompt and the files; every name of the previous version survives, and a first request yields at most one file per chunk, each named by a non-empty chunk |
| AiFiles.SynthesizeIntended | src/ai/index.ts:37-150 | corrected: as `Synthesize`, but the files of a first request are named only by chunks that are not blank |
| AiFiles.SynthesizeFrom | src/ai/index.ts:113-150 | after parsing: no history fails; otherwise the version is recorded, the previous version's names survive, and a first request yields no more files than parsed, all with parsed names |
| SwingStore.FirstNamed | src/ai/index.ts:116 | the position of the first file with the name, none before it; the length when there is none |
| SwingStore.FirstNamedOfSameNames | src/ai/index.ts:116 | the first position of a name depends only on the list of names |
| Galleries.FirstWithId | src/creation/galleryProvider.ts:44-46 | the first registration with the id, none before it; the length when there is none |
| Galleries.EnableSetting | src/creation/galleryProvider.ts:44-57 | a known id enables its first registration only; an unknown `https://` entry is appended as an enabled gallery of that URL; any other entry changes nothing |
| Galleries.EnableAll | src/creation/galleryProvider.ts:43-58 | existing registrations keep id and URL, and every appended one is a setting entry starting with `https://` |
| Galleries.DisableUnlisted | src/creation/galleryProvider.ts:60-64 | a registration stays enabled exactly when it was and its id is listed in the setting |
| Galleries.ApplySettings | src/creation/galleryProvider.ts:43-64 | no registration whose id the setting does not list is enabled, and the appended ones are setting URLs |
| Galleries.EnableAllEnables | src/creation/galleryProvider.ts:43-58 | a listed entry that is a known id or a URL ends with an enabled first registration |
| Galleries.EnableSettingKeeps | src/creation/galleryProvider.ts:44-57 | one step keeps an enabled first registration enabled and at its position |
| Galleries.ListedIsEnabled | src/creation/galleryProvider.ts:43-64 | after both loops the first registration of every listed id (or URL) is enabled |
| Galleries.LoadGallery | src/creation/galleryProvider.ts:66-77 | the registration's id, URL and flag are kept, and every template is kept with its label prefixed by `<gallery label>: ` |
| Galleries.LoadGalleries | src/creation/galleryProvider.ts:26-86 | each gallery is the settings-applied registration at its position loaded from what its URL serves; the registrations come first, in order, with their id and URL; no gallery the setting does not list is enabled; the first registration of every listed id is enabled |
| Galleries.LoadEach | src/creation/galleryProvider.ts:66-86 | one gallery per registration, in order, each loaded from what the registration's URL serves |
| Creation.WithManifest | src/creation/index.ts:79-93 | a template without `codeswing.json` gets the default manifest appended; a non-empty one that parses is rewritten without `template` in place; an empty or unparsable one, and every other file, is left as it is |
| Creation.ManifestPresent | src/creation/index.ts:79-93 | every new swing has a `codeswing.json` |
| Creation.TemplateFlagDropped | src/creation/index.ts:83-88 | when serializing and parsing agree, the manifest written parses to one without the `template` flag |
| Creation.TargetContents | src/creation/index.ts:95-111 | every file is handed on under its name, a missing content as "" |
| Creation.LexLeTotal | src/creation/index.ts:37 | any two titles compare one way or the other |
| Creation.Insert | src/creation/index.ts:37 | inserting into a list sorted by title keeps it sorted and adds exactly the template |
| Creation.SortByTitle | src/creation/index.ts:37 | the result is sorted by title and a permutation of the input |
| Creation.InsertWithKey | src/creation/index.ts:37 | among the templates of one title key the inserted one comes first and the rest keep their order |
| Creation.SortIsStable | src/creation/index.ts:37 | the sort is stable: the templates of each title key keep their original order |
| Creation.EnabledTemplates | src/creation/index.ts:34-36 | exactly the templates of the enabled galleries |
| Creation.TemplateItems | src/creation/index.ts:34-47 | the placeholder alone exactly when no enabled gallery offers a template; otherwise those templates, sorted by title and each labelled with its title, so the gallery prefix is lost |
| Creation.RelabelSort | src/creation/index.ts:37-38 | sorting then labelling by title equals labelling then sorting |
| Creation.Accept | src/creation/index.ts:59-70 | a swing is created exactly when the item carries files, and it always has a manifest |
| Creation.PlaceholderCreatesNothing | src/creation/index.ts:40-45 | choosing the placeholder creates nothing |

## Left out

- Editor and webview plumbing is not modelled. This covers panels, message delivery, decorations, output channels, QuickPick flows, the tree view, tours, Live Share and the commands; they are host I/O.
- The HTML text of the preview page is not produced. The model computes the values that go into it: library tags, script type, README placement and the navigation flags.
- Network access is a parameter: the cdnjs and Skypack registries, gallery fetching, the HTTP proxy in `src/preview/webview.ts` and the AI API call. A failed fetch is not modelled.
- The AI request's preamble, the edit and error prompts, and the API call in `src/ai/index.ts` are left out. Only the post-processing of the answer is modelled.
- `AiFiles.RequestPrompt` ignores the `$` substitution patterns of JavaScript's `String.replace`, which apply when the prompt contains `$`.
- Third-party compilers are parameters: TypeScript transpile, Sass and Less, Pug, markdown-it, and the Svelte, Vue and Go compilers.
- `JSON.parse` and `JSON.stringify` are parameters. JSON `null` and a missing key are not told apart, and keys outside the manifest's fields are dropped.
- `Host` treats URI parsing as text-preserving. Bytes and text are the same string; the byte-conversion helpers are not modelled.
- SortByTitle: orders titles by the code points of their ASCII-upper-cased text. The original's `localeCompare` without options uses the locale's collation, which differs in more than accents and case: ASCII punctuation in 0x5B-0x60 (`[ \ ] ^ _` and the backtick) and 0x7B-0x7E (`{ | } ~`) sorts before letters there but after `A`-`Z` here (so `"_a"` comes after `"b"` in the model), and a non-ASCII letter such as `é` sorts after every ASCII letter here but next to its base letter there (so `"é"` comes after `"f"`).
- `CdnLibraries.AddDependencyLink` uses value semantics. In the original, mutation through the shared default manifest's arrays can leak between calls.
- `ProxyFileSystem.QueryParam` reads `name=value` pairs without the percent-decoding and `+` handling of `URLSearchParams`.
- `TempFileSystem.Remove` drops every entry for the path. Under `TempFileSystem.Valid` that is the same as `Map.delete`.
- TempFileSystem: `createDirectory`, `copy` and `watch` do nothing in the original, and `clear` is not modelled.
- `TempFileSystem.RenameAsWritten` models the `undefined` value read from the wrong key as an absent entry.
- `Webview.NavigateTutorial` stands in the default manifest where the original throws on a missing manifest.
- `Webview.ResolveLibraries` emits the URL tags first, then the resolved registry names, each group in list order. This is the order the asynchronous resolution produces.
- Timing is not modelled: the 100 ms debounce, the auto-save timers and the in-flight promise caches. Events are handled one at a time.
- The `hasTemplateMRU` context key is a host side effect and is not modelled.
- The `URI_PATTERN` regex of `src/constants.ts` is an uninterpreted predicate.
- Regular expressions are modelled as token- or line-level scanners. Each scanner's doc comment states its simplification.
- ImportMatchAt: `\s` is taken not to match a line terminator. An import split across lines, such as `import\nx from 'y'`, is rewritten by the original regex but not matched by the model.
- ProcessImports: the lemmas cover one import line, alone or after lines of prose. A text with several imports is covered only by the one-step unfolding lemmas `SkypackRewrite.RewriteAtMatch` and `SkypackRewrite.RewriteWithoutMatch`.
- IsSwingDocument: `toUpperCase` is modelled as ASCII upper-casing, so pairs such as `é`/`É`, or `ß` becoming `SS`, are not folded. The base-sensitivity `localeCompare` of scheme, authority and query is modelled the same way, so accents are not ignored either.
- Markup.Content: the `toLocaleLowerCase` of the extension is modelled as ASCII lower-casing, so a character such as U+212A (Kelvin sign), which folds to `k`, is kept. The same holds for `Stylesheet.Content` and `Script.GetScriptContent`.
- RetargetForType: the `$` substitution patterns of `String.replace` are ignored; they apply when the `type` query holds `$`.
- AddDependencyLink: the manifest text is a parameter. `src/preview/libraries/index.ts:93` joins `PLAYGROUND_FILE` to the swing URI, a name `src/constants.ts` does not export, so which file is read and written is not modelled.

## Findings

| source | as written | input that shows it | evidently intended | confidence | as-written member | corrected member |
|---|---|---|---|---|---|---|
| src/preview/index.ts:261-263 | the step directory is the first entry matching `^#?<step>`, which is a text prefix | step 1 with the listing `["10_end", "1_intro"]` opens `10_end` | the entry whose leading number is exactly the step | not executed | Preview.StepDirectoryAsWritten, Preview.StepOneOpensStepTen, Preview.OpenSwing | Preview.StepDirectory, Preview.StepDirectoryFindsNamedStep, Preview.OpenSwingIntended |
| src/preview/codepen.ts:11-14 | quotes are escaped, but other `&` characters are not | markup holding `&lt;` reaches CodePen as `<` | `&` escaped first, so the value reads back as the JSON text | not executed | CodePen.EscapeAsWritten, CodePen.EscapeAsWrittenLosesEntities, CodePen.ExportMarkup | CodePen.Escape, CodePen.EscapeRoundTrip, CodePen.ExportMarkupIntended |
| src/creation/tempFileSystem.ts:117-121 | `isNew` is true when the path already exists | the first write of a file is announced as Changed | Created for a new path, Changed for an existing one | not executed | TempFileSystem.WriteEventAsWritten, TempFileSystem.FirstWriteReportedAsChange, TempFileSystem.WriteFileAsWritten | TempFileSystem.WriteEvent, TempFileSystem.SecondWriteIsChange, TempFileSystem.WriteFile |
| src/creation/tempFileSystem.ts:67-80 | rename looks the old path up among the authorities | renaming `/a` inside a swing leaves `/a` readable and moves nothing | the file moves from the old path to the new one | not executed | TempFileSystem.RenameAsWritten, TempFileSystem.RenameAsWrittenMovesNothing | TempFileSystem.Rename, TempFileSystem.RenameMoves |
| src/ai/index.ts:104-111 | empty chunks are dropped before trimming | an answer ending in a newline after its last file yields an extra nameless file | blank chunks dropped | not executed | AiFiles.FilesOfChunksAsWritten, AiFiles.TrailingNewlineAsWritten, AiFiles.ParseFilesAsWritten, AiFiles.Synthesize | AiFiles.FilesOfChunks, AiFiles.ParseFiles, AiFiles.SynthesizeIntended |
| src/api.ts:2-9 | the manifest clause compares against `PLAYGROUND_FILE`, which `src/constants.ts` does not export, so the value is `undefined` | a directory holding only `codeswing.json` is not recognised as a swing | the manifest name `codeswing.json` (`SWING_FILE`) | not executed | Api.IsPlaygroundAsWritten, Api.ManifestAloneMissedAsWritten | Api.IsPlayground, Api.PlaygroundIffMarker |
