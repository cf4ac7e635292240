/** The swing manifest (`codeswing.json`), as the extension reads it after
    `JSON.parse`. Every key is optional; a missing key is `None`. */
module Manifests {
  import opened Wrappers

  /** The optional tutorial input descriptor. */
  datatype Input = Input(fileName: Option<string>, prompt: Option<string>, completionMessage: Option<string>)

  /** The manifest record. `layout`, `scriptType` and `readmeBehavior` are kept as
      the strings the JSON holds, because the code compares them with literals
      and never validates them. */
  datatype Manifest = Manifest(
    scripts: Option<seq<string>>,
    styles: Option<seq<string>>,
    layout: Option<string>,
    showConsole: Option<bool>,
    template: Option<bool>,
    scriptType: Option<string>,
    readmeBehavior: Option<string>,
    tutorial: Option<string>,
    input: Option<Input>,
    themePreview: Option<bool>)

  /** The JSON text parser, `JSON.parse`, which fails on malformed text. */
  type Parser = string -> Option<Manifest>

  /** The serializer, `JSON.stringify(m, null, 2)`. */
  type Serializer = Manifest -> string

  /** `{}` */
  const Empty: Manifest := Manifest(None, None, None, None, None, None, None, None, None, None)

  /** `DEFAULT_MANIFEST`: empty script and style lists. */
  const Default: Manifest := Empty.(scripts := Some([]), styles := Some([]))

  /** The two library lists a manifest carries. */
  datatype LibraryType = ScriptLibraries | StyleLibraries

  /** `manifest[libraryType]` */
  function Libraries(m: Manifest, kind: LibraryType): Option<seq<string>> {
    match kind
    case ScriptLibraries => m.scripts
    case StyleLibraries => m.styles
  }

  /** The manifest with `manifest[libraryType]` replaced. */
  function WithLibraries(m: Manifest, kind: LibraryType, list: seq<string>): (r: Manifest)
    ensures Libraries(r, kind) == Some(list)
    ensures kind.ScriptLibraries? ==> r.styles == m.styles
    ensures kind.StyleLibraries? ==> r.scripts == m.scripts
    ensures r.(scripts := m.scripts, styles := m.styles) == m
  {
    match kind
    case ScriptLibraries => m.(scripts := Some(list))
    case StyleLibraries => m.(styles := Some(list))
  }

  /** The keys of the JSON object a manifest stands for. */
  datatype Key = ScriptsKey | StylesKey | LayoutKey | ShowConsoleKey | TemplateKey
               | ScriptTypeKey | ReadmeBehaviorKey | TutorialKey | InputKey | ThemePreviewKey

  /** The values those keys hold. */
  datatype Value = Strings(list: seq<string>) | Text(text: string) | Flag(flag: bool) | InputValue(input: Input)

  const AllKeys: set<Key> := {ScriptsKey, StylesKey, LayoutKey, ShowConsoleKey, TemplateKey,
                               ScriptTypeKey, ReadmeBehaviorKey, TutorialKey, InputKey, ThemePreviewKey}

  /** `manifest[key]`, or `None` when the key is absent. */
  function Get(m: Manifest, k: Key): Option<Value> {
    match k
    case ScriptsKey => if m.scripts.Some? then Some(Strings(m.scripts.value)) else None
    case StylesKey => if m.styles.Some? then Some(Strings(m.styles.value)) else None
    case LayoutKey => if m.layout.Some? then Some(Text(m.layout.value)) else None
    case ShowConsoleKey => if m.showConsole.Some? then Some(Flag(m.showConsole.value)) else None
    case TemplateKey => if m.template.Some? then Some(Flag(m.template.value)) else None
    case ScriptTypeKey => if m.scriptType.Some? then Some(Text(m.scriptType.value)) else None
    case ReadmeBehaviorKey => if m.readmeBehavior.Some? then Some(Text(m.readmeBehavior.value)) else None
    case TutorialKey => if m.tutorial.Some? then Some(Text(m.tutorial.value)) else None
    case InputKey => if m.input.Some? then Some(InputValue(m.input.value)) else None
    case ThemePreviewKey => if m.themePreview.Some? then Some(Flag(m.themePreview.value)) else None
  }

  /** The manifest seen as a JSON object: the map from present keys to values. */
  function AsObject(m: Manifest): map<Key, Value> {
    map k | k in AllKeys && Get(m, k).Some? :: Get(m, k).value
  }

  /** Object spread `{...base, ...over}`: the keys of both objects, with the
      values of `over` winning where both have the key. */
  function Spread(base: Manifest, over: Manifest): Manifest {
    Manifest(
      if over.scripts.Some? then over.scripts else base.scripts,
      if over.styles.Some? then over.styles else base.styles,
      if over.layout.Some? then over.layout else base.layout,
      if over.showConsole.Some? then over.showConsole else base.showConsole,
      if over.template.Some? then over.template else base.template,
      if over.scriptType.Some? then over.scriptType else base.scriptType,
      if over.readmeBehavior.Some? then over.readmeBehavior else base.readmeBehavior,
      if over.tutorial.Some? then over.tutorial else base.tutorial,
      if over.input.Some? then over.input else base.input,
      if over.themePreview.Some? then over.themePreview else base.themePreview)
  }

  /** Looking a key up in a spread: keys present in `over` take its value,
      every other key keeps the value (or absence) it has in `base`. */
  lemma SpreadLookup(base: Manifest, over: Manifest)
    ensures forall k :: Get(Spread(base, over), k) == if Get(over, k).Some? then Get(over, k) else Get(base, k)
  {
    var r := Spread(base, over);
    forall k ensures Get(r, k) == if Get(over, k).Some? then Get(over, k) else Get(base, k) {
      match k
      case ScriptsKey =>
      case StylesKey =>
      case LayoutKey =>
      case ShowConsoleKey =>
      case TemplateKey =>
      case ScriptTypeKey =>
      case ReadmeBehaviorKey =>
      case TutorialKey =>
      case InputKey =>
      case ThemePreviewKey =>
    }
  }

  /** `delete manifest.template`: the same object without the `template` key. */
  function WithoutTemplate(m: Manifest): (r: Manifest)
    ensures Get(r, TemplateKey).None?
    ensures forall k :: k != TemplateKey ==> Get(r, k) == Get(m, k)
  {
    m.(template := None)
  }

  /** The spread of two manifests is the union of their JSON objects, the
      right-hand object winning on shared keys. */
  lemma SpreadIsObjectUnion(base: Manifest, over: Manifest)
    ensures AsObject(Spread(base, over)) == AsObject(base) + AsObject(over)
  {
    var r := Spread(base, over);
    SpreadLookup(base, over);
    forall k | k in AllKeys
      ensures (k in AsObject(r)) == (k in AsObject(base) + AsObject(over))
      ensures k in AsObject(r) ==> AsObject(r)[k] == (AsObject(base) + AsObject(over))[k]
    {
    }
  }

  /** Removing `template` removes exactly that key from the JSON object. */
  lemma WithoutTemplateRemovesKey(m: Manifest)
    ensures AsObject(WithoutTemplate(m)) == AsObject(m) - {TemplateKey}
  {
  }
}
