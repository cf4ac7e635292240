/** The registry of third-party language providers (`languageProvider.ts`):
    for each language type, the extensions contributed by installed extensions
    and the id of the extension that compiles each one. */
module LanguageProvider {
  import opened Wrappers
  import opened Strings

  datatype LanguageType = MarkupLanguage | StylesheetLanguage | ScriptLanguage

  /** One entry of a per-type `Map<string, string>`: extension to provider id. */
  datatype Registration = Registration(extension: string, source: string)

  /** The per-type maps. A JavaScript `Map` keeps its keys in insertion order,
      so each one is an association list without repeated extensions. */
  type Registry = map<LanguageType, seq<Registration>>

  /** One `playground.languages` contribution of an installed extension. */
  datatype Definition = Definition(kind: LanguageType, extensions: seq<string>, source: string)

  /** A provider's `playgroundCompile(extension, code)`; `None` for a null
      result or a thrown error. */
  type Compiler = (string, string) -> Option<string>

  /** The extension host: the `playgroundCompile` export of the extension with
      the given id, activated if need be, or `None` when the extension is not
      installed or does not export one. */
  type ExtensionHost = string -> Option<Compiler>

  /** `Map.prototype.get` */
  function Find(entries: seq<Registration>, extension: string): (r: Option<string>)
    ensures r.Some? <==> extension in Keys(entries)
  {
    if |entries| == 0 then None
    else if entries[0].extension == extension then
      assert Keys(entries)[0] == extension;
      Some(entries[0].source)
    else
      assert Keys(entries) == [entries[0].extension] + Keys(entries[1..]);
      Find(entries[1..], extension)
  }

  /** `Map.prototype.keys`, in insertion order. */
  function Keys(entries: seq<Registration>): seq<string> {
    seq(|entries|, i requires 0 <= i < |entries| => entries[i].extension)
  }

  /** `Map.prototype.set`: an existing key keeps its place and gets the new
      value; a new key is appended. */
  function Put(entries: seq<Registration>, extension: string, source: string): (r: seq<Registration>)
    ensures Find(r, extension) == Some(source)
    ensures forall e :: e != extension ==> Find(r, e) == Find(entries, e)
  {
    if |entries| == 0 then [Registration(extension, source)]
    else if entries[0].extension == extension then [Registration(extension, source)] + entries[1..]
    else
      var rest := Put(entries[1..], extension, source);
      assert ([entries[0]] + rest)[1..] == rest;
      [entries[0]] + rest
  }

  /** Setting a key keeps the insertion order: an existing key stays where it
      is and a new key goes last. */
  lemma {:induction false} PutKeys(entries: seq<Registration>, extension: string, source: string)
    ensures Keys(Put(entries, extension, source)) ==
      if extension in Keys(entries) then Keys(entries) else Keys(entries) + [extension]
    decreases |entries|
  {
    if |entries| == 0 {
      assert Keys(Put(entries, extension, source)) == [extension];
    } else if entries[0].extension == extension {
      KeysCons(Registration(extension, source), entries[1..]);
      KeysCons(entries[0], entries[1..]);
      assert [entries[0]] + entries[1..] == entries;
    } else {
      PutKeys(entries[1..], extension, source);
      PutKeysCons(entries[0], entries[1..], extension, source);
      assert [entries[0]] + entries[1..] == entries;
    }
  }

  /** One step of `PutKeys`: a head whose key differs is kept in front. */
  lemma PutKeysCons(x: Registration, rest: seq<Registration>, extension: string, source: string)
    requires x.extension != extension
    requires Keys(Put(rest, extension, source)) ==
      if extension in Keys(rest) then Keys(rest) else Keys(rest) + [extension]
    ensures Keys(Put([x] + rest, extension, source)) ==
      if extension in Keys([x] + rest) then Keys([x] + rest) else Keys([x] + rest) + [extension]
  {
    assert ([x] + rest)[1..] == rest;
    KeysCons(x, Put(rest, extension, source));
    KeysCons(x, rest);
    var tail := Keys(rest);
    assert extension in Keys([x] + rest) <==> extension in tail;
    assert [x.extension] + (tail + [extension]) == ([x.extension] + tail) + [extension];
  }

  lemma KeysCons(x: Registration, entries: seq<Registration>)
    ensures Keys([x] + entries) == [x.extension] + Keys(entries)
  {
  }

  /** Hence the keys of a map never repeat. */
  lemma PutNoDuplicates(entries: seq<Registration>, extension: string, source: string)
    requires NoDuplicates(Keys(entries))
    ensures NoDuplicates(Keys(Put(entries, extension, source)))
  {
    PutKeys(entries, extension, source);
  }

  /** Setting every extension of one definition to its source. */
  function PutAll(entries: seq<Registration>, extensions: seq<string>, source: string): (r: seq<Registration>)
    ensures forall e :: Find(r, e) == if e in extensions then Some(source) else Find(entries, e)
    decreases |extensions|
  {
    if |extensions| == 0 then entries
    else
      var r := PutAll(Put(entries, extensions[0], source), extensions[1..], source);
      assert forall e :: e in extensions <==> e == extensions[0] || e in extensions[1..];
      r
  }

  /** `languages.get(type)?.get(extension)` */
  function Lookup(registry: Registry, kind: LanguageType, extension: string): Option<string> {
    if kind in registry then Find(registry[kind], extension) else None
  }

  /** `getExtensions`: the registered extensions of a type, or `[]` when the
      type has no map. */
  function GetExtensions(registry: Registry, kind: LanguageType): (r: seq<string>)
    ensures kind !in registry ==> r == []
    ensures forall e :: e in r <==> Lookup(registry, kind, e).Some?
  {
    if kind in registry then Keys(registry[kind]) else []
  }

  /** The body of the `forEach` in `discoverLanguageProviders` for one
      definition: create the type's map if missing, then set each extension. */
  function Register(registry: Registry, definition: Definition): (r: Registry)
    ensures forall k, e ::
      Lookup(r, k, e) == (if k == definition.kind && e in definition.extensions then Some(definition.source)
                          else Lookup(registry, k, e))
  {
    var entries := if definition.kind in registry then registry[definition.kind] else [];
    registry[definition.kind := PutAll(entries, definition.extensions, definition.source)]
  }

  /** `discoverLanguageProviders`: every definition registered in order, on top
      of what the registry already holds. */
  function Discover(registry: Registry, definitions: seq<Definition>): Registry
    decreases |definitions|
  {
    if |definitions| == 0 then registry
    else Discover(Register(registry, definitions[0]), definitions[1..])
  }

  /** The provider of the LAST definition of `kind` that lists `extension`:
      an independent statement of which registration wins. */
  function LastProvider(definitions: seq<Definition>, kind: LanguageType, extension: string): Option<string>
    decreases |definitions|
  {
    if |definitions| == 0 then None
    else
      var later := LastProvider(definitions[1..], kind, extension);
      if later.Some? then later
      else if definitions[0].kind == kind && extension in definitions[0].extensions then Some(definitions[0].source)
      else None
  }

  /** After discovery an extension maps to the source of the last definition
      that lists it for that type; extensions no definition lists, and every
      other type, keep what they had. */
  lemma {:induction false} DiscoverLookup(registry: Registry, definitions: seq<Definition>, kind: LanguageType, extension: string)
    ensures Lookup(Discover(registry, definitions), kind, extension) ==
      if LastProvider(definitions, kind, extension).Some? then LastProvider(definitions, kind, extension)
      else Lookup(registry, kind, extension)
    decreases |definitions|
  {
    if |definitions| > 0 {
      DiscoverLookup(Register(registry, definitions[0]), definitions[1..], kind, extension);
    }
  }

  /** `compileCode`: the registered provider's compiler applied to the code, or
      `None` when no non-empty provider id is registered for the pair, or the
      provider cannot be loaded. */
  function CompileCode(registry: Registry, host: ExtensionHost, kind: LanguageType, extension: string, code: string): (r: Option<string>)
    ensures Lookup(registry, kind, extension).None? ==> r.None?
    ensures Lookup(registry, kind, extension) == Some("") ==> r.None?
    ensures forall id :: Lookup(registry, kind, extension) == Some(id) && host(id).None? ==> r.None?
    ensures forall id :: Lookup(registry, kind, extension) == Some(id) && id != "" && host(id).Some? ==>
      r == host(id).value(extension, code)
  {
    match Lookup(registry, kind, extension)
    case None => None
    case Some(id) =>
      if id == "" then None
      else match host(id)
        case None => None
        case Some(compiler) => compiler(extension, code)
  }

  /** Compiling after discovery reaches the compiler of the last definition
      that registered the extension. */
  lemma CompileAfterDiscover(registry: Registry, definitions: seq<Definition>, host: ExtensionHost,
                             kind: LanguageType, extension: string, code: string, id: string)
    requires LastProvider(definitions, kind, extension) == Some(id) && id != ""
    ensures CompileCode(Discover(registry, definitions), host, kind, extension, code) ==
      if host(id).Some? then host(id).value(extension, code) else None
  {
    DiscoverLookup(registry, definitions, kind, extension);
  }
}
