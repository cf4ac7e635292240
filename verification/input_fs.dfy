/** The in-memory file system behind a tutorial step's input file: one text
    per file name, keyed by the base name of the URI's path only. */
module InputFileSystem {
  import opened Strings
  import opened Host

  /** The stored inputs, by base name. */
  type Files = map<string, string>

  /** The key a URI is stored under (`path.basename(uri.path)`). */
  function Key(uri: Uri): string {
    BaseName(uri.path)
  }

  /** `stat`: every URI is reported as a file of 100 bytes. */
  function Stat(uri: Uri): (r: FileStat)
    ensures r.kind == File && r.size == 100
  {
    FileStat(File, 100)
  }

  /** `readFile`: the stored text, or "" for a name never written (the text
      encoder turns `undefined` into no bytes). */
  function ReadFile(files: Files, uri: Uri): (r: string)
    ensures Key(uri) !in files ==> r == ""
    ensures Key(uri) in files ==> r == files[Key(uri)]
  {
    if Key(uri) in files then files[Key(uri)] else ""
  }

  /** `writeFile`: stores the text under the base name, replacing any
      previous text for that name. */
  function WriteFile(files: Files, uri: Uri, content: string): (r: Files)
    ensures r.Keys == files.Keys + {Key(uri)}
    ensures forall k :: k in files && k != Key(uri) ==> r[k] == files[k]
  {
    files[Key(uri) := content]
  }

  /** `delete`: forgets the name. */
  function Delete(files: Files, uri: Uri): (r: Files)
    ensures r.Keys == files.Keys - {Key(uri)}
    ensures forall k :: k in r ==> r[k] == files[k]
  {
    files - {Key(uri)}
  }

  /** Reading after writing the same URI gives back the text written. */
  lemma WriteThenRead(files: Files, uri: Uri, content: string)
    ensures ReadFile(WriteFile(files, uri, content), uri) == content
  {
  }

  /** Two URIs whose paths end in the same name share one file, whatever
      their directories. */
  lemma SameNameAliases(files: Files, written: Uri, read: Uri, dir: string, name: string, content: string)
    requires '/' !in name
    requires written.path == "/" + name && read.path == dir + "/" + name
    ensures ReadFile(WriteFile(files, written, content), read) == content
  {
    SameBaseName("", name);
    assert "" + "/" + name == written.path;
    SameBaseName(dir, name);
  }

  lemma SameBaseName(dir: string, name: string)
    requires '/' !in name
    ensures BaseName(dir + "/" + name) == name
  {
    var path := dir + "/" + name;
    assert forall j :: |dir| < j < |path| ==> path[j] == name[j - |dir| - 1];
    LastIndexOfCharAt(path, '/', |dir|);
    assert path[|dir| + 1..] == name;
  }

  /** Writing one name leaves what every other name reads unchanged. */
  lemma WriteLeavesOthers(files: Files, uri: Uri, other: Uri, content: string)
    requires Key(other) != Key(uri)
    ensures ReadFile(WriteFile(files, uri, content), other) == ReadFile(files, other)
  {
  }

  /** After a delete the name reads as empty; other names read as before. */
  lemma DeleteThenRead(files: Files, uri: Uri, other: Uri)
    ensures ReadFile(Delete(files, uri), uri) == ""
    ensures Key(other) != Key(uri) ==> ReadFile(Delete(files, uri), other) == ReadFile(files, other)
  {
  }

  /** `readDirectory`, `rename` and `createDirectory` are not supported. */
  datatype Operation = ReadDirectory | Rename | CreateDirectory

  function Perform(op: Operation, uri: Uri): (r: Result<()>)
    ensures r == Err(NoPermissions)
  {
    Err(NoPermissions)
  }
}
