/** The in-memory file system that holds a new swing before it is saved:
    a store from a URI's authority to that swing's files, each a path with
    its bytes, kept in insertion order (a JavaScript `Map`). */
module TempFileSystem {
  import opened Wrappers
  import opened Strings
  import opened Host

  /** One file of a swing. */
  datatype Entry = Entry(path: string, content: Bytes)

  /** A swing's files in insertion order; no path occurs twice. */
  type Dir = seq<Entry>

  /** The store: authority to that swing's files. */
  type Store = map<string, Dir>

  /** A change notification fired to the editor. */
  datatype Event = Event(kind: ChangeType, uri: Uri)

  function Paths(d: Dir): (r: seq<string>)
    ensures |r| == |d| && forall i :: 0 <= i < |d| ==> r[i] == d[i].path
  {
    if |d| == 0 then [] else [d[0].path] + Paths(d[1..])
  }

  /** Every swing's paths are distinct. */
  predicate Valid(store: Store) {
    forall a :: a in store ==> NoDuplicates(Paths(store[a]))
  }

  /** The position of `path` in `d`, or -1. */
  function Find(d: Dir, path: string): (r: int)
    ensures -1 <= r < |d|
    ensures r >= 0 ==> d[r].path == path && forall j :: 0 <= j < r ==> d[j].path != path
    ensures r == -1 <==> forall j :: 0 <= j < |d| ==> d[j].path != path
  {
    if |d| == 0 then -1
    else if d[0].path == path then 0
    else
      var i := Find(d[1..], path);
      if i == -1 then -1 else i + 1
  }

  /** `Map.get`: the bytes at `path`, `None` for `undefined`. */
  function Lookup(d: Dir, path: string): Option<Bytes> {
    var i := Find(d, path);
    if i == -1 then None else Some(d[i].content)
  }

  /** `Map.set`: an existing path keeps its position, a new one is appended. */
  function Put(d: Dir, path: string, content: Bytes): (r: Dir)
    ensures Find(d, path) >= 0 ==> Paths(r) == Paths(d)
    ensures Find(d, path) == -1 ==> Paths(r) == Paths(d) + [path]
    ensures Lookup(r, path) == Some(content)
    ensures forall p :: p != path ==> Lookup(r, p) == Lookup(d, p)
  {
    var i := Find(d, path);
    if i == -1 then
      Appended(d, path, content);
      d + [Entry(path, content)]
    else
      Replaced(d, i, path, content);
      d[i := Entry(path, content)]
  }

  /** A new path goes last and changes no other lookup. */
  lemma Appended(d: Dir, path: string, content: Bytes)
    requires Find(d, path) == -1
    ensures Paths(d + [Entry(path, content)]) == Paths(d) + [path]
    ensures Lookup(d + [Entry(path, content)], path) == Some(content)
    ensures forall p :: p != path ==> Lookup(d + [Entry(path, content)], p) == Lookup(d, p)
  {
    var r := d + [Entry(path, content)];
    FindAppended(d, Entry(path, content));
    AppendedPaths(d, Entry(path, content));
    forall p | p != path ensures Lookup(r, p) == Lookup(d, p) {
      FindAppendedOther(d, Entry(path, content), p);
    }
  }

  /** An existing path keeps its place and changes no other lookup. */
  lemma Replaced(d: Dir, i: nat, path: string, content: Bytes)
    requires i < |d| && Find(d, path) == i
    ensures Paths(d[i := Entry(path, content)]) == Paths(d)
    ensures Lookup(d[i := Entry(path, content)], path) == Some(content)
    ensures forall p :: p != path ==> Lookup(d[i := Entry(path, content)], p) == Lookup(d, p)
  {
    var r := d[i := Entry(path, content)];
    assert r == d[i := Entry(d[i].path, content)];
    FindReplaced(d, i, content);
    SamePaths(d, r);
    forall p | p != path ensures Lookup(r, p) == Lookup(d, p) {
      var k := Find(d, p);
      assert k != i;
    }
  }

  lemma AppendedPaths(d: Dir, e: Entry)
    ensures Paths(d + [e]) == Paths(d) + [e.path]
  {
  }

  lemma SamePaths(a: Dir, b: Dir)
    requires |a| == |b| && forall j :: 0 <= j < |a| ==> a[j].path == b[j].path
    ensures Paths(a) == Paths(b)
  {
  }

  lemma {:induction false} FindAppended(d: Dir, e: Entry)
    requires Find(d, e.path) == -1
    ensures Find(d + [e], e.path) == |d|
    decreases |d|
  {
    if |d| > 0 {
      assert (d + [e])[1..] == d[1..] + [e];
      FindAppended(d[1..], e);
    }
  }

  lemma {:induction false} FindAppendedOther(d: Dir, e: Entry, p: string)
    requires p != e.path
    ensures Find(d + [e], p) == Find(d, p)
    decreases |d|
  {
    if |d| > 0 {
      assert (d + [e])[1..] == d[1..] + [e];
      FindAppendedOther(d[1..], e, p);
    }
  }

  lemma {:induction false} FindReplaced(d: Dir, i: nat, content: Bytes)
    requires i < |d|
    ensures forall p :: Find(d[i := Entry(d[i].path, content)], p) == Find(d, p)
    decreases |d|
  {
    var r := d[i := Entry(d[i].path, content)];
    forall p ensures Find(r, p) == Find(d, p) {
      if |d| > 0 && i > 0 {
        assert r[1..] == d[1..][i - 1 := Entry(d[i].path, content)];
        FindReplaced(d[1..], i - 1, content);
      }
    }
  }

  /** `Map.delete`: every entry for `path` is dropped, the rest keep their order. */
  function Remove(d: Dir, path: string): (r: Dir)
    ensures forall j :: 0 <= j < |r| ==> r[j].path != path
    ensures IsSubsequence(Paths(r), Paths(d))
  {
    if |d| == 0 then []
    else
      var rest := Remove(d[1..], path);
      assert Paths(d)[1..] == Paths(d[1..]);
      if d[0].path == path then
        SubsequenceOfTail(Paths(rest), Paths(d));
        rest
      else
        var r := [d[0]] + rest;
        assert r[1..] == rest;
        assert Paths(r)[1..] == Paths(rest);
        r
  }

  lemma SubsequenceOfTail(a: seq<string>, s: seq<string>)
    requires |s| > 0 && IsSubsequence(a, s[1..])
    ensures IsSubsequence(a, s)
  {
  }

  /** Removing a path leaves every other path's bytes as they were. */
  lemma {:induction false} RemoveLeavesOthers(d: Dir, path: string, p: string)
    requires p != path
    ensures Lookup(Remove(d, path), p) == Lookup(d, p)
    decreases |d|
  {
    if |d| > 0 {
      RemoveLeavesOthers(d[1..], path, p);
      var rest := Remove(d[1..], path);
      if d[0].path != path {
        assert Remove(d, path) == [d[0]] + rest;
        assert ([d[0]] + rest)[1..] == rest;
      }
    }
  }

  /** `readFile`: FileNotFound for an unknown authority; otherwise the
      stored bytes, `None` where the path was never written (the source
      returns `undefined` rather than throwing). */
  function ReadFile(store: Store, uri: Uri): (r: Result<Option<Bytes>>)
    ensures uri.authority !in store <==> r == Err(FileNotFound)
    ensures r.Ok? ==> (r.value.None? <==> forall j :: 0 <= j < |store[uri.authority]| ==> store[uri.authority][j].path != uri.path)
    ensures r.Ok? && r.value.Some? ==>
              exists j :: 0 <= j < |store[uri.authority]| && store[uri.authority][j] == Entry(uri.path, r.value.value) &&
                forall k :: 0 <= k < j ==> store[uri.authority][k].path != uri.path
  {
    if uri.authority !in store then Err(FileNotFound)
    else Ok(Lookup(store[uri.authority], uri.path))
  }

  /** `readDirectory`: FileNotFound for an unknown authority; otherwise every
      path of the swing, in insertion order, as a File. */
  function ReadDirectory(store: Store, uri: Uri): (r: Result<seq<(string, FileType)>>)
    ensures uri.authority !in store <==> r == Err(FileNotFound)
    ensures r.Ok? ==> |r.value| == |store[uri.authority]|
    ensures r.Ok? ==> forall i :: 0 <= i < |r.value| ==> r.value[i] == (Paths(store[uri.authority])[i], File)
  {
    if uri.authority !in store then Err(FileNotFound)
    else Ok(Listing(Paths(store[uri.authority])))
  }

  function Listing(paths: seq<string>): (r: seq<(string, FileType)>)
    ensures |r| == |paths| && forall i :: 0 <= i < |paths| ==> r[i] == (paths[i], File)
  {
    if |paths| == 0 then [] else [(paths[0], File)] + Listing(paths[1..])
  }

  /** `delete`: FileNotFound for an unknown authority; otherwise the path is
      removed from its swing and a Deleted event fires. */
  function Delete(store: Store, uri: Uri): (r: Result<(Store, seq<Event>)>)
    ensures uri.authority !in store <==> r == Err(FileNotFound)
    ensures r.Ok? ==> r.value.0.Keys == store.Keys && r.value.1 == [Event(Deleted, uri)]
    ensures r.Ok? ==> forall a :: a in store && a != uri.authority ==> r.value.0[a] == store[a]
  {
    if uri.authority !in store then Err(FileNotFound)
    else Ok((store[uri.authority := Remove(store[uri.authority], uri.path)], [Event(Deleted, uri)]))
  }

  /** The store after `writeFile`: the swing is created when missing and the
      bytes are set at the path. */
  function Write(store: Store, uri: Uri, content: Bytes): (r: Store)
    ensures r.Keys == store.Keys + {uri.authority}
    ensures forall a :: a in store && a != uri.authority ==> r[a] == store[a]
  {
    var d := if uri.authority in store then store[uri.authority] else [];
    store[uri.authority := Put(d, uri.path, content)]
  }

  /** Whether the path already holds bytes before a write. */
  predicate Exists(store: Store, uri: Uri) {
    uri.authority in store && Lookup(store[uri.authority], uri.path).Some?
  }

  /** The event `writeFile` fires, as written: `isNew` is computed as "the
      path already exists", so an existing file is reported Created and a
      new one Changed. */
  function WriteEventAsWritten(store: Store, uri: Uri): (r: ChangeType)
    ensures r == Created <==> Exists(store, uri)
  {
    var isNew := Exists(store, uri);
    if isNew then Created else Changed
  }

  /** The event a write should fire: Created for a new path, Changed for an
      existing one. */
  function WriteEvent(store: Store, uri: Uri): (r: ChangeType)
    ensures r == Created <==> !Exists(store, uri)
    ensures r == Created || r == Changed
  {
    if Exists(store, uri) then Changed else Created
  }

  /** `writeFile` with the corrected event. */
  function WriteFile(store: Store, uri: Uri, content: Bytes): (r: (Store, seq<Event>))
    ensures r.0 == Write(store, uri, content)
    ensures r.1 == [Event(WriteEvent(store, uri), uri)]
  {
    (Write(store, uri, content), [Event(WriteEvent(store, uri), uri)])
  }

  /** `writeFile` as written: the store update is the same, the event is
      the inverted one. */
  function WriteFileAsWritten(store: Store, uri: Uri, content: Bytes): (r: (Store, seq<Event>))
    ensures r.0 == WriteFile(store, uri, content).0
    ensures |r.1| == 1 && r.1[0].uri == uri
    ensures r.1[0].kind == Created <==> Exists(store, uri)
    ensures r.1[0].kind != WriteFile(store, uri, content).1[0].kind
  {
    (Write(store, uri, content), [Event(WriteEventAsWritten(store, uri), uri)])
  }

  /** The first write of a file into an empty store is announced as a change
      of an existing file by the code as written, and as a creation by the
      corrected event. */
  lemma FirstWriteReportedAsChange(uri: Uri)
    ensures WriteEventAsWritten(map[], uri) == Changed
    ensures WriteEvent(map[], uri) == Created
  {
  }

  /** Writing twice reports the second write as a change. */
  lemma SecondWriteIsChange(store: Store, uri: Uri, first: Bytes)
    ensures WriteEvent(Write(store, uri, first), uri) == Changed
  {
  }

  /** Reading after writing gives back the bytes written. */
  lemma WriteThenRead(store: Store, uri: Uri, content: Bytes)
    ensures ReadFile(Write(store, uri, content), uri) == Ok(Some(content))
  {
  }

  /** A write changes no other file. */
  lemma WriteLeavesOthers(store: Store, uri: Uri, other: Uri, content: Bytes)
    requires other.authority != uri.authority || other.path != uri.path
    requires other.authority in store
    ensures ReadFile(Write(store, uri, content), other) == ReadFile(store, other)
  {
  }

  /** A write keeps every swing's paths distinct and lists the path. */
  lemma WriteKeepsValid(store: Store, uri: Uri, content: Bytes)
    requires Valid(store)
    ensures Valid(Write(store, uri, content))
    ensures ReadDirectory(Write(store, uri, content), uri).Ok?
    ensures (uri.path, File) in ReadDirectory(Write(store, uri, content), uri).value
  {
    var d := if uri.authority in store then store[uri.authority] else [];
    var k := PutKeepsDistinct(d, uri.path, content);
    var listing := ReadDirectory(Write(store, uri, content), uri).value;
    assert listing[k] == (uri.path, File);
  }

  /** `Put` keeps the paths distinct and leaves `path` at some position `k`. */
  lemma PutKeepsDistinct(d: Dir, path: string, content: Bytes) returns (k: nat)
    requires NoDuplicates(Paths(d))
    ensures NoDuplicates(Paths(Put(d, path, content)))
    ensures k < |Put(d, path, content)| && Paths(Put(d, path, content))[k] == path
  {
    var ps := Paths(d);
    if Find(d, path) == -1 {
      assert forall j :: 0 <= j < |ps| ==> ps[j] != path;
      assert NoDuplicates(ps + [path]);
      k := |d|;
    } else {
      k := Find(d, path);
    }
  }

  /** After a delete the path reads as never written and is no longer listed;
      other files of the swing are untouched. */
  lemma DeleteThenRead(store: Store, uri: Uri, other: Uri)
    requires uri.authority in store
    ensures ReadFile(Delete(store, uri).value.0, uri) == Ok(None)
    ensures (uri.path, File) !in ReadDirectory(Delete(store, uri).value.0, uri).value
    ensures other.path != uri.path && other.authority in store ==>
              ReadFile(Delete(store, uri).value.0, other) == ReadFile(store, other)
  {
    var d := Remove(store[uri.authority], uri.path);
    assert Find(d, uri.path) == -1;
    if other.path != uri.path && other.authority in store {
      RemoveLeavesOthers(store[uri.authority], uri.path, other.path);
    }
  }

  /** `stat`: the root is a directory; a path not stored (or an unknown
      authority) is FileNotFound; a file reports its byte length. */
  function Stat(store: Store, uri: Uri): (r: Result<FileStat>)
    ensures uri.path == "/" ==> r == Ok(FileStat(Directory, 100))
    ensures uri.path != "/" && !Exists(store, uri) ==> r == Err(FileNotFound)
    ensures uri.path != "/" && Exists(store, uri) ==>
              r == Ok(FileStat(File, |Lookup(store[uri.authority], uri.path).value|))
  {
    if uri.path == "/" then Ok(FileStat(Directory, 100))
    else if !Exists(store, uri) then Err(FileNotFound)
    else Ok(FileStat(File, |Lookup(store[uri.authority], uri.path).value|))
  }

  /** A written file's size is the length of the bytes written. */
  lemma StatAfterWrite(store: Store, uri: Uri, content: Bytes)
    requires uri.path != "/"
    ensures Stat(Write(store, uri, content), uri) == Ok(FileStat(File, |content|))
  {
  }

  /** `rename` as written: it looks the old URI's PATH up among the
      authorities, stores what it finds (if anything) under the new URI's
      path as if that were an authority, and removes the old path's key.
      Binding a key to `undefined` is modelled as dropping that key. */
  function RenameAsWritten(store: Store, oldUri: Uri, newUri: Uri): (r: (Store, seq<Event>))
    ensures oldUri.path in store && oldUri.path != newUri.path ==> newUri.path in r.0 && r.0[newUri.path] == store[oldUri.path]
    ensures oldUri.path !in store ==> newUri.path !in r.0
    ensures oldUri.path !in r.0
    ensures forall a :: a in store && a != oldUri.path && a != newUri.path <==> a in r.0 && a != newUri.path
    ensures forall a :: a in r.0 && a != newUri.path ==> r.0[a] == store[a]
    ensures r.1 == [Event(Deleted, oldUri), Event(Created, newUri)]
  {
    var moved := if oldUri.path in store then store[newUri.path := store[oldUri.path]] else store - {newUri.path};
    (moved - {oldUri.path}, [Event(Deleted, oldUri), Event(Created, newUri)])
  }

  /** Renaming a file inside a swing, as written, leaves it at its old URI and
      not at its new one. */
  lemma RenameAsWrittenMovesNothing(content: Bytes)
    ensures var store := map["swing" := [Entry("/a.js", content)]];
            var oldUri := Uri("codeswing", "swing", "/a.js", "");
            var newUri := Uri("codeswing", "swing", "/b.js", "");
            var r := RenameAsWritten(store, oldUri, newUri).0;
            ReadFile(r, oldUri) == Ok(Some(content)) && ReadFile(r, newUri) == Ok(None)
  {
    var store := map["swing" := [Entry("/a.js", content)]];
    var r := RenameAsWritten(store, Uri("codeswing", "swing", "/a.js", ""), Uri("codeswing", "swing", "/b.js", "")).0;
    assert r == store;
    assert Find([Entry("/a.js", content)], "/b.js") == -1;
  }

  /** `rename` as evidently intended: the bytes at the old URI move to the new
      URI; FileNotFound when there is nothing at the old URI. */
  function Rename(store: Store, oldUri: Uri, newUri: Uri): (r: Result<(Store, seq<Event>)>)
    ensures !Exists(store, oldUri) <==> r == Err(FileNotFound)
    ensures r.Ok? ==> r.value.1 == [Event(Deleted, oldUri), Event(Created, newUri)]
  {
    if !Exists(store, oldUri) then Err(FileNotFound)
    else
      var content := Lookup(store[oldUri.authority], oldUri.path).value;
      var removed := store[oldUri.authority := Remove(store[oldUri.authority], oldUri.path)];
      Ok((Write(removed, newUri, content), [Event(Deleted, oldUri), Event(Created, newUri)]))
  }

  /** After a rename to a different URI, the new URI holds the old bytes and
      the old URI holds nothing. */
  lemma RenameMoves(store: Store, oldUri: Uri, newUri: Uri)
    requires Exists(store, oldUri)
    requires oldUri.authority != newUri.authority || oldUri.path != newUri.path
    ensures ReadFile(Rename(store, oldUri, newUri).value.0, newUri) == Ok(Lookup(store[oldUri.authority], oldUri.path))
    ensures ReadFile(Rename(store, oldUri, newUri).value.0, oldUri) == Ok(None)
  {
  }
}
