/** The generated-swing records of the extension's store: a file of a swing
    and one entry of the generation history. */
module SwingStore {
  import opened Wrappers

  /** A swing file; `content` is `None` for `undefined`. */
  datatype SwingFile = SwingFile(filename: string, content: Option<string>)

  /** One entry of the generation history: the prompt and the files made for it. */
  datatype Version = Version(prompt: string, files: seq<SwingFile>)

  function Names(files: seq<SwingFile>): (r: seq<string>)
    ensures |r| == |files| && forall i :: 0 <= i < |files| ==> r[i] == files[i].filename
  {
    if |files| == 0 then [] else [files[0].filename] + Names(files[1..])
  }

  /** The position of the first file named `name` (`files.find`), or `|files|`. */
  function FirstNamed(files: seq<SwingFile>, name: string): (r: nat)
    ensures r <= |files|
    ensures r < |files| ==> files[r].filename == name
    ensures forall j :: 0 <= j < r ==> files[j].filename != name
  {
    if |files| == 0 then 0
    else if files[0].filename == name then 0
    else FirstNamed(files[1..], name) + 1
  }

  /** The first position of a name depends on the names alone. */
  lemma FirstNamedOfSameNames(a: seq<SwingFile>, b: seq<SwingFile>, name: string)
    requires |a| == |b| && forall i :: 0 <= i < |a| ==> a[i].filename == b[i].filename
    ensures FirstNamed(a, name) == FirstNamed(b, name)
  {
  }
}
