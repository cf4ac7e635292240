/** The loop of `synthesizeTemplateFiles` that merges files of one name: the
    first file of each name takes the contents of the later ones. */
module DuplicateMerge {
  import opened Wrappers
  import opened Strings
  import opened SwingStore

  /** JavaScript's string conversion of a content: `undefined` prints as such. */
  function ContentText(content: Option<string>): string {
    if content.Some? then content.value else "undefined"
  }

  /** `acc` with the contents of the files named `name` in `later` appended,
      each after a blank line, as `+=` on a string does it. */
  function Joined(acc: Option<string>, later: seq<SwingFile>, name: string): Option<string>
    decreases |later|
  {
    if |later| == 0 then acc
    else Joined(if later[0].filename == name then Some(ContentText(acc) + "\n\n" + ContentText(later[0].content)) else acc,
                later[1..], name)
  }

  /** What the first file of a name at `j` is to hold once the merge has
      visited the positions before `i`: its content joined with the duplicates
      not yet visited (those after `i`, or after itself if it comes later). */
  function Gathered(r: seq<SwingFile>, i: nat, j: nat): Option<string>
    requires i <= |r| && j < |r|
  {
    Joined(r[j].content, r[if j < i then i else j + 1..], r[j].filename)
  }

  /** Each first file of a name in `r` holds, in `m`, what it has gathered
      from position `i` on. */
  predicate JoinedFrom(r: seq<SwingFile>, i: nat, m: seq<SwingFile>)
    requires i <= |r| && |m| == |r|
  {
    forall j :: 0 <= j < |r| && FirstNamed(r, r[j].filename) == j ==> m[j].content == Gathered(r, i, j)
  }

  /** The file at `k` with the content of the file at `i` appended after a
      blank line. */
  function Absorb(r: seq<SwingFile>, k: nat, i: nat): (next: seq<SwingFile>)
    requires k < |r| && i < |r|
    ensures |next| == |r|
  {
    r[k := r[k].(content := Some(ContentText(r[k].content) + "\n\n" + ContentText(r[i].content)))]
  }

  /** The merge from position `i` on; `r[i..]` is still as parsed. */
  function MergeFrom(r: seq<SwingFile>, i: nat): (m: seq<SwingFile>)
    requires i <= |r|
    ensures |m| == |r|
    decreases |r| - i
  {
    if i == |r| then r
    else
      var k := FirstNamed(r, r[i].filename);
      if k < i then MergeFrom(Absorb(r, k, i), i + 1) else MergeFrom(r, i + 1)
  }
}
