/** The post-processing of a language model's answer into a swing's files
    (`synthesizeTemplateFiles` after the chat completion returns): prose
    before the first file is dropped, the answer is cut into
    `<<—[name]=\ncontent\n—>>` chunks, a stray script is dropped when a
    component was generated, files of the previous version are carried over,
    and the version is appended to the history. */
module AiFiles {
  import opened Wrappers
  import opened Strings
  import opened SwingStore
  import opened DuplicateMerge
  import opened DuplicateMergeFacts

  const FileStart: string := "<<\U{2014}["
  const FileEnd: string := "\U{2014}>>"
  const NameEnd: string := "]=\n"

  /** The request template the user's prompt is placed into. */
  const RequestHead: string := "REQUEST:\n"
  const RequestTail: string := "\n\nRESPONSE:\n"

  /** `userPrompt.replace("{{REQUEST}}", prompt)`; the prompt reassigned to
      this is what the history records. */
  function RequestPrompt(prompt: string): (r: string)
    ensures StartsWith(r, RequestHead) && EndsWith(r, RequestTail)
    ensures |r| == |RequestHead| + |prompt| + |RequestTail| && r[|RequestHead|..|r| - |RequestTail|] == prompt
  {
    RequestHead + prompt + RequestTail
  }

  /** The answer from its first file marker on. With no marker at all
      `slice(-1)` keeps only the last character. */
  function DropProse(response: string): (r: string)
    ensures Contains(response, FileStart) ==> StartsWith(r, FileStart) && EndsWith(response, r)
    ensures Contains(response, FileStart) ==> !Contains(response[..|response| - |r|], FileStart)
    ensures !Contains(response, FileStart) ==> |r| <= 1 && EndsWith(response, r)
  {
    match IndexOf(response, FileStart)
    case Some(i) =>
      assert response[i..][..|FileStart|] == response[i..i + |FileStart|];
      assert !Contains(response[..i], FileStart) by { NoEarlierOccurrence(response, FileStart, i); }
      response[i..]
    case None => if |response| == 0 then "" else response[|response| - 1..]
  }

  lemma NoEarlierOccurrence(s: string, pattern: string, i: nat)
    requires |pattern| > 0 && IndexOf(s, pattern) == Some(i)
    ensures !Contains(s[..i], pattern)
  {
    forall j | 0 <= j ensures !OccursAt(s[..i], pattern, j) {
      if OccursAt(s[..i], pattern, j) {
        assert s[..i][j..j + |pattern|] == s[j..j + |pattern|];
        assert OccursAt(s, pattern, j);
      }
    }
  }

  /** One chunk, trimmed: the name is the text before `]=\n` with the first
      `<<—[` removed, the content the text between the first and a second
      `]=\n` (`p[1]`). */
  function ParseChunk(chunk: string): (r: SwingFile)
    ensures r.content.Some? <==> Contains(Trim(chunk), NameEnd)
    ensures !Contains(Trim(chunk), NameEnd) ==> r.filename == ReplaceFirst(Trim(chunk), FileStart, "")
  {
    var p := Split(Trim(chunk), NameEnd);
    SwingFile(ReplaceFirst(p[0], FileStart, ""), if |p| > 1 then Some(p[1]) else None)
  }

  /** A chunk of whitespace only yields a file with no name and no content. */
  lemma BlankChunkIsNameless(chunk: string)
    requires IsBlank(chunk)
    ensures ParseChunk(chunk) == SwingFile("", None)
  {
    TrimEmptyIffBlank(chunk);
    assert IndexOf("", NameEnd).None?;
    assert IndexOf("", FileStart).None?;
  }

  /** The chunks as written: empty chunks are dropped BEFORE trimming, so a
      whitespace-only chunk still becomes a file. */
  function FilesOfChunksAsWritten(chunks: seq<string>): (r: seq<SwingFile>)
    ensures |r| <= |chunks|
    ensures forall f :: f in r <==> exists c :: c in chunks && c != "" && f == ParseChunk(c)
  {
    if |chunks| == 0 then []
    else
      var rest := FilesOfChunksAsWritten(chunks[1..]);
      assert forall c :: c in chunks <==> c == chunks[0] || c in chunks[1..];
      if chunks[0] == "" then rest else [ParseChunk(chunks[0])] + rest
  }

  /** The chunks as evidently intended: a chunk that is blank once trimmed
      yields nothing. */
  function FilesOfChunks(chunks: seq<string>): (r: seq<SwingFile>)
    ensures |r| <= |chunks|
    ensures forall f :: f in r <==> exists c :: c in chunks && !IsBlank(c) && f == ParseChunk(c)
  {
    if |chunks| == 0 then []
    else
      var rest := FilesOfChunks(chunks[1..]);
      assert forall c :: c in chunks <==> c == chunks[0] || c in chunks[1..];
      if IsBlank(chunks[0]) then rest else [ParseChunk(chunks[0])] + rest
  }

  /** The files of an answer, as written and as intended. */
  function ParseFilesAsWritten(response: string): (r: seq<SwingFile>)
    ensures |r| <= |Split(response, FileEnd)|
    ensures forall f :: f in r <==> exists c :: c in Split(response, FileEnd) && c != "" && f == ParseChunk(c)
  {
    FilesOfChunksAsWritten(Split(response, FileEnd))
  }

  function ParseFiles(response: string): (r: seq<SwingFile>)
    ensures |r| <= |Split(response, FileEnd)|
    ensures forall f :: f in r <==> exists c :: c in Split(response, FileEnd) && !IsBlank(c) && f == ParseChunk(c)
  {
    FilesOfChunks(Split(response, FileEnd))
  }

  /** A chunk list ending in whitespace: the code as written turns the blank
      tail into a nameless file; the intended parse ignores it. */
  lemma {:induction false} BlankTailChunk(chunks: seq<string>, tail: string)
    requires tail != "" && IsBlank(tail)
    ensures FilesOfChunksAsWritten(chunks + [tail]) == FilesOfChunksAsWritten(chunks) + [SwingFile("", None)]
    ensures FilesOfChunks(chunks + [tail]) == FilesOfChunks(chunks)
  {
    BlankTailAsWritten(chunks, tail);
    BlankTailIntended(chunks, tail);
  }

  lemma {:induction false} BlankTailAsWritten(chunks: seq<string>, tail: string)
    requires tail != "" && IsBlank(tail)
    ensures FilesOfChunksAsWritten(chunks + [tail]) == FilesOfChunksAsWritten(chunks) + [SwingFile("", None)]
    decreases |chunks|
  {
    if |chunks| == 0 {
      BlankChunkIsNameless(tail);
      assert FilesOfChunksAsWritten([tail]) == [ParseChunk(tail)] + FilesOfChunksAsWritten([]);
    } else {
      assert (chunks + [tail])[1..] == chunks[1..] + [tail];
      BlankTailAsWritten(chunks[1..], tail);
    }
  }

  lemma {:induction false} BlankTailIntended(chunks: seq<string>, tail: string)
    requires IsBlank(tail)
    ensures FilesOfChunks(chunks + [tail]) == FilesOfChunks(chunks)
    decreases |chunks|
  {
    if |chunks| == 0 {
      assert FilesOfChunks([tail]) == FilesOfChunks([]);
    } else {
      assert (chunks + [tail])[1..] == chunks[1..] + [tail];
      BlankTailIntended(chunks[1..], tail);
    }
  }

  /** An answer ending in a newline after its last file: the as-written
      parse reports an extra file with no name. */
  lemma TrailingNewlineAsWritten(body: string)
    requires !Contains(body, FileEnd)
    ensures ParseFilesAsWritten(body + FileEnd + "\n") == FilesOfChunksAsWritten([body]) + [SwingFile("", None)]
    ensures ParseFiles(body + FileEnd + "\n") == FilesOfChunks([body])
  {
    var s := body + FileEnd + "\n";
    SplitAroundSeparator(body, "\n");
    BlankTailChunk([body], "\n");
  }

  lemma SplitAroundSeparator(body: string, tail: string)
    requires !Contains(body, FileEnd) && !Contains(tail, FileEnd)
    ensures Split(body + FileEnd + tail, FileEnd) == [body, tail]
  {
    var s := body + FileEnd + tail;
    assert OccursAt(s, FileEnd, |body|) by {
      assert s[|body|..|body| + |FileEnd|] == FileEnd;
    }
    forall j | 0 <= j < |body| ensures !OccursAt(s, FileEnd, j) {
      if j + |FileEnd| <= |body| {
        assert s[j..j + |FileEnd|] == body[j..j + |FileEnd|];
        assert !OccursAt(body, FileEnd, j);
      } else {
        NoStraddle(body, tail, j);
      }
    }
    assert IndexOf(s, FileEnd) == Some(|body|);
    assert s[..|body|] == body;
    assert s[|body| + |FileEnd|..] == tail;
    assert IndexOf(tail, FileEnd).None?;
  }

  /** `FileEnd` cannot start inside `body` and end in the separator after it:
      its dash occurs in it only once. */
  lemma NoStraddle(body: string, tail: string, j: nat)
    requires j < |body| < j + |FileEnd|
    ensures !OccursAt(body + FileEnd + tail, FileEnd, j)
  {
    var s := body + FileEnd + tail;
    assert s[|body|] == '\U{2014}';
    var k := |body| - j;
    assert s[j..j + |FileEnd|][k] == s[|body|];
    assert FileEnd[k] == '>';
  }

  /** The duplicate-name merge. `mergedFiles` holds the very objects of
      `files`, so appending a later duplicate's content to the first file of
      that name changes that file in `files` too; the later duplicates stay.
      The first file of each name ends up with the contents of all files of
      that name, in order, joined by blank lines. */
  function MergeDuplicates(files: seq<SwingFile>): (r: seq<SwingFile>)
    ensures |r| == |files|
    ensures forall i :: 0 <= i < |files| ==> r[i].filename == files[i].filename
    ensures forall i :: 0 <= i < |files| && FirstNamed(files, files[i].filename) < i ==> r[i] == files[i]
    ensures forall i :: 0 <= i < |files| && FirstNamed(files, files[i].filename) == i ==>
              r[i].content == Joined(files[i].content, files[i + 1..], files[i].filename)
  {
    MergeFromContents(files, 0);
    MergeFromShape(files, 0);
    MergeFrom(files, 0)
  }

  /** With distinct names nothing is merged. */
  lemma MergeDistinct(files: seq<SwingFile>)
    requires NoDuplicates(Names(files))
    ensures MergeDuplicates(files) == files
  {
    MergeFromDistinct(files, 0);
  }

  /** Two files of one name: the first carries both contents, the second stays. */
  lemma MergeTwoOfOneName(name: string, first: string, second: string)
    ensures MergeDuplicates([SwingFile(name, Some(first)), SwingFile(name, Some(second))])
            == [SwingFile(name, Some(first + "\n\n" + second)), SwingFile(name, Some(second))]
  {
    var files := [SwingFile(name, Some(first)), SwingFile(name, Some(second))];
    assert FirstNamed(files, name) == 0;
    var next := files[0 := SwingFile(name, Some(first + "\n\n" + second))];
    assert FirstNamed(next, name) == 0;
    assert MergeFrom(files, 0) == MergeFrom(files, 1);
    assert MergeFrom(files, 1) == MergeFrom(next, 2);
  }

  predicate IsComponent(f: SwingFile) {
    StartsWith(f.filename, "App.")
  }

  predicate IsScript(f: SwingFile) {
    StartsWith(f.filename, "script.")
  }

  /** The first script file, or `|files|`. */
  function FirstScript(files: seq<SwingFile>): (r: nat)
    ensures r <= |files| && (r < |files| ==> IsScript(files[r]))
    ensures forall j :: 0 <= j < r ==> !IsScript(files[j])
  {
    if |files| == 0 then 0 else if IsScript(files[0]) then 0 else FirstScript(files[1..]) + 1
  }

  /** When some file is a component (`App.*`), the first script file is
      dropped; otherwise nothing changes. */
  function DropStrayScript(files: seq<SwingFile>): (r: seq<SwingFile>)
    ensures (forall f :: f in files ==> !IsComponent(f)) ==> r == files
    ensures forall f :: f in files && IsComponent(f) ==> f in r
    ensures forall f :: f in r ==> f in files
    ensures (exists f :: f in files && IsComponent(f)) && (exists f :: f in files && IsScript(f)) ==>
              |r| == |files| - 1 && (forall f :: f in r && IsScript(f) ==> f in files[FirstScript(files) + 1..])
  {
    if exists f :: f in files && IsComponent(f) then
      var i := FirstScript(files);
      if i < |files| then
        DropFirstScript(files);
        files[..i] + files[i + 1..]
      else files
    else files
  }

  lemma DropFirstScript(files: seq<SwingFile>)
    requires FirstScript(files) < |files|
    ensures var i := FirstScript(files);
            var r := files[..i] + files[i + 1..];
            && (forall f :: f in files && IsComponent(f) ==> f in r)
            && (forall f :: f in r ==> f in files)
            && (forall f :: f in r && IsScript(f) ==> f in files[i + 1..])
  {
    var i := FirstScript(files);
    DropKeepsComponents(files, i);
    DropKeepsLater(files, i);
  }

  lemma DropKeepsComponents(files: seq<SwingFile>, i: nat)
    requires i < |files| && IsScript(files[i])
    ensures forall f :: f in files && IsComponent(f) ==> f in files[..i] + files[i + 1..]
  {
    forall f | f in files && IsComponent(f) ensures f in files[..i] + files[i + 1..] {
      var j :| 0 <= j < |files| && files[j] == f;
      ComponentIsNoScript(f);
      KeptAt(files, i, j);
    }
  }

  lemma DropKeepsLater(files: seq<SwingFile>, i: nat)
    requires i < |files| && forall j :: 0 <= j < i ==> !IsScript(files[j])
    ensures forall f :: f in files[..i] + files[i + 1..] ==> f in files
    ensures forall f :: f in files[..i] + files[i + 1..] && IsScript(f) ==> f in files[i + 1..]
  {
    var r := files[..i] + files[i + 1..];
    forall f | f in r ensures f in files && (IsScript(f) ==> f in files[i + 1..]) {
      var j :| 0 <= j < |r| && r[j] == f;
      if j < i {
        assert files[j] == f;
      } else {
        assert files[i + 1..][j - i] == f;
      }
    }
  }

  lemma ComponentIsNoScript(f: SwingFile)
    requires IsComponent(f)
    ensures !IsScript(f)
  {
    assert f.filename[0] == 'A';
  }

  lemma KeptAt(files: seq<SwingFile>, i: nat, j: nat)
    requires i < |files| && j < |files| && j != i
    ensures files[j] in files[..i] + files[i + 1..]
  {
    var r := files[..i] + files[i + 1..];
    if j < i { assert r[j] == files[j]; } else { assert r[j - 1] == files[j]; }
  }

  /** The files of the previous version whose names are absent are appended,
      in their order; a name is only added once. */
  function CarryOver(files: seq<SwingFile>, previous: seq<SwingFile>): seq<SwingFile>
    decreases |previous|
  {
    if |previous| == 0 then files
    else CarryOver(AddMissing(files, previous[0]), previous[1..])
  }

  /** `files.some(f => f.filename === e.filename)` decides whether `e` is pushed. */
  function AddMissing(files: seq<SwingFile>, e: SwingFile): seq<SwingFile> {
    if e.filename in Names(files) then files else files + [e]
  }

  /** The new files come first, unchanged, followed only by files of the
      previous version. */
  lemma CarryOverShape(files: seq<SwingFile>, previous: seq<SwingFile>)
    ensures |files| <= |CarryOver(files, previous)|
    ensures forall i :: 0 <= i < |files| ==> CarryOver(files, previous)[i] == files[i]
    ensures forall i :: |files| <= i < |CarryOver(files, previous)| ==> CarryOver(files, previous)[i] in previous
  {
    CarryOverLength(files, previous);
    forall i | 0 <= i < |files| ensures CarryOver(files, previous)[i] == files[i] {
      CarryOverPrefixAt(files, previous, i);
    }
    forall i | |files| <= i < |CarryOver(files, previous)| ensures CarryOver(files, previous)[i] in previous {
      CarryOverFromPrevious(files, previous, i);
    }
  }

  lemma {:induction false} CarryOverLength(files: seq<SwingFile>, previous: seq<SwingFile>)
    ensures |files| <= |CarryOver(files, previous)|
    decreases |previous|
  {
    if |previous| > 0 {
      CarryOverLength(AddMissing(files, previous[0]), previous[1..]);
    }
  }

  lemma {:induction false} CarryOverPrefixAt(files: seq<SwingFile>, previous: seq<SwingFile>, i: nat)
    requires i < |files|
    ensures i < |CarryOver(files, previous)| && CarryOver(files, previous)[i] == files[i]
    decreases |previous|
  {
    if |previous| > 0 {
      CarryOverPrefixAt(AddMissing(files, previous[0]), previous[1..], i);
    }
  }

  lemma {:induction false} CarryOverFromPrevious(files: seq<SwingFile>, previous: seq<SwingFile>, i: nat)
    requires |files| <= i < |CarryOver(files, previous)|
    ensures CarryOver(files, previous)[i] in previous
    decreases |previous|
  {
    if |previous| > 0 {
      var next := AddMissing(files, previous[0]);
      if i < |next| {
        CarryOverPrefixAt(next, previous[1..], i);
      } else {
        CarryOverFromPrevious(next, previous[1..], i);
      }
    }
  }

  /** After the carry-over every name of the previous version is present. */
  lemma CarryOverKeepsNames(files: seq<SwingFile>, previous: seq<SwingFile>)
    ensures forall f :: f in previous ==> f.filename in Names(CarryOver(files, previous))
  {
    var r := CarryOver(files, previous);
    forall f | f in previous ensures f.filename in Names(r) {
      var j :| 0 <= j < |previous| && previous[j] == f;
      var k := CarryOverKeepsName(files, previous, j);
      assert Names(r)[k] == f.filename;
    }
  }

  /** Where the name of the previous file at `j` is found after the carry-over. */
  lemma {:induction false} CarryOverKeepsName(files: seq<SwingFile>, previous: seq<SwingFile>, j: nat) returns (k: nat)
    requires j < |previous|
    ensures k < |CarryOver(files, previous)| && CarryOver(files, previous)[k].filename == previous[j].filename
    decreases |previous|
  {
    var next := AddMissing(files, previous[0]);
    if j == 0 {
      k := NameOfNext(files, previous[0]);
      CarryOverPrefixAt(next, previous[1..], k);
    } else {
      k := CarryOverKeepsName(next, previous[1..], j - 1);
      assert previous[1..][j - 1] == previous[j];
    }
  }

  /** The file considered next is named in the files after its step. */
  lemma NameOfNext(files: seq<SwingFile>, e: SwingFile) returns (k: nat)
    ensures k < |AddMissing(files, e)| && AddMissing(files, e)[k].filename == e.filename
  {
    if e.filename in Names(files) {
      k :| 0 <= k < |files| && Names(files)[k] == e.filename;
    } else {
      k := |files|;
    }
  }

  lemma NamesAppend(files: seq<SwingFile>, e: SwingFile)
    ensures Names(files + [e]) == Names(files) + [e.filename]
  {
    assert forall k :: 0 <= k < |files| ==> Names(files + [e])[k] == Names(files)[k];
  }

  /** The carry-over adds no second file of a name. */
  lemma {:induction false} CarryOverDistinct(files: seq<SwingFile>, previous: seq<SwingFile>)
    requires NoDuplicates(Names(files))
    ensures NoDuplicates(Names(CarryOver(files, previous)))
    decreases |previous|
  {
    if |previous| > 0 {
      var e := previous[0];
      if e.filename !in Names(files) {
        NamesAppend(files, e);
      }
      CarryOverDistinct(AddMissing(files, e), previous[1..]);
    }
  }

  /** The whole post-processing. `history` is `store.history`; when it is
      missing the final `push` throws (`None`). The answer is parsed as
      written, so a blank chunk after the last file becomes a nameless file. */
  function Synthesize(response: string, prompt: string, history: Option<seq<Version>>): (r: Option<(seq<SwingFile>, seq<Version>)>)
    ensures r.None? <==> history.None?
    ensures r.Some? ==> r.value.1 == history.value + [Version(RequestPrompt(prompt), r.value.0)]
    ensures r.Some? && |history.value| > 0 ==>
              forall f :: f in history.value[|history.value| - 1].files ==> f.filename in Names(r.value.0)
    ensures r.Some? && |history.value| == 0 ==> |r.value.0| <= |Split(DropProse(response), FileEnd)|
    ensures r.Some? && |history.value| == 0 ==>
              forall f :: f in r.value.0 ==>
                exists c :: c in Split(DropProse(response), FileEnd) && c != "" && f.filename == ParseChunk(c).filename
  {
    var parsed := ParseFilesAsWritten(DropProse(response));
    var r := SynthesizeFrom(parsed, prompt, history);
    assert r.Some? && |history.value| == 0 ==>
             forall f :: f in r.value.0 ==>
               exists c :: c in Split(DropProse(response), FileEnd) && c != "" && f.filename == ParseChunk(c).filename by {
      if r.Some? && |history.value| == 0 {
        forall f | f in r.value.0
          ensures exists c :: c in Split(DropProse(response), FileEnd) && c != "" && f.filename == ParseChunk(c).filename
        {
          var g := NamedIn(parsed, f.filename);
          var c :| c in Split(DropProse(response), FileEnd) && c != "" && g == ParseChunk(c);
        }
      }
    }
    r
  }

  /** The post-processing with the intended rule: only chunks that are not
      blank name the files. */
  function SynthesizeIntended(response: string, prompt: string, history: Option<seq<Version>>): (r: Option<(seq<SwingFile>, seq<Version>)>)
    ensures r.None? <==> history.None?
    ensures r.Some? ==> r.value.1 == history.value + [Version(RequestPrompt(prompt), r.value.0)]
    ensures r.Some? && |history.value| > 0 ==>
              forall f :: f in history.value[|history.value| - 1].files ==> f.filename in Names(r.value.0)
    ensures r.Some? && |history.value| == 0 ==> |r.value.0| <= |Split(DropProse(response), FileEnd)|
    ensures r.Some? && |history.value| == 0 ==>
              forall f :: f in r.value.0 ==>
                exists c :: c in Split(DropProse(response), FileEnd) && !IsBlank(c) && f.filename == ParseChunk(c).filename
  {
    var parsed := ParseFiles(DropProse(response));
    var r := SynthesizeFrom(parsed, prompt, history);
    assert r.Some? && |history.value| == 0 ==>
             forall f :: f in r.value.0 ==>
               exists c :: c in Split(DropProse(response), FileEnd) && !IsBlank(c) && f.filename == ParseChunk(c).filename by {
      if r.Some? && |history.value| == 0 {
        forall f | f in r.value.0
          ensures exists c :: c in Split(DropProse(response), FileEnd) && !IsBlank(c) && f.filename == ParseChunk(c).filename
        {
          var g := NamedIn(parsed, f.filename);
          var c :| c in Split(DropProse(response), FileEnd) && !IsBlank(c) && g == ParseChunk(c);
        }
      }
    }
    r
  }

  /** A file of `files` carrying a name that `Names(files)` lists. */
  ghost function NamedIn(files: seq<SwingFile>, name: string): (f: SwingFile)
    requires name in Names(files)
    ensures f in files && f.filename == name
  {
    var i :| 0 <= i < |Names(files)| && Names(files)[i] == name;
    files[i]
  }

  lemma KeptNamesParsed(parsed: seq<SwingFile>, merged: seq<SwingFile>, kept: seq<SwingFile>)
    requires merged == MergeDuplicates(parsed) && forall f :: f in kept ==> f in merged
    ensures forall f :: f in kept ==> f.filename in Names(parsed)
  {
    forall f | f in kept ensures f.filename in Names(parsed) {
      var i :| 0 <= i < |merged| && merged[i] == f;
      assert Names(parsed)[i] == f.filename;
    }
  }

  /** Everything after parsing: merge, drop a stray script, carry over the
      previous version's files and record the version. */
  function SynthesizeFrom(parsed: seq<SwingFile>, prompt: string, history: Option<seq<Version>>): (r: Option<(seq<SwingFile>, seq<Version>)>)
    ensures r.None? <==> history.None?
    ensures r.Some? ==> r.value.1 == history.value + [Version(RequestPrompt(prompt), r.value.0)]
    ensures r.Some? && |history.value| > 0 ==>
              forall f :: f in history.value[|history.value| - 1].files ==> f.filename in Names(r.value.0)
    ensures r.Some? && |history.value| == 0 ==>
              |r.value.0| <= |parsed| && forall f :: f in r.value.0 ==> f.filename in Names(parsed)
  {
    if history.None? then None
    else
      var merged := MergeDuplicates(parsed);
      var kept := DropStrayScript(merged);
      KeptNamesParsed(parsed, merged, kept);
      var files :=
        if |history.value| > 0 then
          var previous := history.value[|history.value| - 1].files;
          CarryOverKeepsNames(kept, previous);
          CarryOver(kept, previous)
        else kept;
      Some((files, history.value + [Version(RequestPrompt(prompt), files)]))
  }
}
