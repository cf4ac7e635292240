/** What the duplicate-name merge leaves in each file, proved one merge step
    at a time. */
module DuplicateMergeFacts {
  import opened Wrappers
  import opened Strings
  import opened SwingStore
  import opened DuplicateMerge

  /** What the merge from position `i` leaves in each first file of a name. */
  lemma MergeFromContents(r: seq<SwingFile>, i: nat)
    requires i <= |r|
    ensures JoinedFrom(r, i, MergeFrom(r, i))
  {
    forall j | 0 <= j < |r| && FirstNamed(r, r[j].filename) == j
      ensures MergeFrom(r, i)[j].content == Gathered(r, i, j)
    {
      MergeFromContentAt(r, i, j);
    }
  }

  lemma {:induction false} MergeFromContentAt(r: seq<SwingFile>, i: nat, j: nat)
    requires i <= |r| && j < |r| && FirstNamed(r, r[j].filename) == j
    ensures MergeFrom(r, i)[j].content == Gathered(r, i, j)
    decreases |r| - i
  {
    if i == |r| {
      MergeFromEnd(r, j);
    } else if FirstNamed(r, r[i].filename) < i {
      var next := Absorb(r, FirstNamed(r, r[i].filename), i);
      AbsorbKeepsFirst(r, i, j);
      MergeFromContentAt(next, i + 1, j);
      AbsorbStepContent(r, i, j);
    } else {
      MergeFromContentAt(r, i + 1, j);
      FirstStepContent(r, i, j);
    }
  }

  /** Absorbing a duplicate keeps the first file of every name first. */
  lemma AbsorbKeepsFirst(r: seq<SwingFile>, i: nat, j: nat)
    requires i < |r| && FirstNamed(r, r[i].filename) < i
    requires j < |r| && FirstNamed(r, r[j].filename) == j
    ensures var next := Absorb(r, FirstNamed(r, r[i].filename), i);
      FirstNamed(next, next[j].filename) == j
  {
    var next := Absorb(r, FirstNamed(r, r[i].filename), i);
    AbsorbKeepsNames(r, FirstNamed(r, r[i].filename), i);
    FirstNamedOfSameNames(next, r, r[j].filename);
  }

  /** A merge step at a duplicate: what the first file of a name holds after
      the rest of the merge is what it has gathered before the step. */
  lemma AbsorbStepContent(r: seq<SwingFile>, i: nat, j: nat)
    requires i < |r| && FirstNamed(r, r[i].filename) < i
    requires j < |r| && FirstNamed(r, r[j].filename) == j
    requires var next := Absorb(r, FirstNamed(r, r[i].filename), i);
      MergeFrom(next, i + 1)[j].content == Gathered(next, i + 1, j)
    ensures MergeFrom(r, i)[j].content == Gathered(r, i, j)
  {
    MergeFromAbsorbAt(r, i, j);
    AbsorbGathered(r, i, j);
  }

  /** A merge step at the first file of a name changes nothing. */
  lemma FirstStepContent(r: seq<SwingFile>, i: nat, j: nat)
    requires i < |r| && FirstNamed(r, r[i].filename) == i
    requires j < |r| && FirstNamed(r, r[j].filename) == j
    requires MergeFrom(r, i + 1)[j].content == Gathered(r, i + 1, j)
    ensures MergeFrom(r, i)[j].content == Gathered(r, i, j)
  {
    MergeFromFirstAt(r, i, j);
    FirstGathered(r, i, j);
  }

  lemma MergeFromEnd(r: seq<SwingFile>, j: nat)
    requires j < |r|
    ensures MergeFrom(r, |r|)[j].content == Gathered(r, |r|, j)
  {
    MergeFromEndAt(r, j);
    assert r[|r|..] == [];
  }

  /** Changing a content keeps the first position of every name. */
  lemma SameFirstsAfterUpdate(r: seq<SwingFile>, k: nat, next: seq<SwingFile>)
    requires k < |r| && |next| == |r| && next[k].filename == r[k].filename
    requires forall j :: 0 <= j < |r| && j != k ==> next[j] == r[j]
    ensures forall name :: FirstNamed(next, name) == FirstNamed(r, name)
  {
    forall name ensures FirstNamed(next, name) == FirstNamed(r, name) {
      FirstNamedOfSameNames(next, r, name);
    }
  }

  /** A duplicate at `i` is joined into the first file of its name. */
  lemma AbsorbGathered(r: seq<SwingFile>, i: nat, j: nat)
    requires i < |r| && FirstNamed(r, r[i].filename) < i
    requires j < |r| && FirstNamed(r, r[j].filename) == j
    ensures Gathered(Absorb(r, FirstNamed(r, r[i].filename), i), i + 1, j) == Gathered(r, i, j)
  {
    var k := FirstNamed(r, r[i].filename);
    var next := Absorb(r, k, i);
    AbsorbKeepsOthers(r, k, i);
    if j < i {
      assert next[i + 1..] == r[i + 1..];
      assert r[i..][0] == r[i] && r[i..][1..] == r[i + 1..];
      assert (r[i].filename == r[j].filename) == (j == k);
    } else {
      assert j != i;
      assert next[j] == r[j] && next[j + 1..] == r[j + 1..];
    }
  }

  /** The first file of a name at `i` gathers only what follows it. */
  lemma FirstGathered(r: seq<SwingFile>, i: nat, j: nat)
    requires i < |r| && FirstNamed(r, r[i].filename) == i
    requires j < |r| && FirstNamed(r, r[j].filename) == j
    ensures Gathered(r, i + 1, j) == Gathered(r, i, j)
  {
    if j < i {
      assert r[i..][0] == r[i] && r[i..][1..] == r[i + 1..];
      assert r[i].filename != r[j].filename;
    }
  }

  /** Absorbing changes the content of the file at `k` alone. */
  lemma AbsorbAt(r: seq<SwingFile>, k: nat, i: nat, j: nat)
    requires k < |r| && i < |r| && j < |r|
    ensures Absorb(r, k, i)[j].filename == r[j].filename
    ensures j != k ==> Absorb(r, k, i)[j] == r[j]
  {
  }

  lemma AbsorbKeepsNames(r: seq<SwingFile>, k: nat, i: nat)
    requires k < |r| && i < |r|
    ensures forall j :: 0 <= j < |r| ==> Absorb(r, k, i)[j].filename == r[j].filename
  {
  }

  lemma AbsorbKeepsOthers(r: seq<SwingFile>, k: nat, i: nat)
    requires k < |r| && i < |r|
    ensures forall j :: 0 <= j < |r| && j != k ==> Absorb(r, k, i)[j] == r[j]
  {
  }

  /** The merge renames nothing, and leaves every later duplicate as it is. */
  lemma MergeFromShape(r: seq<SwingFile>, i: nat)
    requires i <= |r|
    ensures forall j :: 0 <= j < |r| ==> MergeFrom(r, i)[j].filename == r[j].filename
    ensures forall j :: 0 <= j < |r| && FirstNamed(r, r[j].filename) < j ==> MergeFrom(r, i)[j] == r[j]
  {
    forall j | 0 <= j < |r| ensures MergeFrom(r, i)[j].filename == r[j].filename {
      MergeKeepsName(r, i, j);
    }
    forall j | 0 <= j < |r| && FirstNamed(r, r[j].filename) < j ensures MergeFrom(r, i)[j] == r[j] {
      MergeKeepsName(r, i, j);
      MergeKeepsDuplicate(r, i, j);
    }
  }

  lemma {:induction false} MergeKeepsName(r: seq<SwingFile>, i: nat, j: nat)
    requires i <= |r| && j < |r|
    ensures MergeFrom(r, i)[j].filename == r[j].filename
    decreases |r| - i
  {
    if i == |r| {
      MergeFromEndAt(r, j);
    } else if FirstNamed(r, r[i].filename) < i {
      MergeKeepsName(Absorb(r, FirstNamed(r, r[i].filename), i), i + 1, j);
      AbsorbStepName(r, i, j);
    } else {
      MergeKeepsName(r, i + 1, j);
      MergeFromFirstAt(r, i, j);
    }
  }

  /** A merge step at a duplicate renames nothing if the rest of the merge
      renames nothing. */
  lemma AbsorbStepName(r: seq<SwingFile>, i: nat, j: nat)
    requires i < |r| && j < |r| && FirstNamed(r, r[i].filename) < i
    requires var next := Absorb(r, FirstNamed(r, r[i].filename), i);
      MergeFrom(next, i + 1)[j].filename == next[j].filename
    ensures MergeFrom(r, i)[j].filename == r[j].filename
  {
    MergeFromAbsorbAt(r, i, j);
    AbsorbAt(r, FirstNamed(r, r[i].filename), i, j);
  }

  lemma {:induction false} MergeKeepsDuplicate(r: seq<SwingFile>, i: nat, j: nat)
    requires i <= |r| && j < |r| && FirstNamed(r, r[j].filename) != j
    ensures MergeFrom(r, i)[j].content == r[j].content
    decreases |r| - i, 1
  {
    if i == |r| {
      MergeFromEndAt(r, j);
    } else if FirstNamed(r, r[i].filename) < i {
      AbsorbStepDuplicate(r, i, j);
    } else {
      FirstStepDuplicate(r, i, j);
    }
  }

  /** Absorbing a duplicate leaves a later duplicate a later duplicate. */
  lemma AbsorbKeepsDuplicate(r: seq<SwingFile>, i: nat, j: nat)
    requires i < |r| && FirstNamed(r, r[i].filename) < i
    requires j < |r| && FirstNamed(r, r[j].filename) != j
    ensures FirstNamed(r, r[i].filename) != j
    ensures var next := Absorb(r, FirstNamed(r, r[i].filename), i);
      FirstNamed(next, next[j].filename) != j
  {
    var next := Absorb(r, FirstNamed(r, r[i].filename), i);
    AbsorbKeepsNames(r, FirstNamed(r, r[i].filename), i);
    FirstNamedOfSameNames(next, r, r[j].filename);
  }

  /** A merge step at a duplicate leaves every later duplicate as it is. */
  lemma {:induction false} AbsorbStepDuplicate(r: seq<SwingFile>, i: nat, j: nat)
    requires i < |r| && FirstNamed(r, r[i].filename) < i
    requires j < |r| && FirstNamed(r, r[j].filename) != j
    ensures MergeFrom(r, i)[j].content == r[j].content
    decreases |r| - i, 0
  {
    var next := Absorb(r, FirstNamed(r, r[i].filename), i);
    AbsorbKeepsDuplicate(r, i, j);
    MergeKeepsDuplicate(next, i + 1, j);
    AbsorbStepKeeps(r, i, j);
  }

  /** The last part of a merge step at a duplicate: the file at `j` is not
      the one absorbing. */
  lemma AbsorbStepKeeps(r: seq<SwingFile>, i: nat, j: nat)
    requires i < |r| && j < |r| && FirstNamed(r, r[i].filename) < i && FirstNamed(r, r[i].filename) != j
    requires var next := Absorb(r, FirstNamed(r, r[i].filename), i);
      MergeFrom(next, i + 1)[j].content == next[j].content
    ensures MergeFrom(r, i)[j].content == r[j].content
  {
    MergeFromAbsorbAt(r, i, j);
    AbsorbAt(r, FirstNamed(r, r[i].filename), i, j);
  }

  /** A merge step at the first file of a name leaves every later duplicate
      as it is. */
  lemma {:induction false} FirstStepDuplicate(r: seq<SwingFile>, i: nat, j: nat)
    requires i < |r| && FirstNamed(r, r[i].filename) == i
    requires j < |r| && FirstNamed(r, r[j].filename) != j
    ensures MergeFrom(r, i)[j].content == r[j].content
    decreases |r| - i, 0
  {
    MergeKeepsDuplicate(r, i + 1, j);
    MergeFromFirstAt(r, i, j);
  }

  /** The merge past the last position leaves every file as it is. */
  lemma MergeFromEndAt(r: seq<SwingFile>, j: nat)
    requires j < |r|
    ensures MergeFrom(r, |r|)[j] == r[j]
  {
  }

  /** At a duplicate, the merge goes on from the files with it absorbed. */
  lemma MergeFromAbsorbAt(r: seq<SwingFile>, i: nat, j: nat)
    requires i < |r| && j < |r| && FirstNamed(r, r[i].filename) < i
    ensures MergeFrom(r, i)[j] == MergeFrom(Absorb(r, FirstNamed(r, r[i].filename), i), i + 1)[j]
  {
  }

  /** At the first file of a name, the merge goes on unchanged. */
  lemma MergeFromFirstAt(r: seq<SwingFile>, i: nat, j: nat)
    requires i < |r| && j < |r| && FirstNamed(r, r[i].filename) == i
    ensures MergeFrom(r, i)[j] == MergeFrom(r, i + 1)[j]
  {
  }

  lemma {:induction false} MergeFromDistinct(r: seq<SwingFile>, i: nat)
    requires i <= |r| && NoDuplicates(Names(r))
    ensures MergeFrom(r, i) == r
    decreases |r| - i
  {
    if i < |r| {
      var k := FirstNamed(r, r[i].filename);
      MergeFromDistinct(r, i + 1);
    }
  }
}
