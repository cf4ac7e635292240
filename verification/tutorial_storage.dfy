/** The tutorial progress store: an association list from a swing's root URI
    (as a string) to the step the user last reached, kept in global state. */
module TutorialStorage {

  /** One `[id, step]` entry. */
  datatype Entry = Entry(id: string, step: int)

  /** The stored list, in insertion order. */
  type Progress = seq<Entry>

  /** The step a tutorial starts at when nothing is stored for it. */
  const InitialStep: int := 1

  /** The position of the first entry for `id`, if any (`tutorials.find`). */
  function EntryIndex(progress: Progress, id: string): (r: int)
    ensures -1 <= r < |progress|
    ensures r >= 0 ==> progress[r].id == id && forall j :: 0 <= j < r ==> progress[j].id != id
    ensures r == -1 <==> forall j :: 0 <= j < |progress| ==> progress[j].id != id
  {
    if |progress| == 0 then -1
    else if progress[0].id == id then 0
    else
      var i := EntryIndex(progress[1..], id);
      if i == -1 then -1 else i + 1
  }

  /** `currentTutorialStep(uri)`: the stored step of the first entry whose id
      is exactly `id`, or 1. */
  function CurrentStep(progress: Progress, id: string): (r: int)
    ensures (forall j :: 0 <= j < |progress| ==> progress[j].id != id) ==> r == InitialStep
    ensures forall i :: 0 <= i < |progress| && progress[i].id == id && (forall j :: 0 <= j < i ==> progress[j].id != id)
                        ==> r == progress[i].step
  {
    var i := EntryIndex(progress, id);
    if i == -1 then InitialStep else progress[i].step
  }

  /** `setCurrentTutorialStep(step)` for the active swing `id`: the first entry
      for `id` is updated in place, or `[id, step]` is appended. */
  function SetStep(progress: Progress, id: string, step: int): (r: Progress)
    ensures EntryIndex(progress, id) >= 0 ==> |r| == |progress|
    ensures EntryIndex(progress, id) == -1 ==> r == progress + [Entry(id, step)]
    ensures forall j :: 0 <= j < |progress| && j != EntryIndex(progress, id) ==> r[j] == progress[j]
  {
    var i := EntryIndex(progress, id);
    if i == -1 then progress + [Entry(id, step)] else progress[i := Entry(id, step)]
  }

  /** After a set, a get for the same tutorial returns the step that was set. */
  lemma SetThenGet(progress: Progress, id: string, step: int)
    ensures CurrentStep(SetStep(progress, id, step), id) == step
  {
    var r := SetStep(progress, id, step);
    var i := EntryIndex(progress, id);
    if i == -1 {
      assert r[|progress|] == Entry(id, step);
      assert forall j :: 0 <= j < |progress| ==> r[j].id != id;
    } else {
      assert r[i] == Entry(id, step);
      assert forall j :: 0 <= j < i ==> r[j].id != id;
    }
  }

  /** A set for one tutorial leaves the stored step of every other tutorial alone. */
  lemma SetKeepsOthers(progress: Progress, id: string, step: int, other: string)
    requires other != id
    ensures CurrentStep(SetStep(progress, id, step), other) == CurrentStep(progress, other)
  {
    var r := SetStep(progress, id, step);
    var k := EntryIndex(progress, other);
    var i := EntryIndex(progress, id);
    if k == -1 {
      forall j | 0 <= j < |r| ensures r[j].id != other {
        if j < |progress| && j != i {
          assert r[j] == progress[j];
        }
      }
    } else {
      forall j | 0 <= j < k ensures r[j].id != other {
        if j != i {
          assert r[j] == progress[j];
        }
      }
      assert r[k] == progress[k];
    }
  }
}
