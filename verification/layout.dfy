/** The editor layout chosen when a swing opens (`createLayoutManager`): the
    group tree handed to the editor, the column of the first document and the
    preview's column, and the column advance of `showDocument`. */
module Layout {
  import opened Wrappers

  datatype Orientation = Horizontal | Vertical

  /** A top-level editor group: `{}` is a single cell (`cells == 0`); otherwise
      `cells` sub-groups, with an optional orientation, at half size when `half`. */
  datatype Group = Group(orientation: Option<Orientation>, cells: nat, half: bool)

  /** The argument of `vscode.setEditorLayout`. */
  datatype EditorLayout = EditorLayout(orientation: Orientation, groups: seq<Group>)

  const Cell: Group := Group(None, 0, false)

  const SplitOne: EditorLayout := EditorLayout(Horizontal, [Cell, Cell])
  const SplitTwo: EditorLayout := EditorLayout(Horizontal, [Group(Some(Vertical), 2, true), Group(None, 1, true)])
  const SplitThree: EditorLayout := EditorLayout(Horizontal, [Group(Some(Vertical), 3, true), Group(None, 1, true)])
  const Grid: EditorLayout := EditorLayout(Horizontal, [Group(Some(Vertical), 2, true), Group(Some(Vertical), 2, true)])

  /** `ViewColumn.One` and `ViewColumn.Two`. */
  const One: int := 1
  const Two: int := 2

  /** The `PlaygroundLayout` names the code compares against. */
  const GridLayout: string := "grid"
  const PreviewLayout: string := "preview"
  const SplitBottom: string := "splitBottom"
  const SplitLeftTabbed: string := "splitLeftTabbed"
  const SplitRight: string := "splitRight"
  const SplitRightTabbed: string := "splitRightTabbed"
  const SplitTop: string := "splitTop"

  predicate IsTabbed(layout: string) {
    layout == SplitLeftTabbed || layout == SplitRightTabbed
  }

  /** The layout manager: the effective layout name, the tree, whether the tree
      is applied to the editor, the next document column and the preview column. */
  datatype Manager = Manager(layout: string, editorLayout: EditorLayout, applied: bool, current: int, preview: int)

  function Reverse<T>(s: seq<T>): (r: seq<T>)
    ensures |r| == |s| && forall i :: 0 <= i < |s| ==> r[i] == s[|s| - 1 - i]
  {
    if |s| == 0 then [] else Reverse(s[1..]) + [s[0]]
  }

  /** The number of editor cells in a layout. */
  function Cells(groups: seq<Group>): nat {
    if |groups| == 0 then 0 else (if groups[0].cells == 0 then 1 else groups[0].cells) + Cells(groups[1..])
  }

  /** `createLayoutManager(includedFiles, layout)`; an absent or empty manifest
      layout falls back to the `layout` setting. */
  function CreateLayoutManager(includedFiles: int, manifestLayout: Option<string>, setting: string): (r: Manager)
    ensures r.layout == if manifestLayout.Some? && manifestLayout.value != "" then manifestLayout.value else setting
    ensures r.applied <==> includedFiles > 0 && r.layout != PreviewLayout
    ensures r.layout == SplitRight || r.layout == SplitBottom || r.layout == SplitRightTabbed ==> r.current == Two && r.preview == One
    ensures r.layout == SplitLeftTabbed ==> r.current == One && r.preview == Two && r.editorLayout == SplitOne
    ensures r.layout == SplitRightTabbed ==> r.editorLayout == SplitOne
    ensures r.layout !in {SplitRight, SplitBottom, SplitLeftTabbed, SplitRightTabbed} ==>
              r.current == One && r.preview == includedFiles + 1
    ensures r.layout == SplitRight ==>
              r.editorLayout == EditorLayout(Horizontal, Reverse(BaseLayout(includedFiles, r.layout).groups))
    ensures r.layout == SplitTop ==> r.editorLayout == EditorLayout(Vertical, BaseLayout(includedFiles, r.layout).groups)
    ensures r.layout == SplitBottom ==>
              r.editorLayout == EditorLayout(Vertical, Reverse(BaseLayout(includedFiles, r.layout).groups))
    ensures r.layout !in {SplitRight, SplitTop, SplitBottom, SplitLeftTabbed, SplitRightTabbed} ==>
              r.editorLayout == BaseLayout(includedFiles, r.layout)
    ensures includedFiles == 3 && r.layout == GridLayout ==> r.editorLayout == Grid
  {
    var layout := if manifestLayout.Some? && manifestLayout.value != "" then manifestLayout.value else setting;
    var base := BaseLayout(includedFiles, layout);
    var (editorLayout, current, preview) :=
      if layout == SplitRight then (base.(groups := Reverse(base.groups)), Two, One)
      else if layout == SplitTop then (base.(orientation := Vertical), One, includedFiles + 1)
      else if layout == SplitBottom then (EditorLayout(Vertical, Reverse(base.groups)), Two, One)
      else if layout == SplitLeftTabbed then (SplitOne, One, Two)
      else if layout == SplitRightTabbed then (SplitOne, Two, One)
      else (base, One, includedFiles + 1);
    Manager(layout, editorLayout, includedFiles > 0 && layout != PreviewLayout, current, preview)
  }

  /** The tree before the layout's own adjustment: the grid or three rows for
      three files, two rows for two, and a single split otherwise (also for
      four files). Every tree is horizontal with two top-level groups. */
  function BaseLayout(includedFiles: int, layout: string): (r: EditorLayout)
    ensures r.orientation == Horizontal && |r.groups| == 2
    ensures includedFiles == 3 ==> r == if layout == GridLayout then Grid else SplitThree
    ensures includedFiles == 2 ==> r == SplitTwo
    ensures includedFiles != 2 && includedFiles != 3 ==> r == SplitOne
  {
    if includedFiles == 3 then (if layout == GridLayout then Grid else SplitThree)
    else if includedFiles == 2 then SplitTwo
    else SplitOne
  }

  /** `showDocument`: nothing in the preview layout; otherwise the document
      opens in the current column, which then advances unless the layout is tabbed. */
  function ShowDocument(m: Manager): (r: (Option<int>, Manager))
    ensures m.layout == PreviewLayout ==> r == (None, m)
    ensures m.layout != PreviewLayout ==> r.0 == Some(m.current)
    ensures r.1.current == if m.layout == PreviewLayout || IsTabbed(m.layout) then m.current else m.current + 1
    ensures r.1.(current := m.current) == m
  {
    if m.layout == PreviewLayout then (None, m)
    else (Some(m.current), if IsTabbed(m.layout) then m else m.(current := m.current + 1))
  }

  /** The columns of `n` documents shown one after another. */
  function ShowAll(m: Manager, n: nat): (r: seq<Option<int>>)
    ensures |r| == n
    decreases n
  {
    if n == 0 then [] else [ShowDocument(m).0] + ShowAll(ShowDocument(m).1, n - 1)
  }

  /** Outside the preview and tabbed layouts, the k-th document opens in
      column `current + k`. */
  lemma {:induction false} ShowAllColumns(m: Manager, n: nat)
    requires m.layout != PreviewLayout && !IsTabbed(m.layout)
    ensures forall k :: 0 <= k < n ==> ShowAll(m, n)[k] == Some(m.current + k)
    decreases n
  {
    if n > 0 {
      var next := ShowDocument(m).1;
      ShowAllColumns(next, n - 1);
      forall k | 0 <= k < n ensures ShowAll(m, n)[k] == Some(m.current + k) {
        if k > 0 {
          assert ShowAll(m, n)[k] == ShowAll(next, n - 1)[k - 1];
        }
      }
    }
  }

  /** In a tabbed layout every document opens in the same column. */
  lemma {:induction false} TabbedShowsInOneColumn(m: Manager, n: nat)
    requires IsTabbed(m.layout)
    ensures forall k :: 0 <= k < n ==> ShowAll(m, n)[k] == Some(m.current)
  {
    if n > 0 {
      TabbedShowsInOneColumn(m, n - 1);
      forall k | 0 <= k < n ensures ShowAll(m, n)[k] == Some(m.current) {
        if k > 0 {
          assert ShowAll(m, n)[k] == ShowAll(m, n - 1)[k - 1];
        }
      }
    }
  }

  /** The editors of the swing's files never land in the preview's column. */
  lemma EditorsAvoidPreview(includedFiles: nat, manifestLayout: Option<string>, setting: string)
    requires includedFiles <= 4
    ensures var m := CreateLayoutManager(includedFiles, manifestLayout, setting);
            forall k :: 0 <= k < includedFiles ==> ShowAll(m, includedFiles)[k] != Some(m.preview)
  {
    var m := CreateLayoutManager(includedFiles, manifestLayout, setting);
    if m.layout == PreviewLayout {
      NothingShownInPreviewLayout(m, includedFiles);
    } else if IsTabbed(m.layout) {
      TabbedShowsInOneColumn(m, includedFiles);
    } else {
      ShowAllColumns(m, includedFiles);
    }
  }

  lemma {:induction false} NothingShownInPreviewLayout(m: Manager, n: nat)
    requires m.layout == PreviewLayout
    ensures forall k :: 0 <= k < n ==> ShowAll(m, n)[k].None?
  {
    if n > 0 {
      NothingShownInPreviewLayout(m, n - 1);
      forall k | 0 <= k < n ensures ShowAll(m, n)[k].None? {
        if k > 0 {
          assert ShowAll(m, n)[k] == ShowAll(m, n - 1)[k - 1];
        }
      }
    }
  }

  /** For one to three files in the side-by-side layouts, the tree has one
      cell per file plus one for the preview; four files (an input file
      besides the three documents) get the two cells of a single split. */
  lemma CellsMatchFiles(includedFiles: nat, manifestLayout: Option<string>, setting: string)
    requires 1 <= includedFiles <= 4
    ensures var m := CreateLayoutManager(includedFiles, manifestLayout, setting);
            !IsTabbed(m.layout) ==> Cells(m.editorLayout.groups) == if includedFiles == 4 then 2 else includedFiles + 1
  {
    var m := CreateLayoutManager(includedFiles, manifestLayout, setting);
    assert Cells(SplitOne.groups) == 2;
    assert Cells(SplitTwo.groups) == 3;
    assert Cells(SplitThree.groups) == 4;
    assert Cells(Grid.groups) == 4;
    if m.layout == SplitRight || m.layout == SplitBottom {
      ReverseTwoCells(BaseLayout(includedFiles, m.layout).groups);
    }
  }

  lemma ReverseTwoCells(groups: seq<Group>)
    requires |groups| == 2
    ensures Cells(Reverse(groups)) == Cells(groups)
  {
    var r := Reverse(groups);
    assert r == [groups[1], groups[0]];
    assert r[1..] == [groups[0]] && r[1..][1..] == [];
    assert groups[1..] == [groups[1]] && groups[1..][1..] == [];
    assert Cells(r) == Cells([groups[1]]) + Cells([groups[0]]);
    assert Cells(groups) == Cells([groups[0]]) + Cells([groups[1]]);
  }
}
