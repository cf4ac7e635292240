/** The most-recently-used template list kept in global state: at most three
    template names, the latest first. */
module TemplateMru {
  import opened Wrappers
  import opened Strings

  const MruSize: nat := 3

  /** `getTemplateMRU`: the stored array (`None` when nothing is stored) with
      its `null` entries dropped. */
  function GetTemplateMru(stored: Option<seq<Option<string>>>): (r: seq<string>)
    ensures stored.None? ==> r == []
    ensures forall x :: x in r <==> stored.Some? && Some(x) in stored.value
  {
    if stored.None? then [] else Present(stored.value)
  }

  /** The `filter(t => t !== null)` of the stored entries; FilterKeepsOrder
      pins it down entry by entry. */
  function Present(entries: seq<Option<string>>): (r: seq<string>)
    ensures forall x :: x in r <==> Some(x) in entries
    ensures |r| <= |entries|
  {
    if |entries| == 0 then []
    else
      var rest := Present(entries[1..]);
      assert forall x :: Some(x) in entries <==> Some(x) == entries[0] || Some(x) in entries[1..];
      if entries[0].Some? then [entries[0].value] + rest else rest
  }

  /** The stored order survives: reading back a concatenation reads back each
      part in turn, a stored template reads back as itself and a `null` entry
      as nothing. */
  lemma FilterKeepsOrder(a: seq<Option<string>>, b: seq<Option<string>>, x: string)
    ensures GetTemplateMru(Some(a + b)) == GetTemplateMru(Some(a)) + GetTemplateMru(Some(b))
    ensures GetTemplateMru(Some([Some(x)])) == [x]
    ensures GetTemplateMru(Some([None])) == []
  {
    PresentAppend(a, b);
    assert [Some(x)][1..] == [];
    var none: seq<Option<string>> := [None];
    assert none[1..] == [];
  }

  lemma {:induction false} PresentAppend(a: seq<Option<string>>, b: seq<Option<string>>)
    ensures Present(a + b) == Present(a) + Present(b)
    decreases |a|
  {
    if |a| == 0 {
      assert a + b == b;
    } else {
      assert (a + b)[0] == a[0];
      assert (a + b)[1..] == a[1..] + b;
      PresentAppend(a[1..], b);
    }
  }

  /** The list with the first occurrence of `x` spliced out. */
  function RemoveFirst(s: seq<string>, x: string): (r: seq<string>)
    ensures x !in s ==> r == s
    ensures x in s ==> |r| == |s| - 1
    ensures IsSubsequence(r, s)
  {
    if |s| == 0 then []
    else if s[0] == x then
      SubsequenceOfSelf(s[1..]);
      s[1..]
    else
      var rest := RemoveFirst(s[1..], x);
      assert ([s[0]] + rest)[1..] == rest;
      [s[0]] + rest
  }

  lemma {:induction false} SubsequenceOfSelf(s: seq<string>)
    ensures IsSubsequence(s, s)
    ensures |s| > 0 ==> IsSubsequence(s[1..], s)
    decreases |s|
  {
    if |s| > 0 {
      SubsequenceOfSelf(s[1..]);
      SubsequenceOfTail(s[1..], s);
    }
  }

  lemma SubsequenceOfTail(a: seq<string>, s: seq<string>)
    requires |s| > 0 && IsSubsequence(a, s[1..])
    ensures IsSubsequence(a, s)
  {
  }

  /** `addTemplateToMRU(template)`: the template moves (or is added) to the
      front and the list is cut back to `MruSize` entries. */
  function AddTemplate(mru: seq<string>, template: string): (r: seq<string>)
    ensures 1 <= |r| <= MruSize && r[0] == template
    ensures IsSubsequence(r[1..], mru)
    ensures (var grown := if template in mru then |mru| else |mru| + 1;
             |r| == if grown <= MruSize then grown else MruSize)
  {
    var rest := RemoveFirst(mru, template);
    var r := ([template] + rest)[..if |rest| + 1 <= MruSize then |rest| + 1 else MruSize];
    assert r[1..] == rest[..|r| - 1];
    PrefixIsSubsequence(rest, |r| - 1);
    SubsequenceTrans(r[1..], rest, mru);
    r
  }

  lemma {:induction false} PrefixIsSubsequence(s: seq<string>, n: nat)
    requires n <= |s|
    ensures IsSubsequence(s[..n], s)
    decreases |s|
  {
    if n == 0 {
    } else {
      PrefixIsSubsequence(s[1..], n - 1);
      assert s[..n][1..] == s[1..][..n - 1];
    }
  }

  lemma {:induction false} SubsequenceTrans(a: seq<string>, b: seq<string>, c: seq<string>)
    requires IsSubsequence(a, b) && IsSubsequence(b, c)
    ensures IsSubsequence(a, c)
    decreases |c|
  {
    if |a| == 0 {
    } else if IsSubsequence(b, c[1..]) {
      SubsequenceTrans(a, b, c[1..]);
    } else {
      // b[0] == c[0] and b[1..] is a subsequence of c[1..]
      if IsSubsequence(a, b[1..]) {
        SubsequenceTrans(a, b[1..], c[1..]);
      } else {
        SubsequenceTrans(a[1..], b[1..], c[1..]);
      }
    }
  }

  /** Adding a template twice in a row is the same as adding it once. */
  lemma AddTwiceIsOnce(mru: seq<string>, template: string)
    ensures AddTemplate(AddTemplate(mru, template), template) == AddTemplate(mru, template)
  {
    var r := AddTemplate(mru, template);
    AddHeadUnchanged(r, template);
  }

  /** Adding the template already at the head of a list of at most
      `MruSize` entries changes nothing. */
  lemma AddHeadUnchanged(mru: seq<string>, template: string)
    requires 1 <= |mru| <= MruSize && mru[0] == template
    ensures AddTemplate(mru, template) == mru
  {
    assert RemoveFirst(mru, template) == mru[1..];
    assert [template] + mru[1..] == mru;
  }

  /** Without `x` and without repeats, and holding everything else of `s`. */
  lemma {:induction false} RemoveFirstDistinct(s: seq<string>, x: string)
    requires NoDuplicates(s)
    ensures NoDuplicates(RemoveFirst(s, x)) && x !in RemoveFirst(s, x)
    ensures forall y :: y in RemoveFirst(s, x) <==> y in s && y != x
    decreases |s|
  {
    if |s| > 0 {
      if s[0] == x {
        assert forall j :: 1 <= j < |s| ==> s[j] != x;
      } else {
        RemoveFirstDistinct(s[1..], x);
        var rest := RemoveFirst(s[1..], x);
        assert s[0] !in s[1..] by {
          assert forall j :: 1 <= j < |s| ==> s[j] != s[0];
        }
        assert forall y :: y in s <==> y == s[0] || y in s[1..];
        assert RemoveFirst(s, x) == [s[0]] + rest;
      }
    }
  }

  /** Removing one entry moves no other entry further back. */
  lemma {:induction false} RemoveFirstKeepsPrefix(s: seq<string>, x: string, k: nat)
    requires k <= |s|
    ensures forall y :: y in s[..k] && y != x ==> y in RemoveFirst(s, x)[..if k <= |RemoveFirst(s, x)| then k else |RemoveFirst(s, x)|]
    decreases |s|
  {
    if |s| > 0 && k > 0 {
      var r := RemoveFirst(s, x);
      if s[0] == x {
        assert forall y :: y in s[..k] && y != x ==> y in s[1..][..k - 1];
        assert s[1..][..k - 1] == r[..k - 1];
      } else {
        RemoveFirstKeepsPrefix(s[1..], x, k - 1);
        var rest := RemoveFirst(s[1..], x);
        assert r == [s[0]] + rest;
        var m := if k - 1 <= |rest| then k - 1 else |rest|;
        assert r[..m + 1] == [s[0]] + rest[..m];
        assert forall y :: y in s[..k] <==> y == s[0] || y in s[1..][..k - 1];
      }
    }
  }

  /** With no repeats before, there are none after: the template is only at
      the head. */
  lemma AddKeepsDistinct(mru: seq<string>, template: string)
    requires NoDuplicates(mru)
    ensures NoDuplicates(AddTemplate(mru, template))
  {
    var rest := RemoveFirst(mru, template);
    RemoveFirstDistinct(mru, template);
    var whole := [template] + rest;
    assert NoDuplicates(whole) by {
      forall i, j | 0 <= i < j < |whole| ensures whole[i] != whole[j] {
        if i == 0 {
          assert whole[j] == rest[j - 1];
        } else {
          assert whole[i] == rest[i - 1] && whole[j] == rest[j - 1];
        }
      }
    }
    var r := AddTemplate(mru, template);
    assert r == whole[..|r|];
  }

  /** The entries that were among the first `MruSize - 1` stay in the list. */
  lemma AddKeepsRecent(mru: seq<string>, template: string)
    ensures forall y :: y in mru[..if |mru| < MruSize - 1 then |mru| else MruSize - 1] ==> y in AddTemplate(mru, template)
  {
    var k := if |mru| < MruSize - 1 then |mru| else MruSize - 1;
    var rest := RemoveFirst(mru, template);
    RemoveFirstKeepsPrefix(mru, template, k);
    var r := AddTemplate(mru, template);
    var m := if k <= |rest| then k else |rest|;
    var n := if |rest| + 1 <= MruSize then |rest| + 1 else MruSize;
    assert r == ([template] + rest)[..n];
    assert r[1..] == rest[..n - 1];
    assert r[1..][..m] == rest[..m];
  }
}
