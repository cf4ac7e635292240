/** The regular-expression shapes the script pipeline uses, with the
    leftmost-first, greedy backtracking semantics of JavaScript `RegExp`:
    - a choice of literals, first occurrence (`/a|b/`);
    - a literal prefix, a greedy run of one character class, and a choice of
      literal suffixes (`/P(.+)(S1|S2)/`, `/P(\S+)(S1|S2)/`). */
module Patterns {
  import opened Wrappers
  import opened Strings

  /** The characters `.` refuses to match. */
  predicate IsLineTerminator(c: char) {
    c == '\n' || c == '\r' || c == '\U{2028}' || c == '\U{2029}'
  }

  /** The two classes that appear in greedy runs: `.` and `\S`. */
  datatype CharClass = AnyButLineTerminator | NonWhitespace

  predicate InClass(c: char, cls: CharClass) {
    match cls
    case AnyButLineTerminator => !IsLineTerminator(c)
    case NonWhitespace => !IsWhitespace(c)
  }

  /** The end of the run of class characters that starts at `from`. */
  function RunEnd(s: string, from: nat, cls: CharClass): (r: nat)
    requires from <= |s|
    ensures from <= r <= |s|
    ensures forall k :: from <= k < r ==> InClass(s[k], cls)
    ensures r < |s| ==> !InClass(s[r], cls)
    decreases |s| - from
  {
    if from == |s| || !InClass(s[from], cls) then from else RunEnd(s, from + 1, cls)
  }

  /** The first alternative among `choices` that occurs at index `j`. */
  function ChoiceAt(s: string, j: int, choices: seq<string>): (r: Option<nat>)
    ensures r.Some? ==> r.value < |choices| && OccursAt(s, choices[r.value], j)
    ensures r.Some? ==> forall n :: 0 <= n < r.value ==> !OccursAt(s, choices[n], j)
    ensures r.None? ==> forall n :: 0 <= n < |choices| ==> !OccursAt(s, choices[n], j)
  {
    if |choices| == 0 then None
    else if OccursAt(s, choices[0], j) then Some(0)
    else match ChoiceAt(s, j, choices[1..])
      case None => None
      case Some(n) => Some(n + 1)
  }

  /** The leftmost index at or after `from` where one of `choices` occurs:
      the match of `/c1|c2|.../` searched from `from`. */
  function FirstChoice(s: string, from: nat, choices: seq<string>): (r: Option<nat>)
    requires from <= |s|
    ensures r.Some? ==> from <= r.value <= |s| && ChoiceAt(s, r.value, choices).Some?
    ensures r.Some? ==> forall j :: from <= j < r.value ==> ChoiceAt(s, j, choices).None?
    ensures r.None? ==> forall j :: from <= j <= |s| ==> ChoiceAt(s, j, choices).None?
    decreases |s| - from
  {
    if ChoiceAt(s, from, choices).Some? then Some(from)
    else if from == |s| then None
    else FirstChoice(s, from + 1, choices)
  }

  /** `s.replace(/c1|c2|.../, f)` where the replacement depends on which
      alternative matched. */
  function ReplaceFirstChoice(s: string, choices: seq<string>, replacements: seq<string>): (r: string)
    requires |replacements| == |choices|
    ensures FirstChoice(s, 0, choices).None? ==> r == s
    ensures FirstChoice(s, 0, choices).Some? ==>
      var i := FirstChoice(s, 0, choices).value;
      var n := ChoiceAt(s, i, choices).value;
      r == s[..i] + replacements[n] + s[i + |choices[n]|..]
  {
    match FirstChoice(s, 0, choices)
    case None => s
    case Some(i) =>
      var n := ChoiceAt(s, i, choices).value;
      s[..i] + replacements[n] + s[i + |choices[n]|..]
  }

  /** The largest index `j` in `[lo, hi]` at which one of `choices` occurs. */
  function LastChoice(s: string, lo: nat, hi: nat, choices: seq<string>): (r: Option<nat>)
    ensures r.Some? ==> lo <= r.value <= hi && ChoiceAt(s, r.value, choices).Some?
    ensures forall j :: lo <= j <= hi && (r.None? || r.value < j) ==> ChoiceAt(s, j, choices).None?
    decreases hi
  {
    if hi < lo then None
    else if ChoiceAt(s, hi, choices).Some? then Some(hi)
    else if hi == lo then None
    else LastChoice(s, lo, hi - 1, choices)
  }

  /** A match: the prefix starts at `start`, the captured run is
      `s[start + |prefix| .. split]`, the suffix ends at `end`. */
  datatype Match = Match(start: nat, split: nat, end: nat)

  /** The regular expression `prefix (cls{min,}) (c1|c2|...)` tried at index
      `i`. The run is greedy: the match with the longest run wins. */
  function MatchAt(s: string, i: nat, prefix: string, cls: CharClass, min: nat, choices: seq<string>): (r: Option<Match>)
    ensures r.Some? ==> var m := r.value;
      && m.start == i && OccursAt(s, prefix, i)
      && i + |prefix| + min <= m.split <= |s|
      && (forall k :: i + |prefix| <= k < m.split ==> InClass(s[k], cls))
      && ChoiceAt(s, m.split, choices).Some?
      && m.end == m.split + |choices[ChoiceAt(s, m.split, choices).value]| <= |s|
    ensures r.Some? ==> forall j :: r.value.split < j <= RunEnd(s, i + |prefix|, cls) ==> ChoiceAt(s, j, choices).None?
    ensures r.None? && OccursAt(s, prefix, i) ==>
      forall j :: i + |prefix| + min <= j <= RunEnd(s, i + |prefix|, cls) ==> ChoiceAt(s, j, choices).None?
  {
    if !OccursAt(s, prefix, i) then None
    else
      var a := i + |prefix|;
      var e := RunEnd(s, a, cls);
      match LastChoice(s, a + min, e, choices)
      case None => None
      case Some(j) => Some(Match(i, j, j + |choices[ChoiceAt(s, j, choices).value]|))
  }

  /** The leftmost match at or after `from`. */
  function FirstMatch(s: string, from: nat, prefix: string, cls: CharClass, min: nat, choices: seq<string>): (r: Option<Match>)
    requires from <= |s|
    ensures r.Some? ==> from <= r.value.start && MatchAt(s, r.value.start, prefix, cls, min, choices) == r
    ensures forall i :: from <= i <= |s| && (r.None? || i < r.value.start) ==> MatchAt(s, i, prefix, cls, min, choices).None?
    decreases |s| - from
  {
    if MatchAt(s, from, prefix, cls, min, choices).Some? then MatchAt(s, from, prefix, cls, min, choices)
    else if from == |s| then None
    else FirstMatch(s, from + 1, prefix, cls, min, choices)
  }

  /** `s.replace(/prefix(cls{min,})(c1|...)/, before + "$1" + after)`: the
      first match, if any, becomes the captured run between `before` and
      `after`. */
  function ReplaceFirstMatch(s: string, prefix: string, cls: CharClass, min: nat, choices: seq<string>,
                             before: string, after: string): (r: string)
    ensures FirstMatch(s, 0, prefix, cls, min, choices).None? ==> r == s
    ensures FirstMatch(s, 0, prefix, cls, min, choices).Some? ==>
      var m := FirstMatch(s, 0, prefix, cls, min, choices).value;
      r == s[..m.start] + before + s[m.start + |prefix|..m.split] + after + s[m.end..]
  {
    match FirstMatch(s, 0, prefix, cls, min, choices)
    case None => s
    case Some(m) => s[..m.start] + before + s[m.start + |prefix|..m.split] + after + s[m.end..]
  }

  /** When the text is exactly one match — the prefix, a run of class
      characters, one alternative — the first match is the whole text. */
  lemma WholeMatch(s: string, prefix: string, x: string, cls: CharClass, min: nat, choices: seq<string>, n: nat, j: nat)
    requires n < |choices| && s == prefix + x + choices[n] && j == |prefix| + |x|
    requires |x| >= min && forall c :: c in x ==> InClass(c, cls)
    requires forall k :: 0 <= k < |choices| ==> |choices[k]| == |choices[n]|
    requires ChoiceAt(s, j, choices) == Some(n)
    ensures FirstMatch(s, 0, prefix, cls, min, choices) == Some(Match(0, j, |s|))
  {
    ConcatenationParts(s, prefix, x, choices[n], cls, j);
    MatchSpan(s, prefix, cls, min, choices, j, n);
  }

  /** Replacing the match of a text that is exactly one match keeps only the
      captured run, between `before` and `after`. */
  lemma ReplaceWholeMatch(s: string, prefix: string, x: string, cls: CharClass, min: nat, choices: seq<string>, n: nat, j: nat,
                          before: string, after: string)
    requires n < |choices| && s == prefix + x + choices[n] && j == |prefix| + |x|
    requires |x| >= min && forall c :: c in x ==> InClass(c, cls)
    requires forall k :: 0 <= k < |choices| ==> |choices[k]| == |choices[n]|
    requires ChoiceAt(s, j, choices) == Some(n)
    ensures ReplaceFirstMatch(s, prefix, cls, min, choices, before, after) == before + x + after
  {
    WholeMatch(s, prefix, x, cls, min, choices, n, j);
    MiddlePart(s, prefix, x, choices[n], j);
    ReplaceSpanningMatch(s, prefix, cls, min, choices, j, x, before, after);
  }

  /** A first match spanning the whole text is replaced by its captured run
      between `before` and `after`. */
  lemma ReplaceSpanningMatch(s: string, prefix: string, cls: CharClass, min: nat, choices: seq<string>, j: nat, x: string,
                             before: string, after: string)
    requires FirstMatch(s, 0, prefix, cls, min, choices) == Some(Match(0, j, |s|))
    requires |prefix| <= j <= |s| && s[|prefix|..j] == x
    ensures ReplaceFirstMatch(s, prefix, cls, min, choices, before, after) == before + x + after
  {
    assert s[..0] + before + x + after + s[|s|..] == before + x + after;
  }

  lemma MiddlePart(s: string, prefix: string, x: string, tail: string, j: nat)
    requires s == prefix + x + tail && j == |prefix| + |x|
    ensures s[|prefix|..j] == x
  {
  }

  /** The pieces of `prefix + x + tail` where they were put. */
  lemma ConcatenationParts(s: string, prefix: string, x: string, tail: string, cls: CharClass, j: nat)
    requires s == prefix + x + tail && j == |prefix| + |x| && forall c :: c in x ==> InClass(c, cls)
    ensures OccursAt(s, prefix, 0) && |s| == j + |tail|
    ensures forall k :: |prefix| <= k < j ==> InClass(s[k], cls)
  {
    assert s[..|prefix|] == prefix;
    forall k | |prefix| <= k < j ensures InClass(s[k], cls) {
      assert s[k] == x[k - |prefix|];
    }
  }

  /** A text that is the prefix, a run of class characters up to `j`, and an
      alternative ending the text is matched whole from index 0. */
  lemma MatchSpan(s: string, prefix: string, cls: CharClass, min: nat, choices: seq<string>, j: nat, n: nat)
    requires OccursAt(s, prefix, 0) && |prefix| + min <= j <= |s|
    requires forall k :: |prefix| <= k < j ==> InClass(s[k], cls)
    requires n < |choices| && ChoiceAt(s, j, choices) == Some(n) && j + |choices[n]| == |s|
    requires forall k :: 0 <= k < |choices| ==> |choices[k]| == |choices[n]|
    ensures FirstMatch(s, 0, prefix, cls, min, choices) == Some(Match(0, j, |s|))
  {
    NoChoiceInTail(s, j, choices, n);
    MatchSpanToLastChoice(s, prefix, cls, min, choices, j, n);
  }

  /** The same when no alternative starts after `j`, whatever their lengths. */
  lemma MatchSpanToLastChoice(s: string, prefix: string, cls: CharClass, min: nat, choices: seq<string>, j: nat, n: nat)
    requires OccursAt(s, prefix, 0) && |prefix| + min <= j <= |s|
    requires forall k :: |prefix| <= k < j ==> InClass(s[k], cls)
    requires n < |choices| && ChoiceAt(s, j, choices) == Some(n) && j + |choices[n]| == |s|
    requires forall k :: j < k <= |s| ==> ChoiceAt(s, k, choices).None?
    ensures FirstMatch(s, 0, prefix, cls, min, choices) == Some(Match(0, j, |s|))
  {
    RunEndAtLeast(s, |prefix|, j, cls);
    LastChoiceIs(s, |prefix| + min, RunEnd(s, |prefix|, cls), j, choices);
    MatchAtFromLastChoice(s, prefix, cls, min, choices, j, n);
    FirstMatchAtStart(s, prefix, cls, min, choices);
  }

  /** The alternative that ends the text is the last one in any window holding it. */
  lemma LastChoiceAtTail(s: string, lo: nat, hi: nat, j: nat, choices: seq<string>, n: nat)
    requires lo <= j <= hi && n < |choices| && ChoiceAt(s, j, choices) == Some(n) && j + |choices[n]| == |s|
    requires forall k :: 0 <= k < |choices| ==> |choices[k]| == |choices[n]|
    ensures LastChoice(s, lo, hi, choices) == Some(j)
  {
    NoChoiceInTail(s, j, choices, n);
    LastChoiceIs(s, lo, hi, j, choices);
  }

  /** The match at 0 when the prefix occurs there and the last alternative
      within the run ends the text. */
  lemma MatchAtFromLastChoice(s: string, prefix: string, cls: CharClass, min: nat, choices: seq<string>, j: nat, n: nat)
    requires OccursAt(s, prefix, 0) && |prefix| <= |s|
    requires LastChoice(s, |prefix| + min, RunEnd(s, |prefix|, cls), choices) == Some(j)
    requires ChoiceAt(s, j, choices) == Some(n) && j + |choices[n]| == |s|
    ensures MatchAt(s, 0, prefix, cls, min, choices) == Some(Match(0, j, |s|))
  {
  }

  /** A match at the search start is the first match. */
  lemma FirstMatchAtStart(s: string, prefix: string, cls: CharClass, min: nat, choices: seq<string>)
    requires MatchAt(s, 0, prefix, cls, min, choices).Some?
    ensures FirstMatch(s, 0, prefix, cls, min, choices) == MatchAt(s, 0, prefix, cls, min, choices)
  {
  }

  /** Past the start of the last alternative, no alternative of the same
      length fits any more. */
  lemma NoChoiceInTail(s: string, j: nat, choices: seq<string>, n: nat)
    requires n < |choices| && j + |choices[n]| == |s|
    requires forall k :: 0 <= k < |choices| ==> |choices[k]| == |choices[n]|
    ensures forall k :: j < k ==> ChoiceAt(s, k, choices).None?
  {
    forall k | j < k ensures ChoiceAt(s, k, choices).None? {
      forall m | 0 <= m < |choices| ensures !OccursAt(s, choices[m], k) {
        assert k + |choices[m]| > |s|;
      }
    }
  }

  /** `LastChoice` finds the one index with an alternative when none follows it. */
  lemma LastChoiceIs(s: string, lo: nat, hi: nat, j: nat, choices: seq<string>)
    requires lo <= j <= hi && ChoiceAt(s, j, choices).Some?
    requires forall k :: j < k <= hi ==> ChoiceAt(s, k, choices).None?
    ensures LastChoice(s, lo, hi, choices) == Some(j)
  {
  }

  /** A run of class characters up to `j` means the run ends at `j` or later. */
  lemma {:induction false} RunEndAtLeast(s: string, from: nat, j: nat, cls: CharClass)
    requires from <= j <= |s| && forall k :: from <= k < j ==> InClass(s[k], cls)
    ensures RunEnd(s, from, cls) >= j
    decreases |s| - from
  {
    if from < j {
      RunEndAtLeast(s, from + 1, j, cls);
    }
  }
}
