/** The string primitives of JavaScript and Node's `path` module that the
    extension relies on, stated over `seq<char>`. Case conversion is ASCII only. */
module Strings {
  import opened Wrappers

  /** The characters `String.prototype.trim` removes: JavaScript's WhiteSpace
      and LineTerminator productions. */
  predicate IsWhitespace(c: char) {
    || c == ' ' || c == '\t' || c == '\n' || c == '\r' || c == '\U{000B}' || c == '\U{000C}'
    || c == '\U{00A0}' || c == '\U{1680}' || ('\U{2000}' <= c <= '\U{200A}')
    || c == '\U{2028}' || c == '\U{2029}' || c == '\U{202F}' || c == '\U{205F}'
    || c == '\U{3000}' || c == '\U{FEFF}'
  }

  /** Every character of `s` is whitespace. */
  predicate IsBlank(s: string) {
    forall i :: 0 <= i < |s| ==> IsWhitespace(s[i])
  }

  /** `s` with its leading whitespace removed. */
  function TrimStart(s: string): (r: string)
    ensures |r| <= |s| && r == s[|s| - |r|..]
    ensures r == [] || !IsWhitespace(r[0])
    ensures IsBlank(s[..|s| - |r|])
  {
    if |s| > 0 && IsWhitespace(s[0]) then
      var r := TrimStart(s[1..]);
      assert s[..|s| - |r|] == [s[0]] + s[1..][..|s| - 1 - |r|];
      r
    else s
  }

  /** `s` with its trailing whitespace removed. */
  function TrimEnd(s: string): (r: string)
    ensures |r| <= |s| && r == s[..|r|]
    ensures r == [] || !IsWhitespace(r[|r| - 1])
    ensures IsBlank(s[|r|..])
  {
    if |s| > 0 && IsWhitespace(s[|s| - 1]) then
      var r := TrimEnd(s[..|s| - 1]);
      assert s[|r|..] == s[..|s| - 1][|r|..] + [s[|s| - 1]];
      r
    else s
  }

  /** `String.prototype.trim`. */
  function Trim(s: string): string {
    TrimEnd(TrimStart(s))
  }

  /** The test `s.trim() === ""` holds exactly for whitespace-only strings. */
  lemma TrimEmptyIffBlank(s: string)
    ensures Trim(s) == [] <==> IsBlank(s)
  {
  }

  predicate StartsWith(s: string, prefix: string) {
    |prefix| <= |s| && s[..|prefix|] == prefix
  }

  predicate EndsWith(s: string, suffix: string) {
    |suffix| <= |s| && s[|s| - |suffix|..] == suffix
  }

  /** ASCII lower-casing of one character. */
  function LowerChar(c: char): char {
    if 'A' <= c <= 'Z' then (c as int + 32) as char else c
  }

  /** ASCII upper-casing of one character. */
  function UpperChar(c: char): char {
    if 'a' <= c <= 'z' then (c as int - 32) as char else c
  }

  function ToLower(s: string): (r: string)
    ensures |r| == |s| && forall i :: 0 <= i < |s| ==> r[i] == LowerChar(s[i])
  {
    seq(|s|, i requires 0 <= i < |s| => LowerChar(s[i]))
  }

  function ToUpper(s: string): (r: string)
    ensures |r| == |s| && forall i :: 0 <= i < |s| ==> r[i] == UpperChar(s[i])
  {
    seq(|s|, i requires 0 <= i < |s| => UpperChar(s[i]))
  }

  /** Case-insensitive (ASCII) prefix test, as a regular expression with the `i` flag does it. */
  predicate StartsWithIgnoreCase(s: string, prefix: string) {
    |prefix| <= |s| && ToLower(s[..|prefix|]) == ToLower(prefix)
  }

  /** `pattern` occurs in `s` starting at index `i`. */
  predicate OccursAt(s: string, pattern: string, i: int) {
    0 <= i && i + |pattern| <= |s| && s[i..i + |pattern|] == pattern
  }

  /** The first index at or after `from` where `pattern` occurs. */
  function IndexOfFrom(s: string, pattern: string, from: nat): (r: Option<nat>)
    requires from <= |s|
    ensures r.Some? ==> from <= r.value && OccursAt(s, pattern, r.value)
    ensures r.Some? ==> forall j :: from <= j < r.value ==> !OccursAt(s, pattern, j)
    ensures r.None? ==> forall j :: from <= j ==> !OccursAt(s, pattern, j)
    decreases |s| - from
  {
    if from + |pattern| > |s| then None
    else if s[from..from + |pattern|] == pattern then Some(from)
    else if from == |s| then None
    else IndexOfFrom(s, pattern, from + 1)
  }

  /** `String.prototype.indexOf`, with `None` for -1. */
  function IndexOf(s: string, pattern: string): (r: Option<nat>)
    ensures r.Some? ==> OccursAt(s, pattern, r.value)
    ensures r.Some? ==> forall j :: 0 <= j < r.value ==> !OccursAt(s, pattern, j)
    ensures r.None? ==> forall j :: 0 <= j ==> !OccursAt(s, pattern, j)
  {
    IndexOfFrom(s, pattern, 0)
  }

  predicate Contains(s: string, pattern: string) {
    IndexOf(s, pattern).Some?
  }

  /** The last index of character `c` in `s`. */
  function LastIndexOfChar(s: string, c: char): (r: Option<nat>)
    ensures r.Some? ==> r.value < |s| && s[r.value] == c
    ensures r.Some? ==> forall j :: r.value < j < |s| ==> s[j] != c
    ensures r.None? ==> forall j :: 0 <= j < |s| ==> s[j] != c
  {
    if |s| == 0 then None
    else if s[|s| - 1] == c then Some(|s| - 1)
    else LastIndexOfChar(s[..|s| - 1], c)
  }

  /** `String.prototype.replace` with a plain-string pattern: only the first
      occurrence is replaced. */
  function ReplaceFirst(s: string, pattern: string, replacement: string): string {
    match IndexOf(s, pattern)
    case None => s
    case Some(i) => s[..i] + replacement + s[i + |pattern|..]
  }

  /** A global replacement of a literal, non-empty pattern: occurrences are
      replaced left to right without overlapping. */
  function ReplaceAll(s: string, pattern: string, replacement: string): string
    requires |pattern| > 0
    decreases |s|
  {
    match IndexOf(s, pattern)
    case None => s
    case Some(i) => s[..i] + replacement + ReplaceAll(s[i + |pattern|..], pattern, replacement)
  }

  /** `Array.prototype.join`. */
  function Join(parts: seq<string>, separator: string): string {
    if |parts| == 0 then ""
    else if |parts| == 1 then parts[0]
    else parts[0] + separator + Join(parts[1..], separator)
  }

  /** `String.prototype.split` with a non-empty literal separator. */
  function Split(s: string, separator: string): (r: seq<string>)
    requires |separator| > 0
    ensures |r| >= 1
    ensures forall k :: 0 <= k < |r| ==> !Contains(r[k], separator)
    decreases |s|
  {
    match IndexOf(s, separator)
    case None => [s]
    case Some(i) =>
      assert !Contains(s[..i], separator) by {
        forall j | 0 <= j ensures !OccursAt(s[..i], separator, j) {
          if OccursAt(s[..i], separator, j) {
            assert s[..i][j..j + |separator|] == s[j..j + |separator|];
            assert OccursAt(s, separator, j);
          }
        }
      }
      [s[..i]] + Split(s[i + |separator|..], separator)
  }

  /** Joining the pieces of a split with the same separator gives back the input. */
  lemma {:induction false} JoinSplit(s: string, separator: string)
    requires |separator| > 0
    ensures Join(Split(s, separator), separator) == s
    decreases |s|
  {
    match IndexOf(s, separator)
    case None =>
    case Some(i) =>
      var rest := s[i + |separator|..];
      var pieces := Split(rest, separator);
      JoinSplit(rest, separator);
      assert Split(s, separator) == [s[..i]] + pieces;
      assert ([s[..i]] + pieces)[1..] == pieces;
      assert Join([s[..i]] + pieces, separator) == s[..i] + separator + Join(pieces, separator);
      assert s == s[..i] + separator + rest;
  }

  /** Node's `path.basename` for paths without a trailing slash: the text
      after the last `/`. */
  function BaseName(path: string): (r: string)
    ensures EndsWith(path, r) && forall i :: 0 <= i < |r| ==> r[i] != '/'
  {
    match LastIndexOfChar(path, '/')
    case None => path
    case Some(i) => path[i + 1..]
  }

  /** Node's `path.extname` of a base name: from the last dot to the end, or ""
      when there is no dot, the dot is the first character, or the name is "..". */
  function ExtOfBaseName(name: string): (r: string)
    ensures r == [] || (r[0] == '.' && EndsWith(name, r) && |r| < |name|)
  {
    match LastIndexOfChar(name, '.')
    case None => ""
    case Some(d) => if d == 0 || name == ".." then "" else name[d..]
  }

  /** Node's `path.extname` for paths without a trailing slash. */
  function ExtName(path: string): string {
    ExtOfBaseName(BaseName(path))
  }

  lemma LastIndexOfCharAt(s: string, c: char, i: nat)
    requires i < |s| && s[i] == c && forall j :: i < j < |s| ==> s[j] != c
    ensures LastIndexOfChar(s, c) == Some(i)
  {
  }

  /** The extension of `<stem><ext>` is `ext` when `ext` is a dot followed by at
      least one character and no further dot, and no slash occurs. */
  lemma ExtNameOf(stem: string, ext: string)
    requires |stem| > 0 && |ext| > 1 && ext[0] == '.'
    requires forall k :: 1 <= k < |ext| ==> ext[k] != '.' && ext[k] != '/'
    requires forall k :: 0 <= k < |stem| ==> stem[k] != '/'
    ensures ExtName(stem + ext) == ext
  {
    var name := stem + ext;
    forall j | 0 <= j < |name| ensures name[j] != '/' {
      if j < |stem| { assert name[j] == stem[j]; } else { assert name[j] == ext[j - |stem|]; }
    }
    assert BaseName(name) == name;
    forall j | |stem| < j < |name| ensures name[j] != '.' {
      assert name[j] == ext[j - |stem|];
    }
    LastIndexOfCharAt(name, '.', |stem|);
    assert name[|stem|..] == ext;
  }

  /** A string without `c` has no occurrence of the one-character pattern `[c]`. */
  lemma NoCharNoOccurrence(s: string, c: char)
    requires c !in s
    ensures IndexOf(s, [c]).None?
  {
    var p := [c];
    forall j | 0 <= j ensures !OccursAt(s, p, j) {
      if j + 1 <= |s| {
        assert s[j..j + 1] == [s[j]];
      }
    }
  }

  /** In `a + [c] + b` with no `c` in `a`, the first `c` is right after `a`. */
  lemma FirstCharAfter(a: string, c: char, b: string)
    requires c !in a
    ensures IndexOf(a + [c] + b, [c]) == Some(|a|)
  {
    var s := a + [c] + b;
    var p := [c];
    assert s[|a|..|a| + 1] == p;
    assert OccursAt(s, p, |a|);
    forall j | 0 <= j < |a| ensures !OccursAt(s, p, j) {
      assert s[j..j + 1] == [a[j]];
    }
    var r := IndexOf(s, p);
    assert r.Some? && r.value <= |a|;
  }

  /** Splitting on a separator character that no part contains undoes the join. */
  lemma {:induction false} SplitJoin(parts: seq<string>, c: char)
    requires |parts| >= 1 && forall i :: 0 <= i < |parts| ==> c !in parts[i]
    ensures Split(Join(parts, [c]), [c]) == parts
  {
    if |parts| == 1 {
      NoCharNoOccurrence(parts[0], c);
    } else {
      var rest := parts[1..];
      SplitJoin(rest, c);
      var s := Join(parts, [c]);
      assert s == parts[0] + [c] + Join(rest, [c]);
      FirstCharAfter(parts[0], c, Join(rest, [c]));
      assert s[|parts[0]| + 1..] == Join(rest, [c]);
      assert s[..|parts[0]|] == parts[0];
      assert parts == [parts[0]] + rest;
    }
  }

  /** Replacing every one-character pattern `[c]` by text without `c` leaves no `c`. */
  lemma {:induction false} ReplaceAllRemoves(s: string, c: char, replacement: string)
    requires c !in replacement
    ensures c !in ReplaceAll(s, [c], replacement)
    decreases |s|
  {
    match IndexOf(s, [c])
    case None =>
      forall j | 0 <= j < |s| ensures s[j] != c {
        assert !OccursAt(s, [c], j);
        assert s[j..j + 1] == [s[j]];
      }
    case Some(i) =>
      ReplaceAllRemoves(s[i + 1..], c, replacement);
      forall j | 0 <= j < i ensures s[j] != c {
        assert !OccursAt(s, [c], j);
        assert s[j..j + 1] == [s[j]];
      }
      assert forall j :: 0 <= j < i ==> s[..i][j] == s[j];
  }

  /** A global replacement introduces no character that neither the input
      nor the replacement has. */
  lemma {:induction false} ReplaceAllKeepsAbsent(s: string, pattern: string, replacement: string, c: char)
    requires |pattern| > 0 && c !in s && c !in replacement
    ensures c !in ReplaceAll(s, pattern, replacement)
    decreases |s|
  {
    match IndexOf(s, pattern)
    case None =>
    case Some(i) =>
      var rest := s[i + |pattern|..];
      assert forall j :: 0 <= j < |rest| ==> rest[j] == s[i + |pattern| + j];
      ReplaceAllKeepsAbsent(rest, pattern, replacement, c);
      assert forall j :: 0 <= j < i ==> s[..i][j] == s[j];
  }

  /** No text occurs twice in `s`. */
  predicate NoDuplicates(s: seq<string>) {
    forall i, j :: 0 <= i < j < |s| ==> s[i] != s[j]
  }

  /** `a` can be obtained from `b` by deleting elements. */
  predicate IsSubsequence(a: seq<string>, b: seq<string>)
    decreases |b|
  {
    |a| == 0 || (|b| > 0 && (IsSubsequence(a, b[1..]) || (a[0] == b[0] && IsSubsequence(a[1..], b[1..]))))
  }
}
