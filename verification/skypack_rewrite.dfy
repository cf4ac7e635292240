/** What pass 1 and pass 2 of `processImports` do to import lines: one
    step of the pass-1 replacement, a single import line, an import line after
    prose lines, and pass 2 after pass 1. */
module SkypackRewrite {
  import opened Wrappers
  import opened Strings
  import opened Patterns
  import opened Skypack

  // ---------------------------------------------------------------------------
  // One step of pass 1
  // ---------------------------------------------------------------------------

  /** One step of pass 1 at a match. */
  lemma {:induction false} RewriteAtMatch(s: string, i: nat)
    requires i < |s| && ImportMatchAt(s, i).Some?
    ensures RewriteBareFrom(s, i) ==
      Replacement(s, i, ImportMatchAt(s, i).value) + RewriteBareFrom(s, ImportMatchAt(s, i).value.close + 1)
  {
  }

  /** One step of pass 1 where no match starts. */
  lemma RewriteWithoutMatch(s: string, i: nat)
    requires i < |s| && ImportMatchAt(s, i).None?
    ensures RewriteBareFrom(s, i) == [s[i]] + RewriteBareFrom(s, i + 1)
  {
  }

  /** Without a match from `from` on, pass 1 copies the rest of the text. */
  lemma {:induction false} NoMatchKeepsText(s: string, from: nat)
    requires from <= |s| && FirstImport(s, from).None?
    ensures RewriteBareFrom(s, from) == s[from..]
    decreases |s| - from
  {
    if from < |s| {
      FirstImportStep(s, from);
      NoMatchKeepsText(s, from + 1);
      assert s[from..] == [s[from]] + s[from + 1..];
    }
  }

  /** The leftmost match from `from` is the one at `from`, or else the
      leftmost one from the next index. */
  lemma FirstImportStep(s: string, from: nat)
    requires from < |s|
    ensures ImportMatchAt(s, from).Some? ==> FirstImport(s, from) == ImportMatchAt(s, from)
    ensures ImportMatchAt(s, from).None? ==> FirstImport(s, from) == FirstImport(s, from + 1)
  {
  }

  // ---------------------------------------------------------------------------
  // A single import line
  // ---------------------------------------------------------------------------

  /** Pass 1 on a single import line whose specifier is bare inserts
      `https://esm.sh/` after the opening quote and keeps the quote character. */
  lemma {:induction false} RewriteBareImportLine(clause: string, quote: char, specifier: string)
    requires |clause| > 0 && |specifier| > 0 && PlainText(clause) && PlainText(specifier) && IsQuote(quote)
    requires !StartsWith(specifier, "./") && !StartsWithIgnoreCase(specifier, "http")
    ensures RewriteBareSpecifiers(ImportLine(clause, quote, specifier)) == ImportLine(clause, quote, EsmBase + specifier)
  {
    var s := ImportLine(clause, quote, specifier);
    var open := 13 + |clause|;
    var close := |s| - 1;
    BareImportLineMatch(clause, quote, specifier, s, open, close);
    RewriteMatchAtEnd(s, 0, open, close);
    assert s[0..open + 1] == s[..open + 1];
    ImportLineParts(clause, quote, specifier, s, open);
    InsertAfterQuote(clause, quote, specifier, EsmBase);
  }

  lemma InsertAfterQuote(clause: string, quote: char, specifier: string, base: string)
    ensures ("import " + clause + " from " + [quote]) + base + (specifier + [quote]) == ImportLine(clause, quote, base + specifier)
  {
  }

  /** Where the pieces of an import line sit. */
  lemma ImportLineParts(clause: string, quote: char, specifier: string, s: string, open: nat)
    requires s == ImportLine(clause, quote, specifier) && open == 13 + |clause|
    ensures open < |s| && s[..open + 1] == "import " + clause + " from " + [quote] && s[open + 1..] == specifier + [quote]
  {
  }

  /** A pass-1 match at `i` that ends the text gets `https://esm.sh/`
      inserted after its opening quote, and nothing else changes from `i` on. */
  lemma RewriteMatchAtEnd(s: string, i: nat, open: nat, close: nat)
    requires i < open < close && close + 1 == |s|
    requires ImportMatchAt(s, i) == Some(ImportMatch(i, open, close))
    ensures RewriteBareFrom(s, i) == s[i..open + 1] + EsmBase + s[open + 1..]
  {
    RewriteAtMatch(s, i);
    assert ImportMatchAt(s, i).value == ImportMatch(i, open, close);
    assert RewriteBareFrom(s, close + 1) == [];
    ReplacementAtEnd(s, i, open, close);
  }

  lemma ReplacementAtEnd(s: string, i: nat, open: nat, close: nat)
    requires i <= open < close && close + 1 == |s|
    ensures Replacement(s, i, ImportMatch(i, open, close)) + [] == s[i..open + 1] + EsmBase + s[open + 1..]
  {
    assert s[open + 1..close + 1] == s[open + 1..];
  }

  lemma NoImportAtEnd(s: string)
    ensures FirstImport(s, |s|).None?
  {
    assert ImportMatchAt(s, |s|).None?;
  }

  /** The match pass 1 finds at the start of such a line. */
  lemma BareImportLineMatch(clause: string, quote: char, specifier: string, s: string, open: nat, close: nat)
    requires |clause| > 0 && |specifier| > 0 && PlainText(clause) && PlainText(specifier) && IsQuote(quote)
    requires !StartsWith(specifier, "./") && !StartsWithIgnoreCase(specifier, "http")
    requires s == ImportLine(clause, quote, specifier) && open == 13 + |clause| && close + 1 == |s|
    ensures open < close && ImportMatchAt(s, 0) == Some(ImportMatch(0, open, close))
  {
    LineOfPlainText(clause, quote, specifier);
    assert ImportAt(s, 0) by {
      assert s[..6] == "import";
    }
    assert FromQuoteAt(s, open) by {
      assert s[open - 6..open] == " from ";
      assert s[open - 5..open - 1] == "from";
    }
    assert BareAfter(s, open) by {
      assert s[open + 1..] == specifier + [quote];
      QuotedPrefix(specifier, quote, "./");
      QuotedPrefix(specifier, quote, "http");
    }
    assert s[close] == s[open];
    SingleLineMatch(s, open, close);
  }

  /** A one-line text with `import` at 0, an opening quote at `open` and the
      same quote as its last character, and no other quote, is matched whole. */
  lemma SingleLineMatch(s: string, open: nat, close: nat)
    requires 14 <= open && open + 2 <= close && close + 1 == |s|
    requires forall k :: 0 <= k < |s| ==> !IsLineTerminator(s[k])
    requires forall k :: 0 <= k < |s| && IsQuote(s[k]) ==> k == open || k == close
    requires ImportAt(s, 0) && FromQuoteAt(s, open) && BareAfter(s, open) && s[close] == s[open]
    ensures ImportMatchAt(s, 0) == Some(ImportMatch(0, open, close))
  {
    WholeLine(s, 0);
    assert LastSameQuote(s, open, open + 2, |s|) == Some(close);
    assert Candidate(s, 0, open);
    forall k | open < k < |s| ensures !Candidate(s, 0, k) {
      if k < close {
        assert !IsQuote(s[k]);
      } else {
        assert LastSameQuote(s, k, k + 2, |s|).None?;
      }
    }
    assert LastCandidate(s, 0, 14, |s| - 1) == Some(open);
  }

  /** A string without line terminators is one line. */
  lemma WholeLine(s: string, i: nat)
    requires i <= |s| && forall k :: 0 <= k < |s| ==> !IsLineTerminator(s[k])
    ensures LineEnd(s, i) == |s|
  {
  }

  /** A specifier that is relative (`./`) or already a URL (`http…`) is left
      alone by pass 1. */
  lemma {:induction false} KeepNonBareImportLine(clause: string, quote: char, specifier: string)
    requires |clause| > 0 && PlainText(clause) && PlainText(specifier) && IsQuote(quote)
    requires StartsWith(specifier, "./") || StartsWithIgnoreCase(specifier, "http")
    ensures RewriteBareSpecifiers(ImportLine(clause, quote, specifier)) == ImportLine(clause, quote, specifier)
  {
    var s := ImportLine(clause, quote, specifier);
    var open := 13 + |clause|;
    LineOfPlainText(clause, quote, specifier);
    assert s[open + 1..] == specifier + [quote];
    assert !BareAfter(s, open) by {
      assert s[open + 1..][..|specifier|] == specifier;
      if StartsWith(specifier, "./") {
        assert s[open + 1..][..2] == specifier[..2];
      } else {
        assert s[open + 1..][..4] == specifier[..4];
      }
    }
    forall i | 0 <= i <= |s| ensures ImportMatchAt(s, i).None? {
      forall k | i + 14 <= k < LineEnd(s, i) ensures !Candidate(s, i, k) {
        if k != open && IsQuote(s[k]) {
          assert k == |s| - 1;
        }
      }
    }
    assert FirstImport(s, 0).None?;
    NoMatchKeepsText(s, 0);
  }

  /** Hence pass 1 does not rewrite an import it has already rewritten. */
  lemma RewriteBareImportLineIdempotent(clause: string, quote: char, specifier: string)
    requires |clause| > 0 && |specifier| > 0 && PlainText(clause) && PlainText(specifier) && IsQuote(quote)
    requires !StartsWith(specifier, "./") && !StartsWithIgnoreCase(specifier, "http")
    ensures var once := RewriteBareSpecifiers(ImportLine(clause, quote, specifier));
      RewriteBareSpecifiers(once) == once
  {
    RewriteBareImportLine(clause, quote, specifier);
    EsmUrlIsPlain(specifier);
    KeepNonBareImportLine(clause, quote, EsmBase + specifier);
  }

  /** An esm.sh URL of plain text is plain text that starts with `http`. */
  lemma EsmUrlIsPlain(specifier: string)
    requires PlainText(specifier)
    ensures PlainText(EsmBase + specifier) && StartsWithIgnoreCase(EsmBase + specifier, "http")
  {
    var url := EsmBase + specifier;
    forall c | c in url ensures !IsLineTerminator(c) && !IsQuote(c) {
      if c !in specifier {
        assert c in EsmBase;
      }
    }
    assert url[..4] == "http";
  }

  lemma LineOfPlainText(clause: string, quote: char, specifier: string)
    requires PlainText(clause) && PlainText(specifier) && IsQuote(quote)
    ensures var s := ImportLine(clause, quote, specifier);
      forall k :: 0 <= k < |s| ==> !IsLineTerminator(s[k])
    ensures var s := ImportLine(clause, quote, specifier);
      forall k :: 0 <= k < |s| && IsQuote(s[k]) ==> k == 13 + |clause| || k == |s| - 1
  {
    var s := ImportLine(clause, quote, specifier);
    forall k | 0 <= k < |s| ensures !IsLineTerminator(s[k]) && (IsQuote(s[k]) ==> k == 13 + |clause| || k == |s| - 1) {
      if 7 <= k < 7 + |clause| {
        assert s[k] == clause[k - 7];
      } else if 14 + |clause| <= k < |s| - 1 {
        assert s[k] == specifier[k - 14 - |clause|];
      }
    }
  }

  /** A quote closing the specifier cannot complete `./` or `http`. */
  lemma QuotedPrefix(a: string, quote: char, p: string)
    requires IsQuote(quote) && (p == "./" || p == "http")
    ensures StartsWith(a + [quote], p) ==> StartsWith(a, p)
    ensures StartsWithIgnoreCase(a + [quote], p) ==> StartsWithIgnoreCase(a, p)
  {
    var b := a + [quote];
    if |p| <= |a| {
      assert b[..|p|] == a[..|p|];
    } else if |p| <= |b| {
      assert b[..|p|][|a|] == quote;
      assert ToLower(b[..|p|])[|a|] == quote;
    }
  }

  /** Lines of prose: they end with a line terminator and hold no quote, so no
      pass-1 match can start in them. */
  predicate ProseLines(p: string) {
    |p| > 0 && IsLineTerminator(p[|p| - 1]) && forall c :: c in p ==> !IsQuote(c)
  }

  // ---------------------------------------------------------------------------
  // No match starts in prose lines
  // ---------------------------------------------------------------------------

  /** A line ends no later than its first line terminator. */
  lemma LineEndBefore(s: string, j: nat, e: nat)
    requires j <= e < |s| && IsLineTerminator(s[e])
    ensures LineEnd(s, j) <= e
  {
  }

  lemma NoImportInProse(p: string, t: string, j: nat)
    requires ProseLines(p) && j < |p|
    ensures ImportMatchAt(p + t, j).None?
  {
    var s := p + t;
    assert s[|p| - 1] == p[|p| - 1];
    LineEndBefore(s, j, |p| - 1);
    forall k | j + 14 <= k < LineEnd(s, j) ensures !Candidate(s, j, k) {
      assert s[k] == p[k];
      assert p[k] in p;
    }
  }

  /** Pass 1 copies prose lines and goes on after them. */
  lemma {:induction false} SkipProse(p: string, t: string, j: nat)
    requires ProseLines(p) && j <= |p|
    ensures RewriteBareFrom(p + t, j) == p[j..] + RewriteBareFrom(p + t, |p|)
    decreases |p| - j
  {
    if j < |p| {
      ProseStep(p, t, j);
      SkipProse(p, t, j + 1);
      ConsConcat(p, j, RewriteBareFrom(p + t, |p|), RewriteBareFrom(p + t, j), RewriteBareFrom(p + t, j + 1));
    }
  }

  lemma ConsConcat(p: string, j: nat, b: string, c: string, d: string)
    requires j < |p| && c == [p[j]] + d && d == p[j + 1..] + b
    ensures c == p[j..] + b
  {
    assert p[j..] == [p[j]] + p[j + 1..];
  }

  /** Pass 1 copies one character of prose. */
  lemma ProseStep(p: string, t: string, j: nat)
    requires ProseLines(p) && j < |p|
    ensures RewriteBareFrom(p + t, j) == [p[j]] + RewriteBareFrom(p + t, j + 1)
  {
    NoImportInProse(p, t, j);
    RewriteWithoutMatch(p + t, j);
    assert (p + t)[j] == p[j];
  }

  // ---------------------------------------------------------------------------
  // An import line after prose lines
  // ---------------------------------------------------------------------------

  /** A line from `i` to the end of the text with `import` at `i`, an opening
      quote at `open` and the same quote as its last character, and no other
      quote on it, is matched whole from `i`. */
  lemma SingleLineMatchAt(s: string, i: nat, open: nat, close: nat)
    requires i + 14 <= open && open + 2 <= close && close + 1 == |s|
    requires forall k :: i <= k < |s| ==> !IsLineTerminator(s[k])
    requires forall k :: i <= k < |s| && IsQuote(s[k]) ==> k == open || k == close
    requires ImportAt(s, i) && FromQuoteAt(s, open) && BareAfter(s, open) && s[close] == s[open]
    ensures ImportMatchAt(s, i) == Some(ImportMatch(i, open, close))
  {
    assert LineEnd(s, i) == |s|;
    assert LastSameQuote(s, open, open + 2, |s|) == Some(close);
    assert Candidate(s, i, open);
    forall k | open < k < |s| ensures !Candidate(s, i, k) {
      if k < close {
        assert !IsQuote(s[k]);
      } else {
        assert LastSameQuote(s, k, k + 2, |s|).None?;
      }
    }
    assert LastCandidate(s, i, i + 14, |s| - 1) == Some(open);
  }

  /** The characters of the line after the prose: one line, and only the two
      quotes around the specifier. */
  lemma ProseLineCharacters(prose: string, clause: string, quote: char, specifier: string, s: string, i: nat)
    requires PlainText(clause) && PlainText(specifier) && IsQuote(quote)
    requires s == prose + ImportLine(clause, quote, specifier) && i == |prose|
    ensures forall k :: i <= k < |s| ==> !IsLineTerminator(s[k])
    ensures forall k :: i <= k < |s| && IsQuote(s[k]) ==> k == i + 13 + |clause| || k == |s| - 1
  {
    var line := ImportLine(clause, quote, specifier);
    LineOfPlainText(clause, quote, specifier);
    forall k | i <= k < |s| ensures s[k] == line[k - i] {
    }
  }

  /** The tokens of the line after the prose: `import`, ` from ` and a bare
      specifier between equal quotes. */
  lemma ProseLineTokens(prose: string, clause: string, quote: char, specifier: string, s: string, i: nat, open: nat)
    requires |clause| > 0 && |specifier| > 0 && PlainText(clause) && PlainText(specifier) && IsQuote(quote)
    requires !StartsWith(specifier, "./") && !StartsWithIgnoreCase(specifier, "http")
    requires s == prose + ImportLine(clause, quote, specifier) && i == |prose| && open == i + 13 + |clause|
    ensures open < |s| && ImportAt(s, i) && FromQuoteAt(s, open) && BareAfter(s, open) && s[|s| - 1] == s[open]
  {
    var line := ImportLine(clause, quote, specifier);
    BareImportLineMatch(clause, quote, specifier, line, 13 + |clause|, |line| - 1);
    assert s[i..] == line;
    ShiftedTokens(s, line, i, 13 + |clause|);
  }

  lemma ShiftedTokens(s: string, line: string, i: nat, open: nat)
    requires i <= |s| && s[i..] == line && open < |line|
    requires ImportAt(line, 0) && FromQuoteAt(line, open) && BareAfter(line, open) && line[|line| - 1] == line[open]
    ensures ImportAt(s, i) && FromQuoteAt(s, i + open) && BareAfter(s, i + open) && s[|s| - 1] == s[i + open]
  {
    assert s[i..i + 6] == line[..6] && s[i + 6] == line[6];
    assert s[i + open - 6] == line[open - 6] && s[i + open - 1] == line[open - 1] && s[i + open] == line[open];
    assert s[i + open - 5..i + open - 1] == line[open - 5..open - 1];
    assert s[i + open + 1..] == line[open + 1..];
    assert s[|s| - 1] == line[|line| - 1];
  }

  /** An import line after prose lines has its bare specifier pointed at
      esm.sh, and the prose is kept as it is. */
  lemma ImportAfterProse(prose: string, clause: string, quote: char, specifier: string)
    requires ProseLines(prose)
    requires |clause| > 0 && |specifier| > 0 && PlainText(clause) && PlainText(specifier) && IsQuote(quote)
    requires !StartsWith(specifier, "./") && !StartsWithIgnoreCase(specifier, "http")
    ensures RewriteBareSpecifiers(prose + ImportLine(clause, quote, specifier)) ==
      prose + ImportLine(clause, quote, EsmBase + specifier)
  {
    var line := ImportLine(clause, quote, specifier);
    var s, i := prose + line, |prose|;
    var open, close := i + 13 + |clause|, |s| - 1;
    MatchAfterProse(prose, clause, quote, specifier, s, i, open);
    RewriteMatchAtEnd(s, i, open, close);
    SkipProse(prose, line, 0);
    ProseLineParts(prose, clause, quote, specifier, s, open);
  }

  /** The pass-1 match at the start of the line after the prose covers the
      whole line. */
  lemma MatchAfterProse(prose: string, clause: string, quote: char, specifier: string, s: string, i: nat, open: nat)
    requires |clause| > 0 && |specifier| > 0 && PlainText(clause) && PlainText(specifier) && IsQuote(quote)
    requires !StartsWith(specifier, "./") && !StartsWithIgnoreCase(specifier, "http")
    requires s == prose + ImportLine(clause, quote, specifier) && i == |prose| && open == i + 13 + |clause|
    ensures i < open < |s| - 1 && ImportMatchAt(s, i) == Some(ImportMatch(i, open, |s| - 1))
  {
    ProseLineCharacters(prose, clause, quote, specifier, s, i);
    ProseLineTokens(prose, clause, quote, specifier, s, i, open);
    SingleLineMatchAt(s, i, open, |s| - 1);
  }

  /** Inserting after the opening quote of the line after the prose. */
  lemma ProseLineParts(prose: string, clause: string, quote: char, specifier: string, s: string, open: nat)
    requires s == prose + ImportLine(clause, quote, specifier) && open == |prose| + 13 + |clause|
    ensures open < |s| && prose[0..] + (s[|prose|..open + 1] + EsmBase + s[open + 1..]) == prose + ImportLine(clause, quote, EsmBase + specifier)
  {
    assert prose[0..] == prose;
    assert s[|prose|..open + 1] == "import " + clause + " from " + [quote];
    assert s[open + 1..] == specifier + [quote];
    InsertAfterQuote(clause, quote, specifier, EsmBase);
  }

  // ---------------------------------------------------------------------------
  // Pass 2 after pass 1
  // ---------------------------------------------------------------------------

  /** No `.` directly followed by `/`. */
  predicate NoDotSlash(t: string) {
    forall k :: 0 <= k < |t| - 1 ==> !(t[k] == '.' && t[k + 1] == '/')
  }

  lemma EsmUrlHasNoDotSlash(specifier: string)
    requires NoDotSlash(specifier)
    ensures NoDotSlash(EsmBase + specifier)
  {
    var url := EsmBase + specifier;
    forall k | 0 <= k < |url| - 1 ensures !(url[k] == '.' && url[k + 1] == '/') {
      if k >= |EsmBase| {
        assert url[k] == specifier[k - |EsmBase|] && url[k + 1] == specifier[k + 1 - |EsmBase|];
      } else if k + 1 == |EsmBase| {
        assert url[k] == '/';
      }
    }
  }

  /** An import line whose clause and specifier hold no `./` holds none. */
  lemma ImportLineHasNoDotSlash(clause: string, quote: char, specifier: string)
    requires NoDotSlash(clause) && NoDotSlash(specifier) && IsQuote(quote)
    ensures !Contains(ImportLine(clause, quote, specifier), "./")
  {
    var s := ImportLine(clause, quote, specifier);
    var a := 7 + |clause|;
    forall k | 0 <= k < |s| - 1 ensures !(s[k] == '.' && s[k + 1] == '/') {
      if 7 <= k < a {
        assert s[k] == clause[k - 7];
        if k + 1 < a {
          assert s[k + 1] == clause[k + 1 - 7];
        } else {
          assert s[k + 1] == ' ';
        }
      } else if a + 7 <= k < |s| - 1 {
        assert s[k] == specifier[k - a - 7];
        if k + 1 < |s| - 1 {
          assert s[k + 1] == specifier[k + 1 - a - 7];
        } else {
          assert s[k + 1] == quote;
        }
      } else if k == a + 6 {
        assert s[k] == quote;
      } else if k < 7 {
        assert s[k] == "import "[k];
      } else {
        assert s[k] == " from "[k - a];
      }
    }
    forall j | 0 <= j ensures !OccursAt(s, "./", j) {
      if j + 2 <= |s| {
        assert s[j..j + 2][0] == s[j] && s[j..j + 2][1] == s[j + 1];
      }
    }
  }

  /** `processImports` on an import line with a bare specifier and no relative
      path: pass 1 points the specifier at esm.sh and pass 2 changes nothing. */
  lemma ProcessBareImportLine(clause: string, quote: char, specifier: string)
    requires |clause| > 0 && |specifier| > 0 && PlainText(clause) && PlainText(specifier) && IsQuote(quote)
    requires !StartsWith(specifier, "./") && !StartsWithIgnoreCase(specifier, "http")
    requires NoDotSlash(clause) && NoDotSlash(specifier)
    ensures ProcessImports(ImportLine(clause, quote, specifier)) == ImportLine(clause, quote, EsmBase + specifier)
  {
    RewriteBareImportLine(clause, quote, specifier);
    EsmUrlHasNoDotSlash(specifier);
    ImportLineHasNoDotSlash(clause, quote, EsmBase + specifier);
    TagComponentsWithoutRelativePath(ImportLine(clause, quote, EsmBase + specifier));
  }
}
