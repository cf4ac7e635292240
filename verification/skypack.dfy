/** Module-specifier rewriting for scripts that run as ES modules
    (`skypack.ts`): bare specifiers are pointed at esm.sh, and relative imports
    of component files are tagged with their type so the proxy file system can
    compile them. */
module Skypack {
  import opened Wrappers
  import opened Strings
  import opened Patterns

  const SkypackBase: string := "https://cdn.skypack.dev/"

  const EsmBase: string := "https://esm.sh/"

  /** `getModuleUrl` */
  function ModuleUrl(moduleName: string): (r: string)
    ensures StartsWith(r, SkypackBase) && r[|SkypackBase|..] == moduleName
  {
    SkypackBase + moduleName
  }

  /** Different modules get different URLs. */
  lemma ModuleUrlInjective(a: string, b: string)
    requires ModuleUrl(a) == ModuleUrl(b)
    ensures a == b
  {
    assert ModuleUrl(a)[|SkypackBase|..] == a;
  }

  // ---------------------------------------------------------------------------
  // Pass 1: /(import\s.+\sfrom\s)(["'])(?!\.\/|http)(.+)\2/gi  ->  $1$2https://esm.sh/$3$2
  // ---------------------------------------------------------------------------

  /** `\s` restricted to one line (see `ImportMatchAt`). */
  predicate IsInlineSpace(c: char) {
    IsWhitespace(c) && !IsLineTerminator(c)
  }

  predicate IsQuote(c: char) {
    c == '"' || c == '\''
  }

  /** `import\s` at index `i`, ignoring case. */
  predicate ImportAt(s: string, i: int) {
    0 <= i && i + 7 <= |s| && ToLower(s[i..i + 6]) == "import" && IsInlineSpace(s[i + 6])
  }

  /** `\sfrom\s` ending just before index `k`, ignoring case, with a quote at `k`. */
  predicate FromQuoteAt(s: string, k: int) {
    6 <= k < |s| && IsInlineSpace(s[k - 6]) && ToLower(s[k - 5..k - 1]) == "from"
    && IsInlineSpace(s[k - 1]) && IsQuote(s[k])
  }

  /** The lookahead `(?!\.\/|http)` after the opening quote at `k`. */
  predicate BareAfter(s: string, k: int)
    requires 0 <= k < |s|
  {
    !StartsWith(s[k + 1..], "./") && !StartsWithIgnoreCase(s[k + 1..], "http")
  }

  /** The largest index in `[lo, hi)` holding the same quote as index `k`:
      the greedy `(.+)\2` after the opening quote. */
  function LastSameQuote(s: string, k: nat, lo: nat, hi: nat): (r: Option<nat>)
    requires k < |s| && hi <= |s|
    ensures r.Some? ==> lo <= r.value < hi && s[r.value] == s[k]
    ensures r.Some? ==> forall m :: r.value < m < hi ==> s[m] != s[k]
    ensures r.None? ==> forall m :: lo <= m < hi ==> s[m] != s[k]
    decreases hi
  {
    if hi <= lo then None
    else if s[hi - 1] == s[k] then Some(hi - 1)
    else LastSameQuote(s, k, lo, hi - 1)
  }

  /** The end of the line that holds index `i`. */
  function LineEnd(s: string, i: nat): nat
    requires i <= |s|
  {
    RunEnd(s, i, AnyButLineTerminator)
  }

  /** Index `k` can hold the opening quote of a match that starts at `i`: the
      `.+` before `\sfrom\s` is non-empty, the specifier is bare, and a closing
      quote follows on the same line after a non-empty specifier. */
  predicate Candidate(s: string, i: nat, k: int)
    requires i <= |s|
  {
    i + 14 <= k < LineEnd(s, i) && FromQuoteAt(s, k) && BareAfter(s, k)
    && LastSameQuote(s, k, k + 2, LineEnd(s, i)).Some?
  }

  /** The largest candidate in `[lo, hi]`: the greedy `.+` before `\sfrom\s`. */
  function LastCandidate(s: string, i: nat, lo: nat, hi: nat): (r: Option<nat>)
    requires i <= |s|
    ensures r.Some? ==> lo <= r.value <= hi && Candidate(s, i, r.value)
    ensures forall k :: lo <= k <= hi && (r.None? || r.value < k) ==> !Candidate(s, i, k)
    decreases hi
  {
    if hi < lo then None
    else if Candidate(s, i, hi) then Some(hi)
    else if hi == lo then None
    else LastCandidate(s, i, lo, hi - 1)
  }

  /** A pass-1 match: `import` at `start`, the opening quote at `open`, the
      closing quote at `close`. */
  datatype ImportMatch = ImportMatch(start: nat, open: nat, close: nat)

  /** The pass-1 regular expression tried at index `i`. Both `.+` runs are
      greedy: the last possible opening quote wins, then the last matching
      closing quote of the line. `\s` is taken not to match a line
      terminator, so a match never spans lines. */
  function ImportMatchAt(s: string, i: nat): (r: Option<ImportMatch>)
    requires i <= |s|
    ensures r.Some? ==> r.value.start == i && ImportAt(s, i) && Candidate(s, i, r.value.open)
    ensures r.Some? ==> Some(r.value.close) == LastSameQuote(s, r.value.open, r.value.open + 2, LineEnd(s, i))
    ensures r.Some? ==> forall k :: r.value.open < k < LineEnd(s, i) ==> !Candidate(s, i, k)
    ensures r.None? ==> !ImportAt(s, i) || forall k :: i + 14 <= k < LineEnd(s, i) ==> !Candidate(s, i, k)
  {
    if !ImportAt(s, i) || LineEnd(s, i) == 0 then None
    else
      var end := LineEnd(s, i);
      match LastCandidate(s, i, i + 14, end - 1)
      case None => None
      case Some(k) => Some(ImportMatch(i, k, LastSameQuote(s, k, k + 2, end).value))
  }

  /** The leftmost pass-1 match at or after `from`. */
  function FirstImport(s: string, from: nat): (r: Option<ImportMatch>)
    requires from <= |s|
    ensures r.Some? ==> from <= r.value.start <= |s| && ImportMatchAt(s, r.value.start) == r
    ensures forall i :: from <= i <= |s| && (r.None? || i < r.value.start) ==> ImportMatchAt(s, i).None?
    decreases |s| - from
  {
    var here := ImportMatchAt(s, from);
    if here.Some? then here
    else if from == |s| then None
    else FirstImport(s, from + 1)
  }

  /** The global replacement of pass 1 from index `from` on: every match gets
      `https://esm.sh/` inserted after its opening quote, and the search goes
      on after the match; an index where no match starts is copied. */
  function RewriteBareFrom(s: string, from: nat): string
    requires from <= |s|
    decreases |s| - from
  {
    if from == |s| then []
    else match ImportMatchAt(s, from)
      case Some(m) => Replacement(s, from, m) + RewriteBareFrom(s, m.close + 1)
      case None => [s[from]] + RewriteBareFrom(s, from + 1)
  }

  /** The text from `from` to the end of match `m`, with `https://esm.sh/`
      inserted after the opening quote. */
  function Replacement(s: string, from: nat, m: ImportMatch): string
    requires from <= m.open < m.close < |s|
  {
    s[from..m.open + 1] + EsmBase + s[m.open + 1..m.close + 1]
  }

  function RewriteBareSpecifiers(s: string): string {
    RewriteBareFrom(s, 0)
  }

  // ---------------------------------------------------------------------------
  // Pass 2: /\.\/(\S+)\.(svelte|vue|jsx|tsx|json|css)/g  ->  ./$1.js?type=$2
  // ---------------------------------------------------------------------------

  /** The component extensions pass 2 recognises, as the alternatives after the dot. */
  const ComponentSuffixes: seq<string> := [".svelte", ".vue", ".jsx", ".tsx", ".json", ".css"]

  /** The pass-2 match at or after `from`. */
  function ComponentMatch(s: string, from: nat): Option<Match>
    requires from <= |s|
  {
    FirstMatch(s, from, "./", NonWhitespace, 1, ComponentSuffixes)
  }

  /** The global replacement of pass 2 from index `from` on. */
  function TagComponentsFrom(s: string, from: nat): (r: string)
    requires from <= |s|
    ensures ComponentMatch(s, from).None? ==> r == s[from..]
    decreases |s| - from
  {
    match ComponentMatch(s, from)
    case None => s[from..]
    case Some(m) =>
      var suffix := ComponentSuffixes[ChoiceAt(s, m.split, ComponentSuffixes).value];
      s[from..m.start] + "./" + s[m.start + 2..m.split] + ".js?type=" + suffix[1..] + TagComponentsFrom(s, m.end)
  }

  function TagComponentImports(s: string): string {
    TagComponentsFrom(s, 0)
  }

  /** `processImports`: pass 1, then pass 2. */
  function ProcessImports(code: string): string {
    TagComponentImports(RewriteBareSpecifiers(code))
  }

  // ---------------------------------------------------------------------------
  // Properties
  // ---------------------------------------------------------------------------

  /** A one-line import statement: `import <clause> from <q><specifier><q>`. */
  function ImportLine(clause: string, quote: char, specifier: string): string {
    "import " + clause + " from " + [quote] + specifier + [quote]
  }

  /** The text may sit in an import clause or specifier: it stays on one line
      and holds no quote. */
  predicate PlainText(t: string) {
    forall c :: c in t ==> !IsLineTerminator(c) && !IsQuote(c)
  }

  /** Pass 2 tags a relative component path with its type:
      `./name.ext` becomes `./name.js?type=ext`. */
  lemma {:induction false} TagComponentPath(name: string, n: nat)
    requires |name| > 0 && n < |ComponentSuffixes| && forall c :: c in name ==> !IsWhitespace(c)
    ensures TagComponentImports("./" + name + ComponentSuffixes[n]) == "./" + name + ".js?type=" + ComponentSuffixes[n][1..]
  {
    var s := "./" + name + ComponentSuffixes[n];
    var j := 2 + |name|;
    ComponentPathMatch(s, name, n, j);
    assert ComponentMatch(s, |s|) == None;
    MiddlePart(s, "./", name, ComponentSuffixes[n], j);
  }

  /** The match pass 2 finds in such a path: the whole of it. */
  lemma ComponentPathMatch(s: string, name: string, n: nat, j: nat)
    requires |name| > 0 && n < |ComponentSuffixes| && forall c :: c in name ==> !IsWhitespace(c)
    requires s == "./" + name + ComponentSuffixes[n] && j == 2 + |name|
    ensures ComponentMatch(s, 0) == Some(Match(0, j, |s|)) && ChoiceAt(s, j, ComponentSuffixes) == Some(n)
  {
    ConcatenationParts(s, "./", name, ComponentSuffixes[n], NonWhitespace, j);
    assert s[j..] == ComponentSuffixes[n];
    ChoiceAtSuffix(s, j, n);
    forall k | j < k <= |s| ensures ChoiceAt(s, k, ComponentSuffixes).None? {
      NoChoiceInsideSuffix(s, j, n, k);
    }
    MatchSpanToLastChoice(s, "./", NonWhitespace, 1, ComponentSuffixes, j, n);
  }

  lemma NoChoiceInsideSuffix(s: string, j: nat, n: nat, k: nat)
    requires n < |ComponentSuffixes| && j <= |s| && s[j..] == ComponentSuffixes[n] && j < k <= |s|
    ensures ChoiceAt(s, k, ComponentSuffixes).None?
  {
    if k < |s| {
      assert s[k] == ComponentSuffixes[n][k - j];
      assert s[k] != '.';
    }
  }

  lemma ChoiceAtSuffix(s: string, j: nat, n: nat)
    requires n < |ComponentSuffixes| && j <= |s| && s[j..] == ComponentSuffixes[n]
    ensures ChoiceAt(s, j, ComponentSuffixes) == Some(n)
  {
    var suffix := ComponentSuffixes[n];
    assert OccursAt(s, suffix, j);
    forall n' | 0 <= n' < n ensures !OccursAt(s, ComponentSuffixes[n'], j) {
      if OccursAt(s, ComponentSuffixes[n'], j) {
        assert s[j..j + |ComponentSuffixes[n']|] == ComponentSuffixes[n'];
        assert ComponentSuffixes[n'] == suffix[..|ComponentSuffixes[n']|];
        SuffixesPrefixFree(n', n);
      }
    }
  }

  /** No component suffix is a prefix of another, so at most one matches at an index. */
  lemma SuffixesPrefixFree(a: nat, b: nat)
    requires a < |ComponentSuffixes| && b < |ComponentSuffixes| && a != b
    ensures !(|ComponentSuffixes[a]| <= |ComponentSuffixes[b]| && ComponentSuffixes[b][..|ComponentSuffixes[a]|] == ComponentSuffixes[a])
  {
    var x, y := ComponentSuffixes[a], ComponentSuffixes[b];
    assert |x| >= 4 && |y| >= 4;
    assert ComponentSuffixes[0][1] == 's' && ComponentSuffixes[0][3] == 'e';
    assert ComponentSuffixes[1][1] == 'v' && ComponentSuffixes[1][3] == 'e';
    assert ComponentSuffixes[2][1] == 'j' && ComponentSuffixes[2][3] == 'x';
    assert ComponentSuffixes[3][1] == 't' && ComponentSuffixes[3][3] == 'x';
    assert ComponentSuffixes[4][1] == 'j' && ComponentSuffixes[4][3] == 'o';
    assert ComponentSuffixes[5][1] == 'c' && ComponentSuffixes[5][3] == 's';
    assert x[1] != y[1] || x[3] != y[3];
  }

  /** Text without `./` is left alone by pass 2. */
  lemma TagComponentsWithoutRelativePath(s: string)
    requires !Contains(s, "./")
    ensures TagComponentImports(s) == s
  {
    assert ComponentMatch(s, 0).None?;
  }
}
