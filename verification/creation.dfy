/** Creating a swing from a template (`newSwing`, `newSwingFromTemplate`):
    the quick-pick list of templates and the manifest a new swing receives. */
module Creation {
  import opened Wrappers
  import opened Strings
  import opened Manifests
  import opened SwingStore
  import opened Galleries
  import Preview

  /** `newSwingFromTemplate`'s manifest step. A template without
      `codeswing.json` gets one holding the default manifest; a non-empty
      manifest that parses is written back without its `template` key; an
      empty or unparsable one is left as it is. */
  function WithManifest(files: seq<SwingFile>, parse: Parser, serialize: Serializer): (r: seq<SwingFile>)
    ensures FirstNamed(files, Preview.SwingFile) == |files| ==>
              r == files + [SwingFile(Preview.SwingFile, Some(serialize(Default)))]
    ensures FirstNamed(files, Preview.SwingFile) < |files| ==>
              |r| == |files| && forall j :: 0 <= j < |files| && j != FirstNamed(files, Preview.SwingFile) ==> r[j] == files[j]
    ensures (var i := FirstNamed(files, Preview.SwingFile);
             i < |files| && files[i].content.Some? && files[i].content.value != "" && parse(files[i].content.value).Some? ==>
               r[i] == SwingFile(Preview.SwingFile, Some(serialize(WithoutTemplate(parse(files[i].content.value).value)))))
    ensures (var i := FirstNamed(files, Preview.SwingFile);
             i < |files| && (files[i].content.None? || files[i].content.value == "" || parse(files[i].content.value).None?) ==>
               r == files)
  {
    var i := FirstNamed(files, Preview.SwingFile);
    if i == |files| then files + [SwingFile(Preview.SwingFile, Some(serialize(Default)))]
    else if files[i].content.Some? && files[i].content.value != "" then
      match parse(files[i].content.value)
      case Some(m) => files[i := files[i].(content := Some(serialize(WithoutTemplate(m))))]
      case None => files
    else files
  }

  /** Every new swing has a manifest, and, where the serializer and parser
      agree, that manifest parses to one without the `template` flag when it
      was written by this step. */
  lemma ManifestPresent(files: seq<SwingFile>, parse: Parser, serialize: Serializer)
    ensures Preview.SwingFile in Names(WithManifest(files, parse, serialize))
  {
    var r := WithManifest(files, parse, serialize);
    var i := FirstNamed(files, Preview.SwingFile);
    if i == |files| {
      assert Names(r)[|files|] == Preview.SwingFile;
    } else {
      assert Names(r)[i] == Preview.SwingFile;
    }
  }

  lemma TemplateFlagDropped(files: seq<SwingFile>, parse: Parser, serialize: Serializer)
    requires forall m :: parse(serialize(m)) == Some(m)
    requires var i := FirstNamed(files, Preview.SwingFile);
             i == |files| || (files[i].content.Some? && files[i].content.value != "" && parse(files[i].content.value).Some?)
    ensures var r := WithManifest(files, parse, serialize);
            var i := FirstNamed(r, Preview.SwingFile);
            i < |r| && r[i].content.Some? && parse(r[i].content.value).Some? && parse(r[i].content.value).value.template.None?
  {
    var r := WithManifest(files, parse, serialize);
    var i := FirstNamed(files, Preview.SwingFile);
    FirstNamedAfterManifest(files, parse, serialize);
  }

  lemma FirstNamedAfterManifest(files: seq<SwingFile>, parse: Parser, serialize: Serializer)
    ensures FirstNamed(WithManifest(files, parse, serialize), Preview.SwingFile) == FirstNamed(files, Preview.SwingFile)
  {
    var r := WithManifest(files, parse, serialize);
    var i := FirstNamed(files, Preview.SwingFile);
    assert r[i].filename == Preview.SwingFile;
    assert forall j :: 0 <= j < i ==> r[j] == files[j];
  }

  /** The files handed to a function target (or written to a folder): each
      name with its content, `""` where the content is missing or empty. */
  function TargetContents(files: seq<SwingFile>): (r: seq<(string, string)>)
    ensures |r| == |files|
    ensures forall j :: 0 <= j < |files| ==> r[j].0 == files[j].filename
    ensures forall j :: 0 <= j < |files| ==> (files[j].content.Some? ==> r[j].1 == files[j].content.value)
    ensures forall j :: 0 <= j < |files| ==> (files[j].content.None? ==> r[j].1 == "")
  {
    seq(|files|, j requires 0 <= j < |files| =>
      (files[j].filename, if files[j].content.Some? && files[j].content.value != "" then files[j].content.value else ""))
  }

  /** `localeCompare(a, b) <= 0`, taken as the order of the upper-cased texts. */
  predicate TitleLe(a: string, b: string) {
    LexLe(ToUpper(a), ToUpper(b))
  }

  predicate LexLe(a: string, b: string) {
    |a| == 0 || (|b| > 0 && (a[0] < b[0] || (a[0] == b[0] && LexLe(a[1..], b[1..]))))
  }

  lemma {:induction false} LexLeTotal(a: string, b: string)
    ensures LexLe(a, b) || LexLe(b, a)
    decreases |a|
  {
    if |a| > 0 && |b| > 0 && a[0] == b[0] {
      LexLeTotal(a[1..], b[1..]);
    }
  }

  predicate SortedByTitle(s: seq<Template>) {
    forall i :: 0 < i < |s| ==> TitleLe(s[i - 1].title, s[i].title)
  }

  /** Inserting before the first template whose title is not smaller keeps
      equal titles in their original order. */
  function Insert(t: Template, s: seq<Template>): (r: seq<Template>)
    requires SortedByTitle(s)
    ensures SortedByTitle(r)
    ensures multiset(r) == multiset(s) + multiset{t}
    ensures |r| == |s| + 1 && (r[0] == t || (|s| > 0 && r[0] == s[0]))
  {
    if |s| == 0 || TitleLe(t.title, s[0].title) then [t] + s
    else
      LexLeTotal(ToUpper(t.title), ToUpper(s[0].title));
      var rest := Insert(t, s[1..]);
      assert s == [s[0]] + s[1..];
      [s[0]] + rest
  }

  /** The stable sort by title (`Array.prototype.sort` is stable). */
  function SortByTitle(s: seq<Template>): (r: seq<Template>)
    ensures SortedByTitle(r) && multiset(r) == multiset(s)
  {
    if |s| == 0 then []
    else
      assert s == [s[0]] + s[1..];
      Insert(s[0], SortByTitle(s[1..]))
  }

  /** The templates whose upper-cased title is `key`, in order: the ones the
      comparison cannot tell apart. */
  function WithKey(s: seq<Template>, key: string): (r: seq<Template>)
    ensures forall t :: t in r <==> t in s && ToUpper(t.title) == key
  {
    if |s| == 0 then []
    else
      assert forall t :: t in s <==> t == s[0] || t in s[1..];
      (if ToUpper(s[0].title) == key then [s[0]] else []) + WithKey(s[1..], key)
  }

  lemma {:induction false} LexLeReflexive(a: string)
    ensures LexLe(a, a)
    decreases |a|
  {
    if |a| > 0 {
      LexLeReflexive(a[1..]);
    }
  }

  /** Inserting `t` puts it after nothing that shares its key: among the
      templates of one key, `t` comes first and the rest keep their order. */
  lemma {:induction false} InsertWithKey(t: Template, s: seq<Template>, key: string)
    requires SortedByTitle(s)
    ensures WithKey(Insert(t, s), key) == (if ToUpper(t.title) == key then [t] else []) + WithKey(s, key)
    decreases |s|
  {
    if |s| == 0 || TitleLe(t.title, s[0].title) {
      WithKeyCons(t, s, key);
    } else {
      InsertWithKey(t, s[1..], key);
      InsertLaterWithKey(t, s, key);
    }
  }

  /** The step of `InsertWithKey` when `t` goes past the first template. */
  lemma {:induction false} InsertLaterWithKey(t: Template, s: seq<Template>, key: string)
    requires SortedByTitle(s) && |s| > 0 && !TitleLe(t.title, s[0].title)
    requires WithKey(Insert(t, s[1..]), key) == (if ToUpper(t.title) == key then [t] else []) + WithKey(s[1..], key)
    ensures WithKey(Insert(t, s), key) == (if ToUpper(t.title) == key then [t] else []) + WithKey(s, key)
  {
    var rest := Insert(t, s[1..]);
    assert Insert(t, s) == [s[0]] + rest by {
      LexLeTotal(ToUpper(t.title), ToUpper(s[0].title));
    }
    assert ToUpper(t.title) == key ==> ToUpper(s[0].title) != key by {
      LexLeReflexive(ToUpper(t.title));
    }
    KeyStep(s[0], rest, s[1..], if ToUpper(t.title) == key then [t] else [], key);
    assert [s[0]] + s[1..] == s;
  }

  /** Putting `x` in front of two lists whose keyed parts differ by a prefix
      `front` keeps that difference when `x` does not share the key of `front`. */
  lemma {:induction false} KeyStep(x: Template, a: seq<Template>, b: seq<Template>, front: seq<Template>, key: string)
    requires WithKey(a, key) == front + WithKey(b, key)
    requires front != [] ==> ToUpper(x.title) != key
    ensures WithKey([x] + a, key) == front + WithKey([x] + b, key)
  {
    WithKeyCons(x, a, key);
    WithKeyCons(x, b, key);
    if ToUpper(x.title) == key {
      assert front == [];
    }
  }

  lemma {:induction false} WithKeyCons(x: Template, s: seq<Template>, key: string)
    ensures WithKey([x] + s, key) == (if ToUpper(x.title) == key then [x] else []) + WithKey(s, key)
  {
    assert ([x] + s)[1..] == s;
  }

  /** The sort is stable: the templates of each key keep their original order. */
  lemma {:induction false} SortIsStable(s: seq<Template>, key: string)
    ensures WithKey(SortByTitle(s), key) == WithKey(s, key)
    decreases |s|
  {
    if |s| > 0 {
      SortIsStable(s[1..], key);
      InsertWithKey(s[0], SortByTitle(s[1..]), key);
    }
  }

  /** The templates of the enabled galleries, gallery by gallery. */
  function EnabledTemplates(galleries: seq<Gallery>): (r: seq<Template>)
    ensures forall t :: t in r <==> exists g :: g in galleries && g.enabled && t in g.templates
  {
    if |galleries| == 0 then []
    else
      var rest := EnabledTemplates(galleries[1..]);
      assert forall g :: g in galleries <==> g == galleries[0] || g in galleries[1..];
      (if galleries[0].enabled then galleries[0].templates else []) + rest
  }

  const NoTemplatesLabel: string := "No templates available. Configure your template galleries and try again."

  /** The placeholder item shown when no gallery offers a template. */
  const Placeholder: Template := Template("", NoTemplatesLabel, None)

  /** The quick-pick items of `newSwing`: the enabled galleries' templates
      sorted by title, each labelled with its title; the placeholder alone
      when there are none. */
  function TemplateItems(galleries: seq<Gallery>): (r: seq<Template>)
    ensures |EnabledTemplates(galleries)| == 0 <==> r == [Placeholder]
    ensures |EnabledTemplates(galleries)| > 0 ==> SortedByTitle(r) && |r| == |EnabledTemplates(galleries)|
    ensures |EnabledTemplates(galleries)| > 0 ==> forall t :: t in r ==> t.labelText == t.title
    ensures |EnabledTemplates(galleries)| > 0 ==>
              multiset(r) == multiset(Relabel(EnabledTemplates(galleries)))
  {
    var all := EnabledTemplates(galleries);
    if |all| == 0 then [Placeholder]
    else
      var sorted := SortByTitle(all);
      assert |sorted| == |all| by { assert |multiset(sorted)| == |multiset(all)|; }
      var r := Relabel(sorted);
      RelabelSorted(sorted);
      RelabelSort(all);
      assert r != [Placeholder] by { assert |r| != 1 || r[0].labelText == r[0].title; }
      r
  }

  /** `{ ...t, label: t.title }` for every template. */
  function Relabel(s: seq<Template>): (r: seq<Template>)
    ensures |r| == |s| && forall i :: 0 <= i < |s| ==> r[i] == s[i].(labelText := s[i].title)
  {
    seq(|s|, i requires 0 <= i < |s| => s[i].(labelText := s[i].title))
  }

  lemma RelabelSorted(s: seq<Template>)
    requires SortedByTitle(s)
    ensures SortedByTitle(Relabel(s))
  {
  }

  /** Relabelling commutes with insertion: the order depends on titles only. */
  lemma {:induction false} RelabelInsert(t: Template, s: seq<Template>)
    requires SortedByTitle(s)
    ensures SortedByTitle(Relabel(s)) && Relabel(Insert(t, s)) == Insert(t.(labelText := t.title), Relabel(s))
    decreases |s|
  {
    RelabelSorted(s);
    var t' := t.(labelText := t.title);
    if |s| == 0 || TitleLe(t.title, s[0].title) {
      RelabelCons(t, s);
    } else {
      RelabelInsert(t, s[1..]);
      assert s == [s[0]] + s[1..];
      RelabelCons(s[0], s[1..]);
      RelabelCons(s[0], Insert(t, s[1..]));
    }
  }

  /** Relabelling works element by element from the front. */
  lemma RelabelCons(x: Template, s: seq<Template>)
    ensures Relabel([x] + s) == [x.(labelText := x.title)] + Relabel(s)
  {
  }

  /** Sorting and then relabelling is relabelling and then sorting. */
  lemma {:induction false} RelabelSort(s: seq<Template>)
    ensures Relabel(SortByTitle(s)) == SortByTitle(Relabel(s))
    decreases |s|
  {
    if |s| > 0 {
      RelabelSort(s[1..]);
      RelabelInsert(s[0], SortByTitle(s[1..]));
      assert Relabel(s)[1..] == Relabel(s[1..]);
    }
  }

  /** Accepting an item creates a swing only when the item carries files. */
  function Accept(item: Template, parse: Parser, serialize: Serializer): (r: Option<seq<SwingFile>>)
    ensures item.files.None? <==> r.None?
    ensures r.Some? ==> Preview.SwingFile in Names(r.value)
  {
    if item.files.None? then None
    else
      ManifestPresent(item.files.value, parse, serialize);
      Some(WithManifest(item.files.value, parse, serialize))
  }

  /** Choosing the placeholder creates nothing. */
  lemma PlaceholderCreatesNothing(parse: Parser, serialize: Serializer)
    ensures Accept(Placeholder, parse, serialize).None?
  {
  }
}
