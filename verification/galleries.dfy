/** The template galleries (`loadGalleries`): the registrations contributed
    by installed extensions, switched on and off by the `templateGalleries`
    setting, each then loaded with its templates. */
module Galleries {
  import opened Wrappers
  import opened Strings
  import opened SwingStore

  /** A contributed gallery before it is loaded. */
  datatype Registration = Registration(id: string, url: string, enabled: bool)

  /** A template as the gallery lists it; `files` is absent for entries that
      only point at a gist. */
  datatype Template = Template(title: string, labelText: string, files: Option<seq<SwingFile>>)

  /** What a gallery's URL serves. */
  datatype GalleryData = GalleryData(labelText: string, description: string, templates: seq<Template>)

  /** A loaded gallery. */
  datatype Gallery = Gallery(id: string, url: string, enabled: bool, labelText: string, description: string, templates: seq<Template>)

  const UrlPrefix: string := "https://"

  /** The first registration with this id (`registrations.find`), or the length. */
  function FirstWithId(registrations: seq<Registration>, id: string): (r: nat)
    ensures r <= |registrations| && (r < |registrations| ==> registrations[r].id == id)
    ensures forall j :: 0 <= j < r ==> registrations[j].id != id
  {
    if |registrations| == 0 then 0
    else if registrations[0].id == id then 0
    else FirstWithId(registrations[1..], id) + 1
  }

  /** One setting entry: the first registration with that id is enabled;
      failing that, an `https://` entry becomes a new enabled registration
      whose id and URL are the entry; anything else is ignored. */
  function EnableSetting(registrations: seq<Registration>, entry: string): (r: seq<Registration>)
    ensures FirstWithId(registrations, entry) < |registrations| ==>
              r == registrations[FirstWithId(registrations, entry) := registrations[FirstWithId(registrations, entry)].(enabled := true)]
    ensures FirstWithId(registrations, entry) == |registrations| && StartsWith(entry, UrlPrefix) ==>
              r == registrations + [Registration(entry, entry, true)]
    ensures FirstWithId(registrations, entry) == |registrations| && !StartsWith(entry, UrlPrefix) ==> r == registrations
  {
    var k := FirstWithId(registrations, entry);
    if k < |registrations| then registrations[k := registrations[k].(enabled := true)]
    else if StartsWith(entry, UrlPrefix) then registrations + [Registration(entry, entry, true)]
    else registrations
  }

  /** The first loop over the setting's entries, in order. */
  function EnableAll(registrations: seq<Registration>, settings: seq<string>): (r: seq<Registration>)
    ensures |registrations| <= |r|
    ensures forall j :: 0 <= j < |registrations| ==> r[j].id == registrations[j].id && r[j].url == registrations[j].url
    ensures forall j :: |registrations| <= j < |r| ==> r[j].id == r[j].url && r[j].id in settings && StartsWith(r[j].id, UrlPrefix)
    decreases |settings|
  {
    if |settings| == 0 then registrations
    else
      var next := EnableSetting(registrations, settings[0]);
      var r := EnableAll(next, settings[1..]);
      assert forall x :: x in settings[1..] ==> x in settings;
      r
  }

  /** The second loop: a registration whose id is not in the setting is disabled. */
  function DisableUnlisted(registrations: seq<Registration>, settings: seq<string>): (r: seq<Registration>)
    ensures |r| == |registrations|
    ensures forall j :: 0 <= j < |r| ==> r[j].id == registrations[j].id && r[j].url == registrations[j].url
    ensures forall j :: 0 <= j < |r| ==> r[j].enabled == (registrations[j].enabled && registrations[j].id in settings)
  {
    seq(|registrations|, j requires 0 <= j < |registrations| =>
      if registrations[j].id in settings then registrations[j] else registrations[j].(enabled := false))
  }

  /** Both loops. */
  function ApplySettings(registrations: seq<Registration>, settings: seq<string>): (r: seq<Registration>)
    ensures |registrations| <= |r|
    ensures forall j :: 0 <= j < |registrations| ==> r[j].id == registrations[j].id && r[j].url == registrations[j].url
    ensures forall j :: |registrations| <= j < |r| ==> r[j].id == r[j].url && r[j].id in settings && StartsWith(r[j].id, UrlPrefix)
    ensures forall j :: 0 <= j < |r| && r[j].id !in settings ==> !r[j].enabled
  {
    DisableUnlisted(EnableAll(registrations, settings), settings)
  }

  /** A registration the setting names is enabled, and so is the one an
      unknown `https://` entry adds. */
  lemma {:induction false} EnableAllEnables(registrations: seq<Registration>, settings: seq<string>, entry: string)
    requires entry in settings
    requires FirstWithId(registrations, entry) < |registrations| || StartsWith(entry, UrlPrefix)
    ensures var r := EnableAll(registrations, settings);
            FirstWithId(r, entry) < |r| && r[FirstWithId(r, entry)].enabled
    decreases |settings|
  {
    var next := EnableSetting(registrations, settings[0]);
    EnableSettingKeeps(registrations, settings[0], entry);
    if settings[0] == entry {
      EnableAllKeeps(next, settings[1..], entry);
    } else {
      assert entry in settings[1..];
      EnableAllEnables(next, settings[1..], entry);
    }
  }

  /** One step keeps an enabled first registration enabled, and finds an
      entry it was able to find before. */
  lemma EnableSettingKeeps(registrations: seq<Registration>, setting: string, entry: string)
    ensures var r := EnableSetting(registrations, setting);
            && (FirstWithId(registrations, entry) < |registrations| ==> FirstWithId(r, entry) == FirstWithId(registrations, entry))
            && (FirstWithId(registrations, entry) < |registrations| && registrations[FirstWithId(registrations, entry)].enabled ==>
                  r[FirstWithId(r, entry)].enabled)
            && (setting == entry && (FirstWithId(registrations, entry) < |registrations| || StartsWith(entry, UrlPrefix)) ==>
                  FirstWithId(r, entry) < |r| && r[FirstWithId(r, entry)].enabled)
  {
    var r := EnableSetting(registrations, setting);
    var k := FirstWithId(registrations, entry);
    if k < |registrations| {
      assert r[k].id == entry;
      assert forall j :: 0 <= j < k ==> r[j].id == registrations[j].id;
    } else if setting == entry && StartsWith(entry, UrlPrefix) {
      assert r[|registrations|].id == entry;
      assert forall j :: 0 <= j < |registrations| ==> r[j].id == registrations[j].id;
    }
  }

  lemma {:induction false} EnableAllKeeps(registrations: seq<Registration>, settings: seq<string>, entry: string)
    requires FirstWithId(registrations, entry) < |registrations| && registrations[FirstWithId(registrations, entry)].enabled
    ensures var r := EnableAll(registrations, settings);
            FirstWithId(r, entry) < |r| && r[FirstWithId(r, entry)].enabled
    decreases |settings|
  {
    if |settings| > 0 {
      var next := EnableSetting(registrations, settings[0]);
      EnableSettingKeeps(registrations, settings[0], entry);
      EnableAllKeeps(next, settings[1..], entry);
    }
  }

  /** After both loops, the first registration with an id the setting lists
      is enabled. */
  lemma ListedIsEnabled(registrations: seq<Registration>, settings: seq<string>, entry: string)
    requires entry in settings
    requires FirstWithId(registrations, entry) < |registrations| || StartsWith(entry, UrlPrefix)
    ensures var r := ApplySettings(registrations, settings);
            FirstWithId(r, entry) < |r| && r[FirstWithId(r, entry)].enabled
  {
    var e := EnableAll(registrations, settings);
    EnableAllEnables(registrations, settings, entry);
    FirstWithIdOfPrefix(e, ApplySettings(registrations, settings), entry);
  }

  /** Lists that agree on the ids of a prefix holding `id` find it at the same place. */
  lemma FirstWithIdOfPrefix(a: seq<Registration>, b: seq<Registration>, id: string)
    requires |a| <= |b| && forall j :: 0 <= j < |a| ==> b[j].id == a[j].id
    requires FirstWithId(a, id) < |a|
    ensures FirstWithId(b, id) == FirstWithId(a, id)
  {
    assert b[FirstWithId(a, id)].id == id;
  }

  /** A gallery loaded from what its URL serves: every template's label is
      prefixed with the gallery's label. */
  function LoadGallery(registration: Registration, data: GalleryData): (r: Gallery)
    ensures r.id == registration.id && r.url == registration.url && r.enabled == registration.enabled
    ensures |r.templates| == |data.templates|
    ensures forall i :: 0 <= i < |r.templates| ==>
              && StartsWith(r.templates[i].labelText, data.labelText + ": ")
              && r.templates[i].labelText[|data.labelText| + 2..] == data.templates[i].labelText
              && r.templates[i].(labelText := data.templates[i].labelText) == data.templates[i]
  {
    var templates := seq(|data.templates|, i requires 0 <= i < |data.templates| =>
      data.templates[i].(labelText := data.labelText + ": " + data.templates[i].labelText));
    Gallery(registration.id, registration.url, registration.enabled, data.labelText, data.description, templates)
  }

  /** `loadGalleries`, with `fetch` the HTTP GET of a gallery's URL. */
  function LoadGalleries(registrations: seq<Registration>, settings: seq<string>, fetch: string -> GalleryData): (r: seq<Gallery>)
    ensures |r| >= |registrations|
    ensures forall j :: 0 <= j < |registrations| ==> r[j].id == registrations[j].id && r[j].url == registrations[j].url
    ensures forall j :: 0 <= j < |r| && r[j].id !in settings ==> !r[j].enabled
    ensures forall entry :: entry in settings && FirstWithId(registrations, entry) < |registrations| ==>
              r[FirstWithId(registrations, entry)].enabled
    ensures forall j :: |registrations| <= j < |r| ==> r[j].id == r[j].url && r[j].id in settings && StartsWith(r[j].id, UrlPrefix)
    ensures |r| == |ApplySettings(registrations, settings)|
    ensures forall j :: 0 <= j < |r| ==> r[j] == LoadGallery(ApplySettings(registrations, settings)[j], fetch(r[j].url))
  {
    var applied := ApplySettings(registrations, settings);
    var r := LoadEach(applied, fetch);
    forall entry | entry in settings && FirstWithId(registrations, entry) < |registrations|
      ensures r[FirstWithId(registrations, entry)].enabled
    {
      ListedIsEnabled(registrations, settings, entry);
      FirstWithIdOfPrefix(registrations, applied, entry);
    }
    r
  }

  /** Every registration loaded from its own URL, in order. */
  function LoadEach(registrations: seq<Registration>, fetch: string -> GalleryData): (r: seq<Gallery>)
    ensures |r| == |registrations|
    ensures forall j :: 0 <= j < |r| ==>
              r[j].id == registrations[j].id && r[j].url == registrations[j].url && r[j].enabled == registrations[j].enabled
    ensures forall j :: 0 <= j < |r| ==> r[j] == LoadGallery(registrations[j], fetch(registrations[j].url))
  {
    var r := seq(|registrations|, j requires 0 <= j < |registrations| => LoadGallery(registrations[j], fetch(registrations[j].url)));
    assert forall j :: 0 <= j < |r| ==> r[j] == LoadGallery(registrations[j], fetch(registrations[j].url));
    r
  }
}
