/**
 * The preview tool's top-level state (App.tsx): the URL loader, the preset
 * registry (built-ins followed by custom presets), the list of visible preset
 * ids, the zoom scale and the two values kept in local storage.
 */
module App {
  import opened Wrappers
  import opened Types
  import opened Lists
  import opened Text
  import opened Constants
  import AddDeviceModal

  // ---------------------------------------------------------------------------
  // URL normalisation (handleLoad)
  // ---------------------------------------------------------------------------

  /** `/^https?:\/\//i`: the text starts with `http://` or `https://`, ignoring case. */
  predicate HasScheme(s: string)
    ensures HasScheme(s) ==> 7 <= |s| && (s[0] == 'h' || s[0] == 'H')
    ensures HasScheme(s) ==> (s[4] == ':' && s[5] == '/' && s[6] == '/')
                             || (8 <= |s| && s[5] == ':' && s[6] == '/' && s[7] == '/')
  {
    StartsWithIgnoreCase(s, "http://") || StartsWithIgnoreCase(s, "https://")
  }

  /** The text mentions a local host (`localhost` or `127.0.0.1`), case-sensitively. */
  predicate IsLocal(s: string)
    ensures IsLocal(s) ==> 9 <= |s|
    ensures !IsLocal(s) ==> !Includes(s, "localhost")
  {
    Includes(s, "localhost") || Includes(s, "127.0.0.1")
  }

  /**
   * The URL a load publishes for the input text, or None when the trimmed text
   * is empty and the load is ignored.
   */
  function Normalize(raw: string): (r: Option<string>)
    ensures r.None? <==> Trim(raw) == []
    ensures r.Some? ==> HasScheme(r.value)
    ensures r.Some? ==> |Trim(raw)| <= |r.value| && r.value[|r.value| - |Trim(raw)|..] == Trim(raw)
  {
    var t := Trim(raw);
    SchemePrefixes(t);
    if t == [] then None
    else if HasScheme(t) then Some(t)
    else if IsLocal(t) then Some("http://" + t)
    else Some("https://" + t)
  }

  /** Both prefixes a load may add carry a scheme and end with the text they were added to. */
  lemma SchemePrefixes(t: string)
    ensures HasScheme("http://" + t) && HasScheme("https://" + t)
    ensures ("http://" + t)[7..] == t && ("https://" + t)[8..] == t
  {
    assert StartsWithIgnoreCase("http://" + t, "http://") by {
      forall i | 0 <= i < 7
        ensures AsciiLower(("http://" + t)[i]) == "http://"[i]
      {
        assert ("http://" + t)[i] == "http://"[i];
      }
    }
    assert StartsWithIgnoreCase("https://" + t, "https://") by {
      forall i | 0 <= i < 8
        ensures AsciiLower(("https://" + t)[i]) == "https://"[i]
      {
        assert ("https://" + t)[i] == "https://"[i];
      }
    }
  }

  /**
   * Which prefix a successful load adds: none exactly when the trimmed text
   * already has a scheme, `http://` exactly when it has none and names a local
   * host, `https://` exactly when it has none and names no local host.
   */
  lemma NormalizePrefix(raw: string)
    requires Trim(raw) != []
    ensures Normalize(raw) == Some(Trim(raw)) <==> HasScheme(Trim(raw))
    ensures Normalize(raw) == Some("http://" + Trim(raw)) <==> !HasScheme(Trim(raw)) && IsLocal(Trim(raw))
    ensures Normalize(raw) == Some("https://" + Trim(raw)) <==> !HasScheme(Trim(raw)) && !IsLocal(Trim(raw))
  {
    var t := Trim(raw);
    assert |"http://" + t| != |t| && |"https://" + t| != |t|;
    assert ("http://" + t)[4] != ("https://" + t)[4];
  }

  /** A normalised URL is left exactly as it is by a second normalisation. */
  lemma NormalizeIdempotent(raw: string)
    requires Normalize(raw).Some?
    ensures Normalize(Normalize(raw).value) == Normalize(raw)
  {
    var t := Trim(raw);
    var u := Normalize(raw).value;
    assert u[|u| - 1] == t[|t| - 1] by {
      assert u[|u| - |t|..][|t| - 1] == t[|t| - 1];
    }
    assert u[0] == 'h' || u[0] == t[0];
    TrimFixed(u);
  }

  /** Text beginning with a letter other than `h` in either case has no scheme. */
  lemma NoSchemeByFirstChar(s: string)
    requires s != [] && AsciiLower(s[0]) != 'h'
    ensures !HasScheme(s)
  {
  }

  /** Text beginning with a lower-case scheme has a scheme. */
  lemma SchemeByPrefix(s: string)
    requires (|s| >= 7 && s[..7] == "http://") || (|s| >= 8 && s[..8] == "https://")
    ensures HasScheme(s)
  {
    if |s| >= 7 && s[..7] == "http://" {
      SchemePrefixes(s[7..]);
      assert s == "http://" + s[7..];
    } else {
      SchemePrefixes(s[8..]);
      assert s == "https://" + s[8..];
    }
  }

  /** The scheme test ignores ASCII case: texts equal up to case agree on it. */
  lemma HasSchemeIgnoresCase(s: string, u: string)
    requires |s| == |u|
    requires forall i :: 0 <= i < |s| ==> AsciiLower(s[i]) == AsciiLower(u[i])
    ensures HasScheme(s) <==> HasScheme(u)
  {
  }

  /** Normalising text that is already trimmed, as the worked examples below use it. */
  lemma NormalizeTrimmed(t: string)
    requires t != [] && Trim(t) == t
    ensures HasScheme(t) ==> Normalize(t) == Some(t)
    ensures !HasScheme(t) && IsLocal(t) ==> Normalize(t) == Some("http://" + t)
    ensures !HasScheme(t) && !IsLocal(t) ==> Normalize(t) == Some("https://" + t)
  {
  }

  // The worked examples take the literal as a parameter fixed by `requires`, so
  // that the solver does not unfold `Normalize` on a literal argument.

  /** A bare host name is sent over `https://`. */
  lemma NormalizeBareHost(s: string)
    requires s == "example.com"
    ensures Normalize(s) == Some("https://" + s)
  {
    TrimFixed(s);
    NotIncludesByFirstChar(s, "localhost");
    NotIncludesByFirstChar(s, "127.0.0.1");
    NoSchemeByFirstChar(s);
    NormalizeTrimmed(s);
  }

  /** A local host is sent over `http://`. */
  lemma NormalizeLocalHost(s: string)
    requires s == "localhost:3000"
    ensures Normalize(s) == Some("http://" + s)
  {
    TrimFixed(s);
    IncludesAt(s, "localhost", 0);
    NoSchemeByFirstChar(s);
    NormalizeTrimmed(s);
  }

  /** A URL that already has a scheme is kept verbatim. */
  lemma NormalizeKeepsScheme(s: string)
    requires s == "https://foo.com"
    ensures Normalize(s) == Some(s)
  {
    TrimFixed(s);
    SchemeByPrefix(s);
    NormalizeTrimmed(s);
  }

  /** A scheme written in capitals is recognised and kept verbatim. */
  lemma NormalizeKeepsUpperScheme(s: string)
    requires s == "HTTP://Example.com"
    ensures Normalize(s) == Some(s)
  {
    TrimFixed(s);
    assert StartsWithIgnoreCase(s, "http://") by {
      forall i | 0 <= i < 7
        ensures AsciiLower(s[i]) == "http://"[i]
      {
        AsciiLowerPreimage(s[i], "http://"[i]);
      }
    }
    NormalizeTrimmed(s);
  }

  /** The local-host test is case-sensitive: a capitalised host name goes over `https://`. */
  lemma NormalizeUpperLocalHost(s: string)
    requires s == "LOCALHOST:3000"
    ensures !IsLocal(s)
    ensures Normalize(s) == Some("https://" + s)
  {
    TrimFixed(s);
    NotIncludesByFirstChar(s, "localhost");
    NotIncludesByFirstChar(s, "127.0.0.1");
    NoSchemeByFirstChar(s);
    NormalizeTrimmed(s);
  }

  /** Empty and all-blank input is ignored. */
  lemma NormalizeIgnoresBlank(s: string)
    requires s == "" || s == "   "
    ensures Normalize(s) == None
  {
    TrimEmptyIffBlank(s);
  }

  /** The start-up URL loads as itself. */
  lemma DefaultUrlLoadsItself(s: string)
    requires s == DEFAULT_URL
    ensures Normalize(s) == Some(s)
  {
    SchemeByPrefix(s);
    TrimFixed(s);
    NormalizeTrimmed(s);
  }

  // ---------------------------------------------------------------------------
  // Selection and registry transformations
  // ---------------------------------------------------------------------------

  /** `handleTogglePreset`'s update: drop every occurrence of a visible id, append a hidden one. */
  function Toggle(ids: seq<string>, id: string): (r: seq<string>)
    ensures id in r <==> id !in ids
    ensures forall x :: x != id ==> (x in r <==> x in ids)
    ensures id !in ids ==> r == ids + [id]
  {
    if id in ids then RemoveAll(ids, id) else ids + [id]
  }

  /** Toggling twice restores the set of visible ids (not necessarily their order). */
  lemma ToggleTwiceMembers(ids: seq<string>, id: string)
    ensures Members(Toggle(Toggle(ids, id), id)) == Members(ids)
  {
  }

  /** Toggling a hidden id twice restores the list exactly. */
  lemma ToggleTwiceHidden(ids: seq<string>, id: string)
    requires id !in ids
    ensures Toggle(Toggle(ids, id), id) == ids
  {
    RemoveAllConcat(ids, [id], id);
    RemoveAllAbsent(ids, id);
  }

  /** Toggling keeps a duplicate-free list duplicate-free. */
  lemma ToggleNoDup(ids: seq<string>, id: string)
    requires NoDup(ids)
    ensures NoDup(Toggle(ids, id))
  {
    if id in ids {
      RemoveAllNoDup(ids, id);
    }
  }

  /** `customPresets.filter(p => p.id !== id)`. */
  function RemoveById(ps: seq<Preset>, id: string): (r: seq<Preset>)
    ensures forall p :: p in r <==> p in ps && p.id != id
    ensures |r| <= |ps|
  {
    if ps == [] then []
    else (if ps[0].id == id then [] else [ps[0]]) + RemoveById(ps[1..], id)
  }

  /** Deletion works piece by piece, so the remaining presets keep their relative order. */
  lemma {:induction false} RemoveByIdConcat(a: seq<Preset>, b: seq<Preset>, id: string)
    ensures RemoveById(a + b, id) == RemoveById(a, id) + RemoveById(b, id)
  {
    if a == [] {
      assert a + b == b;
    } else {
      assert (a + b)[1..] == a[1..] + b;
      RemoveByIdConcat(a[1..], b, id);
    }
  }

  /** Deleting an id no preset carries leaves the list as it was. */
  lemma {:induction false} RemoveByIdAbsent(ps: seq<Preset>, id: string)
    requires id !in Ids(ps)
    ensures RemoveById(ps, id) == ps
  {
    if ps != [] {
      assert Ids(ps[1..]) == Ids(ps)[1..];
      RemoveByIdAbsent(ps[1..], id);
      assert ps == [ps[0]] + ps[1..];
    }
  }

  /** Deletion keeps ids unique. */
  lemma {:induction false} RemoveByIdUnique(ps: seq<Preset>, id: string)
    requires UniqueIds(ps)
    ensures UniqueIds(RemoveById(ps, id))
  {
    if ps != [] {
      RemoveByIdUnique(ps[1..], id);
      var rest := RemoveById(ps[1..], id);
      forall q | q in rest
        ensures q.id != ps[0].id
      {
        var k :| 0 <= k < |ps[1..]| && ps[1..][k] == q;
        assert ps[k + 1] == q;
      }
    }
  }

  /** `allPresets.filter(p => visiblePresetIds.includes(p.id))`: the presets rendered, in registry order. */
  function FilterVisible(ps: seq<Preset>, ids: seq<string>): (r: seq<Preset>)
    ensures forall p :: p in r <==> p in ps && p.id in ids
    ensures |r| <= |ps|
  {
    if ps == [] then []
    else (if ps[0].id in ids then [ps[0]] else []) + FilterVisible(ps[1..], ids)
  }

  /** Rendering follows registry order: built-ins first, then custom presets. */
  lemma {:induction false} FilterVisibleConcat(a: seq<Preset>, b: seq<Preset>, ids: seq<string>)
    ensures FilterVisible(a + b, ids) == FilterVisible(a, ids) + FilterVisible(b, ids)
  {
    if a == [] {
      assert a + b == b;
    } else {
      assert (a + b)[1..] == a[1..] + b;
      FilterVisibleConcat(a[1..], b, ids);
    }
  }

  /** Filtering keeps ids unique. */
  lemma {:induction false} FilterVisibleUnique(ps: seq<Preset>, ids: seq<string>)
    requires UniqueIds(ps)
    ensures UniqueIds(FilterVisible(ps, ids))
  {
    if ps != [] {
      FilterVisibleUnique(ps[1..], ids);
      var rest := FilterVisible(ps[1..], ids);
      forall q | q in rest
        ensures q.id != ps[0].id
      {
        var k :| 0 <= k < |ps[1..]| && ps[1..][k] == q;
        assert ps[k + 1] == q;
      }
    }
  }

  /**
   * With unique registry ids and a duplicate-free selection of registered ids,
   * exactly one viewport is rendered per selected id, so the sidebar's count of
   * visible devices equals the number of viewports.
   */
  lemma VisibleCount(ps: seq<Preset>, ids: seq<string>)
    requires UniqueIds(ps) && NoDup(ids)
    requires forall x :: x in ids ==> x in Ids(ps)
    ensures |FilterVisible(ps, ids)| == |ids|
  {
    FilterVisibleUnique(ps, ids);
    FilterVisibleIds(ps, ids);
    SameMembersSameLength(Ids(FilterVisible(ps, ids)), ids);
  }

  /** When every selected id is registered, the rendered presets carry exactly the selected ids. */
  lemma FilterVisibleIds(ps: seq<Preset>, ids: seq<string>)
    requires forall x :: x in ids ==> x in Ids(ps)
    ensures forall x :: x in Ids(FilterVisible(ps, ids)) <==> x in ids
  {
    var r := FilterVisible(ps, ids);
    var rids := Ids(r);
    forall x
      ensures x in rids <==> x in ids
    {
      if x in rids {
        var j :| 0 <= j < |rids| && rids[j] == x;
        assert r[j] in r;
      }
      if x in ids {
        var i :| 0 <= i < |Ids(ps)| && Ids(ps)[i] == x;
        assert ps[i] in r;
        var j :| 0 <= j < |r| && r[j] == ps[i];
        assert rids[j] == x;
      }
    }
  }

  /**
   * Under `Valid()`, the rendered presets are exactly the selected ones: one
   * viewport per visible id, no preset twice, and their ids are the visible ids.
   */
  lemma ValidVisible(a: App)
    requires a.Valid()
    ensures |a.VisiblePresets()| == |a.visiblePresetIds|
    ensures UniqueIds(a.VisiblePresets())
    ensures forall x :: x in Ids(a.VisiblePresets()) <==> x in a.visiblePresetIds
  {
    VisibleCount(a.AllPresets(), a.visiblePresetIds);
    FilterVisibleUnique(a.AllPresets(), a.visiblePresetIds);
    FilterVisibleIds(a.AllPresets(), a.visiblePresetIds);
  }

  /** Ids are unique across a concatenation exactly when unique in each part and never shared. */
  lemma UniqueConcat(a: seq<Preset>, b: seq<Preset>)
    ensures UniqueIds(a + b) <==>
      UniqueIds(a) && UniqueIds(b) && forall i, j :: 0 <= i < |a| && 0 <= j < |b| ==> a[i].id != b[j].id
  {
    if UniqueIds(a) && UniqueIds(b) && forall i, j :: 0 <= i < |a| && 0 <= j < |b| ==> a[i].id != b[j].id {
      forall i, j | 0 <= i < j < |a + b|
        ensures (a + b)[i].id != (a + b)[j].id
      {
        if j >= |a| && i < |a| {
          assert (a + b)[j] == b[j - |a|];
        }
      }
    }
    if UniqueIds(a + b) {
      forall i, j | 0 <= i < j < |a|
        ensures a[i].id != a[j].id
      {
        assert (a + b)[i] == a[i];
        assert (a + b)[j] == a[j];
      }
      forall i, j | 0 <= i < |a| && 0 <= j < |b|
        ensures a[i].id != b[j].id
      {
        assert (a + b)[i] == a[i];
        assert (a + b)[|a| + j] == b[j];
      }
      forall i, j | 0 <= i < j < |b|
        ensures b[i].id != b[j].id
      {
        assert (a + b)[|a| + i] == b[i];
        assert (a + b)[|a| + j] == b[j];
      }
    }
  }

  /** The key a viewport is rendered under: `${preset.id}-${loadVersion}`. */
  function ViewportKey(id: string, version: nat): (r: string)
    ensures |id| + 1 < |r| && r[..|id|] == id && r[|id|] == '-'
    ensures AllDigits(r[|id| + 1..]) && ParseInt(r[|id| + 1..]) == Int(version)
  {
    ParseIntToDecimal(version);
    assert (id + "-" + ToDecimal(version))[|id| + 1..] == ToDecimal(version);
    id + "-" + ToDecimal(version)
  }

  /**
   * Keys never collide: equal keys come from the same preset id and the same
   * load version. Each load therefore gives every viewport a fresh key.
   */
  lemma ViewportKeyInjective(id1: string, v1: nat, id2: string, v2: nat)
    requires ViewportKey(id1, v1) == ViewportKey(id2, v2)
    ensures id1 == id2 && v1 == v2
  {
    SplitBeforeDigits(id1, ToDecimal(v1), id2, ToDecimal(v2));
    ToDecimalInjective(v1, v2);
  }

  /** After a load, no viewport key of the new version equals any key of the previous one. */
  lemma ReloadRenewsKeys(id1: string, id2: string, v: nat)
    ensures ViewportKey(id1, v) != ViewportKey(id2, v + 1)
  {
    if ViewportKey(id1, v) == ViewportKey(id2, v + 1) {
      ViewportKeyInjective(id1, v, id2, v + 1);
    }
  }

  // ---------------------------------------------------------------------------
  // The component's state
  // ---------------------------------------------------------------------------

  /** The zoom `handleSelectAll` resets to. */
  const SELECT_ALL_SCALE: real := 0.4
  /** The zoom `handleSelectOnly` resets to. */
  const SELECT_ONLY_SCALE: real := 1.0

  class App {
    var currentUrl: string
    var inputUrl: string
    var scale: real
    var visiblePresetIds: seq<string>
    var loadVersion: nat
    var customPresets: seq<Preset>
    var isModalOpen: bool
    /** Local storage key `respview_last_url`. */
    var storedUrl: Option<string>
    /** Local storage key `respview_custom_presets`, as the list it encodes. */
    var storedPresets: Option<seq<Preset>>

    /** `allPresets`: built-ins in declaration order, then custom presets in creation order. */
    function AllPresets(): (r: seq<Preset>)
      reads this
      ensures |r| == |PRESETS| + |customPresets|
      ensures r[..|PRESETS|] == PRESETS && r[|PRESETS|..] == customPresets
    {
      PRESETS + customPresets
    }

    /** `visiblePresets`: the presets rendered as viewports. */
    function VisiblePresets(): (r: seq<Preset>)
      reads this
      ensures forall p :: p in r <==> p in AllPresets() && p.id in visiblePresetIds
      ensures |r| <= |AllPresets()|
    {
      FilterVisible(AllPresets(), visiblePresetIds)
    }

    /**
     * The state the sidebar keeps: registry ids are unique, every visible id
     * names a registered preset and appears once, and the zoom is within bounds.
     */
    predicate Valid()
      reads this
    {
      UniqueIds(AllPresets())
      && (forall x :: x in visiblePresetIds ==> x in Ids(AllPresets()))
      && NoDup(visiblePresetIds)
      && MIN_SCALE <= scale <= MAX_SCALE
    }

    /**
     * First render plus the mount effect. `savedUrl` is what storage holds for
     * the URL; `savedPresets` is the parsed custom list, None when absent or
     * unparseable. Everything starts visible.
     */
    constructor (savedUrl: Option<string>, savedPresets: Option<seq<Preset>>)
      ensures savedUrl.Some? && savedUrl.value != "" ==>
        inputUrl == savedUrl.value && currentUrl == savedUrl.value
      ensures !(savedUrl.Some? && savedUrl.value != "") ==>
        inputUrl == DEFAULT_URL && currentUrl == ""
      ensures customPresets == (if savedPresets.Some? then savedPresets.value else [])
      ensures visiblePresetIds == Ids(AllPresets())
      ensures scale == INITIAL_SCALE && loadVersion == 0 && !isModalOpen
      ensures storedUrl == savedUrl && storedPresets == savedPresets
      ensures UniqueIds(AllPresets()) ==> Valid()
    {
      if savedUrl.Some? && savedUrl.value != "" {
        inputUrl := savedUrl.value;
        currentUrl := savedUrl.value;
      } else {
        inputUrl := DEFAULT_URL;
        currentUrl := "";
      }
      var loaded := if savedPresets.Some? then savedPresets.value else [];
      customPresets := loaded;
      scale := INITIAL_SCALE;
      loadVersion := 0;
      isModalOpen := false;
      storedUrl := savedUrl;
      storedPresets := savedPresets;
      visiblePresetIds := Ids(PRESETS + loaded);
    }

    /** The URL field's `onInputChange`. */
    method SetInputUrl(s: string)
      modifies this`inputUrl
      ensures inputUrl == s
    {
      inputUrl := s;
    }

    /** The zoom slider's `onScaleChange`; the slider only offers values within the bounds. */
    method SetScale(s: real)
      modifies this`scale
      ensures scale == s
      ensures old(Valid()) && MIN_SCALE <= s <= MAX_SCALE ==> Valid()
    {
      scale := s;
    }

    /**
     * `handleLoad`: blank input changes nothing; otherwise the normalised URL is
     * published and persisted and the load version moves on by one.
     */
    method Load()
      modifies this`currentUrl, this`loadVersion, this`storedUrl
      ensures Normalize(old(inputUrl)).None? ==> unchanged(this)
      ensures Normalize(old(inputUrl)).Some? ==>
        currentUrl == Normalize(old(inputUrl)).value
        && loadVersion == old(loadVersion) + 1
        && storedUrl == Some(currentUrl)
    {
      var url := Normalize(inputUrl);
      if url.None? {
        return;
      }
      currentUrl := url.value;
      loadVersion := loadVersion + 1;
      storedUrl := Some(url.value);
    }

    /** `handleTogglePreset`. Valid is kept when the id is registered, as the sidebar ensures. */
    method TogglePreset(id: string)
      modifies this`visiblePresetIds
      ensures visiblePresetIds == Toggle(old(visiblePresetIds), id)
      ensures old(Valid()) && id in Ids(AllPresets()) ==> Valid()
    {
      if old(Valid()) {
        ToggleNoDup(visiblePresetIds, id);
      }
      visiblePresetIds := Toggle(visiblePresetIds, id);
    }

    /** `handleSelectAll`: every registered id, in registry order, at overview zoom. */
    method SelectAll()
      modifies this`visiblePresetIds, this`scale
      ensures visiblePresetIds == Ids(AllPresets())
      ensures scale == SELECT_ALL_SCALE
      ensures UniqueIds(AllPresets()) ==> Valid()
    {
      visiblePresetIds := Ids(AllPresets());
      scale := SELECT_ALL_SCALE;
    }

    /** `handleSelectOnly`: just this id, at full zoom. */
    method SelectOnly(id: string)
      modifies this`visiblePresetIds, this`scale
      ensures visiblePresetIds == [id]
      ensures scale == SELECT_ONLY_SCALE
      ensures old(Valid()) && id in Ids(AllPresets()) ==> Valid()
    {
      visiblePresetIds := [id];
      scale := SELECT_ONLY_SCALE;
    }

    /**
     * `handleAddPreset`: the preset joins the end of the custom list, which is
     * persisted, and becomes visible. Valid is kept when its id is new.
     */
    method AddPreset(p: Preset)
      modifies this`customPresets, this`storedPresets, this`visiblePresetIds
      ensures customPresets == old(customPresets) + [p]
      ensures AllPresets() == old(AllPresets()) + [p]
      ensures storedPresets == Some(customPresets)
      ensures visiblePresetIds == old(visiblePresetIds) + [p.id]
      ensures old(Valid()) && p.id !in old(Ids(AllPresets())) ==> Valid()
    {
      ghost var before := AllPresets();
      customPresets := customPresets + [p];
      storedPresets := Some(customPresets);
      visiblePresetIds := visiblePresetIds + [p.id];
      assert AllPresets() == before + [p];
      assert Ids(AllPresets()) == Ids(before) + [p.id];
      if old(Valid()) && p.id !in Ids(before) {
        UniqueConcat(before, [p]);
      }
    }

    /**
     * `handleDeletePreset`: custom presets with the id go (the rest keep their
     * order), the list is persisted, and the id is no longer visible. Built-ins
     * stay registered.
     */
    method DeletePreset(id: string)
      modifies this`customPresets, this`storedPresets, this`visiblePresetIds
      ensures customPresets == RemoveById(old(customPresets), id)
      ensures AllPresets() == PRESETS + RemoveById(old(customPresets), id)
      ensures storedPresets == Some(customPresets)
      ensures visiblePresetIds == RemoveAll(old(visiblePresetIds), id)
      ensures old(Valid()) ==> Valid()
    {
      ghost var oldCustom := customPresets;
      ghost var oldVisible := visiblePresetIds;
      customPresets := RemoveById(customPresets, id);
      storedPresets := Some(customPresets);
      visiblePresetIds := RemoveAll(visiblePresetIds, id);
      if old(Valid()) {
        DeleteKeepsUnique(PRESETS, oldCustom, id);
        DeleteKeepsVisibleRegistered(PRESETS, oldCustom, oldVisible, id);
        RemoveAllNoDup(oldVisible, id);
      }
    }

    /** The sidebar's add button: show the form. */
    method OpenAddDevice()
      modifies this`isModalOpen
      ensures isModalOpen
    {
      isModalOpen := true;
    }

    /** The form's `onClose`. */
    method CloseAddDevice()
      modifies this`isModalOpen
      ensures !isModalOpen
    {
      isModalOpen := false;
    }

    /**
     * A submit of the add-device form wired to this component: on valid fields
     * the new preset is added (and shown) and the form is closed; otherwise
     * neither the component nor the form changes.
     */
    method SubmitAddDevice(form: AddDeviceModal.Form, now: nat)
      modifies this`customPresets, this`storedPresets, this`visiblePresetIds, this`isModalOpen, form
      ensures old(form.name) == "" || old(form.width) == "" || old(form.height) == "" ==>
        unchanged(this) && unchanged(form)
      ensures old(form.name) != "" && old(form.width) != "" && old(form.height) != "" ==>
        var p := Preset(AddDeviceModal.CustomId(now), old(form.name), ParseInt(old(form.width)),
                        ParseInt(old(form.height)), old(form.kind));
        customPresets == old(customPresets) + [p]
        && storedPresets == Some(customPresets)
        && visiblePresetIds == old(visiblePresetIds) + [p.id]
        && !isModalOpen && form.IsInitial()
        && currentUrl == old(currentUrl) && loadVersion == old(loadVersion) && scale == old(scale)
        && inputUrl == old(inputUrl) && storedUrl == old(storedUrl)
        && (old(Valid()) && AddDeviceModal.CustomId(now) !in old(Ids(customPresets)) ==> Valid())
    {
      ghost var wasValid := Valid();
      ghost var idIsNew := AddDeviceModal.CustomId(now) !in Ids(customPresets);
      ghost var filled := form.name != "" && form.width != "" && form.height != "";
      ghost var expected := Preset(AddDeviceModal.CustomId(now), form.name, ParseInt(form.width),
                                   ParseInt(form.height), form.kind);
      NewIdUnregistered(customPresets, now);
      var events := form.Submit(now);
      if events != [] {
        assert filled && events[0].preset == expected;
        var p := events[0].preset;
        AddPreset(p);
        CloseAddDevice();
        assert wasValid && idIsNew ==> Valid();
      } else {
        assert !filled;
      }
    }
  }

  /** A custom id unused by the custom list is unused by the whole registry. */
  lemma NewIdUnregistered(custom: seq<Preset>, now: nat)
    ensures AddDeviceModal.CustomId(now) !in Ids(custom) ==> AddDeviceModal.CustomId(now) !in Ids(PRESETS + custom)
  {
  }

  /** Deleting a built-in id leaves the registry as it was (though the id is hidden). */
  lemma DeleteBuiltinKeepsRegistry(custom: seq<Preset>, id: string)
    requires UniqueIds(PRESETS + custom)
    requires id in Ids(PRESETS)
    ensures RemoveById(custom, id) == custom
  {
    UniqueConcat(PRESETS, custom);
    RemoveByIdAbsent(custom, id);
  }

  /** Deleting custom presets keeps registry ids unique. */
  lemma DeleteKeepsUnique(builtins: seq<Preset>, custom: seq<Preset>, id: string)
    requires UniqueIds(builtins + custom)
    ensures UniqueIds(builtins + RemoveById(custom, id))
  {
    var rest := RemoveById(custom, id);
    UniqueConcat(builtins, custom);
    RemoveByIdUnique(custom, id);
    forall i, j | 0 <= i < |builtins| && 0 <= j < |rest|
      ensures builtins[i].id != rest[j].id
    {
      var k :| 0 <= k < |custom| && custom[k] == rest[j];
    }
    UniqueConcat(builtins, rest);
  }

  /** After a deletion every id still visible names a preset still registered. */
  lemma DeleteKeepsVisibleRegistered(builtins: seq<Preset>, custom: seq<Preset>, visible: seq<string>, id: string)
    requires forall x :: x in visible ==> x in Ids(builtins + custom)
    ensures forall x :: x in RemoveAll(visible, id) ==> x in Ids(builtins + RemoveById(custom, id))
  {
    var rest := RemoveById(custom, id);
    forall x | x in RemoveAll(visible, id)
      ensures x in Ids(builtins + rest)
    {
      var all := builtins + custom;
      var i :| 0 <= i < |all| && Ids(all)[i] == x;
      if i < |builtins| {
        assert (builtins + rest)[i] == builtins[i];
        assert Ids(builtins + rest)[i] == x;
      } else {
        var p := all[i];
        assert p in rest;
        var j :| 0 <= j < |rest| && rest[j] == p;
        assert Ids(builtins + rest)[|builtins| + j] == x;
      }
    }
  }
}
