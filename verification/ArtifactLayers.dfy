/**
 Which layer of a profile artifact is for which platform: what a push packs, and
 what a pull selects from it.
 */
module ArtifactLayers {
  import opened Ordering
  import opened Platforms
  import opened Wrappers

  const MAX_LAYERS := 128

  /** A file to push. Raw OCI runtime-spec profiles are told apart by their content. */
  datatype File = File(platform: Option<Platform>, path: string, runtimeSpec: bool)

  /** A layer of the manifest; `title` is its title annotation, empty if it has none. */
  datatype Layer = Layer(platform: Option<Platform>, title: string, path: string)

  datatype Manifest = Manifest(layers: seq<Layer>, runtimeFormat: bool)

  datatype Selection =
    | Selected(layer: Layer, runtimeFormat: bool)
    | TooManyLayers | NoSingleLayer | PlatformMismatch

  // ---------------------------------------------------------------- pushing

  /** profileEntries: the layer of one file; runtime format layers are platform independent. */
  function Entry(f: File): Layer {
    if f.runtimeSpec then Layer(None, DEFAULT_JSON, f.path)
    else Layer(f.platform, ProfileName(f.platform), f.path)
  }

  predicate TitleLe(a: Layer, b: Layer) {
    StringLe(a.title, b.title)
  }

  function Entries(files: seq<File>): seq<Layer> {
    seq(|files|, i requires 0 <= i < |files| => Entry(files[i]))
  }

  /**
   What packProfiles may pack: the entries in an order sorted by title. Map
   iteration and an unstable sort leave the order of equal titles open.
   */
  ghost predicate Packs(layers: seq<Layer>, files: seq<File>) {
    multiset(layers) == multiset(Entries(files)) && Sorted(TitleLe, layers)
  }

  ghost predicate DistinctTitles(files: seq<File>) {
    forall i, j | 0 <= i < j < |files| :: Entry(files[i]).title != Entry(files[j]).title
  }

  /** How many of the files are in runtime format. */
  function RuntimeSpecs(files: seq<File>): nat {
    if files == [] then 0
    else RuntimeSpecs(files[..|files| - 1]) + if files[|files| - 1].runtimeSpec then 1 else 0
  }

  /** profileEntries, for files in whatever order the map iterates. */
  method ProfileEntries(files: seq<File>) returns (layers: seq<Layer>, runtimeSpecs: nat)
    ensures Packs(layers, files)
    ensures runtimeSpecs == RuntimeSpecs(files)
  {
    var entries := [];
    runtimeSpecs := 0;
    for i := 0 to |files|
      invariant entries == Entries(files[..i])
      invariant runtimeSpecs == RuntimeSpecs(files[..i])
    {
      assert files[..i + 1][..i] == files[..i];
      assert Entries(files[..i + 1]) == Entries(files[..i]) + [Entry(files[i])];
      entries := entries + [Entry(files[i])];
      if files[i].runtimeSpec {
        runtimeSpecs := runtimeSpecs + 1;
      }
    }
    assert files[..|files|] == files;
    TitleOrder();
    SortSorts(TitleLe, entries);
    layers := Sort(TitleLe, entries);
  }

  // ---------------------------------------------------------------- packing

  /** What packProfiles comes to. */
  datatype Push =
    | Packed(manifest: Manifest)
    | MixedFormats | MultipleRuntimeSpecs
    | DuplicateName(title: string)      // the file store holds one file per name

  /** What decides whether a push succeeds: CRD profiles of distinct names, or one runtime format profile. */
  ghost predicate Pushable(files: seq<File>) {
    if RuntimeSpecs(files) == 0 then DistinctTitles(files) else |files| == 1
  }

  /** The manifest format has no empty layer list: an empty blob without a title stands in for it. */
  const EMPTY_BLOB := Layer(None, "", "")

  ghost predicate Pushed(m: Manifest, files: seq<File>) {
    && Pushable(files)
    && m.runtimeFormat == (RuntimeSpecs(files) > 0)
    && if files == [] then m.layers == [EMPTY_BLOB] else Packs(m.layers, files)
  }

  lemma {:induction false} SomeRuntimeSpec(files: seq<File>)
    ensures RuntimeSpecs(files) <= |files|
    ensures RuntimeSpecs(files) == 0 <==> forall i | 0 <= i < |files| :: !files[i].runtimeSpec
  {
    if files != [] {
      SomeRuntimeSpec(files[..|files| - 1]);
    }
  }

  ghost predicate DistinctLayers(layers: seq<Layer>) {
    forall i, j | 0 <= i < j < |layers| :: layers[i].title != layers[j].title
  }

  /** The file store holds one file per name: it refuses the first repeated one. */
  method AddToStore(entries: seq<Layer>) returns (refused: Option<string>)
    ensures refused.None? <==> DistinctLayers(entries)
    ensures refused.Some? ==>
              exists i, k | 0 <= i < k < |entries| :: entries[i].title == entries[k].title == refused.value
  {
    var names: set<string> := {};
    for k := 0 to |entries|
      invariant DistinctLayers(entries[..k])
      invariant forall name :: name in names <==> exists i | 0 <= i < k :: entries[i].title == name
    {
      if entries[k].title in names {
        return Some(entries[k].title);
      }
      names := names + {entries[k].title};
    }
    assert entries[..|entries|] == entries;
    return None;
  }

  /** packProfiles: counts the formats, and adds the entries to the file store. */
  method PackProfiles(files: seq<File>) returns (r: Push)
    ensures r == MixedFormats <==> 0 < RuntimeSpecs(files) < |files|
    ensures r == MultipleRuntimeSpecs <==> 1 < RuntimeSpecs(files) == |files|
    ensures r.DuplicateName? <==> RuntimeSpecs(files) == 0 && !DistinctTitles(files)
    ensures r.DuplicateName? ==> SharedTitle(files, r.title)
    ensures r.Packed? <==> Pushable(files)
    ensures r.Packed? ==> Pushed(r.manifest, files)
  {
    var entries, runtimeSpecs := ProfileEntries(files);
    SomeRuntimeSpec(files);
    if runtimeSpecs > 0 && runtimeSpecs != |files| {
      return MixedFormats;
    }
    if runtimeSpecs > 1 {
      return MultipleRuntimeSpecs;
    }
    PackedMembers(entries, files);
    var refused := AddToStore(entries);
    if refused.Some? {
      ghost var i, k :| 0 <= i < k < |entries| && entries[i].title == entries[k].title == refused.value;
      RepeatedTitle(entries, files, i, k);
      return DuplicateName(refused.value);
    }
    DistinctFiles(entries, files);
    return Packed(Manifest(if |entries| == 0 then [EMPTY_BLOB] else entries, runtimeSpecs > 0));
  }

  ghost predicate SharedTitle(files: seq<File>, title: string) {
    exists i, j | 0 <= i < j < |files| :: Entry(files[i]).title == Entry(files[j]).title == title
  }

  /** Two layers of one title come from two files of one title. */
  lemma {:induction false} RepeatedTitle(layers: seq<Layer>, files: seq<File>, i: nat, k: nat)
    requires Packs(layers, files) && i < k < |layers| && layers[i].title == layers[k].title
    ensures SharedTitle(files, layers[k].title) && !DistinctTitles(files)
  {
    var x, y := SamePlaces(layers, Entries(files), i, k);
    assert Entry(files[x]).title == Entry(files[y]).title == layers[k].title;
  }

  /** Distinct titles of the layers are distinct titles of the files. */
  lemma {:induction false} DistinctFiles(layers: seq<Layer>, files: seq<File>)
    requires Packs(layers, files) && DistinctLayers(layers)
    ensures DistinctTitles(files)
  {
    forall i, j | 0 <= i < j < |files|
      ensures Entry(files[i]).title != Entry(files[j]).title
    {
      var x, y := SamePlaces(Entries(files), layers, i, j);
      assert layers[x].title != layers[y].title;
    }
  }

  lemma {:induction false} TitleOrder()
    ensures TotalPreorder(TitleLe)
  {
    StringOrder();
  }

  lemma {:induction false} PackedMembers(layers: seq<Layer>, files: seq<File>)
    requires Packs(layers, files)
    ensures forall x :: x in layers <==> exists f :: f in files && Entry(f) == x
    ensures |layers| == |files|
  {
    var entries := Entries(files);
    assert |multiset(layers)| == |multiset(entries)|;
    forall x
      ensures x in layers <==> exists f :: f in files && Entry(f) == x
    {
      assert x in multiset(layers) <==> x in multiset(entries);
      if x in entries {
        var i :| 0 <= i < |entries| && entries[i] == x;
        assert files[i] in files && Entry(files[i]) == x;
      }
      if f :| f in files && Entry(f) == x {
        var i :| 0 <= i < |files| && files[i] == f;
        assert entries[i] == x;
      }
    }
  }

  lemma {:induction false} DistinctAscend(layers: seq<Layer>, files: seq<File>)
    requires Packs(layers, files) && DistinctTitles(files)
    ensures Ascending(TitleLe, layers)
  {
    TitleOrder();
    StringOrder();
    var entries := Entries(files);
    forall i, j | 0 <= i < j < |entries|
      ensures !(TitleLe(entries[i], entries[j]) && TitleLe(entries[j], entries[i]))
    {
      assert Entry(files[i]).title != Entry(files[j]).title;
    }
    SortedApartAscends(TitleLe, entries, layers);
  }

  /** With distinct layer names the layers do not depend on how the map of files iterates. */
  lemma {:induction false} LayerOrderFixed(files: seq<File>, files': seq<File>, layers: seq<Layer>, layers': seq<Layer>)
    requires DistinctTitles(files) && DistinctTitles(files') && forall f :: f in files <==> f in files'
    requires Packs(layers, files) && Packs(layers', files')
    ensures layers == layers'
  {
    PackedMembers(layers, files);
    PackedMembers(layers', files');
    DistinctAscend(layers, files);
    DistinctAscend(layers', files');
    TitleOrder();
    AscendingUnique(TitleLe, layers, layers');
  }

  // ---------------------------------------------------------------- selecting

  /** `^profile-.+\.yaml$`. */
  predicate PlatformQualified(title: string) {
    && "profile-" <= title
    && |title| > |"profile-"| + |EXT_YAML|
    && title[|title| - |EXT_YAML|..] == EXT_YAML
    && '\n' !in title[|"profile-"|..|title| - |EXT_YAML|]
  }

  predicate LayerMatches(layer: Layer, platform: Option<Platform>) {
    match layer.platform
    case None => !PlatformQualified(layer.title)
    case Some(have) => platform.Some? && Matches(have, platform.value)
  }

  /** The layer is the one of the platform: bound to it, or bound to none and named for it. */
  predicate IsFor(layer: Layer, platform: Platform) {
    match layer.platform
    case Some(have) => Matches(have, platform)
    case None => layer.title == ProfileName(Some(platform))
  }

  predicate IsDefault(layer: Layer, title: string) {
    layer.platform.None? && layer.title == title
  }

  function FirstFor(layers: seq<Layer>, platform: Platform): Option<Layer> {
    if layers == [] then None
    else if IsFor(layers[0], platform) then Some(layers[0])
    else FirstFor(layers[1..], platform)
  }

  function FirstDefault(layers: seq<Layer>, title: string): Option<Layer> {
    if layers == [] then None
    else if IsDefault(layers[0], title) then Some(layers[0])
    else FirstDefault(layers[1..], title)
  }

  /** selectLayer. */
  function Select(m: Manifest, platform: Option<Platform>): Selection {
    if |m.layers| > MAX_LAYERS then TooManyLayers
    else if m.runtimeFormat then
      if |m.layers| != 1 then NoSingleLayer else Selected(m.layers[0], true)
    else
      var own := if platform.Some? then FirstFor(m.layers, platform.value) else None;
      var yaml, json := FirstDefault(m.layers, DEFAULT_YAML), FirstDefault(m.layers, DEFAULT_JSON);
      if own.Some? then Selected(own.value, false)
      else if yaml.Some? then Selected(yaml.value, false)
      else if json.Some? then Selected(json.value, false)
      else if |m.layers| != 1 then NoSingleLayer
      else if !LayerMatches(m.layers[0], platform) then PlatformMismatch
      else Selected(m.layers[0], false)
  }

  method SelectLayer(m: Manifest, platform: Option<Platform>) returns (r: Selection)
    ensures r == Select(m, platform)
    ensures r.Selected? && !r.runtimeFormat && r.layer.platform.Some? ==>
              platform.Some? && Matches(r.layer.platform.value, platform.value)
  {
    NeverForeign(m, platform);
    if |m.layers| > MAX_LAYERS {
      return TooManyLayers;
    }
    if m.runtimeFormat {
      if |m.layers| != 1 {
        return NoSingleLayer;
      }
      return Selected(m.layers[0], true);
    }
    if platform.Some? {
      for i := 0 to |m.layers|
        invariant FirstFor(m.layers, platform.value) == FirstFor(m.layers[i..], platform.value)
      {
        assert m.layers[i..][1..] == m.layers[i + 1..];
        if IsFor(m.layers[i], platform.value) {
          return Selected(m.layers[i], false);
        }
      }
    }
    var titles := [DEFAULT_YAML, DEFAULT_JSON];
    assert titles[0] == DEFAULT_YAML && titles[1] == DEFAULT_JSON;
    for t := 0 to 2
      invariant platform.Some? ==> FirstFor(m.layers, platform.value).None?
      invariant forall k | 0 <= k < t :: FirstDefault(m.layers, titles[k]).None?
    {
      for i := 0 to |m.layers|
        invariant FirstDefault(m.layers, titles[t]) == FirstDefault(m.layers[i..], titles[t])
      {
        assert m.layers[i..][1..] == m.layers[i + 1..];
        if IsDefault(m.layers[i], titles[t]) {
          assert t == 1 ==> FirstDefault(m.layers, titles[0]).None?;
          return Selected(m.layers[i], false);
        }
      }
    }
    if |m.layers| != 1 {
      return NoSingleLayer;
    }
    if !LayerMatches(m.layers[0], platform) {
      return PlatformMismatch;
    }
    return Selected(m.layers[0], false);
  }

  lemma {:induction false} FirstForFound(layers: seq<Layer>, platform: Platform)
    ensures FirstFor(layers, platform).Some? ==>
              FirstFor(layers, platform).value in layers && IsFor(FirstFor(layers, platform).value, platform)
    ensures FirstFor(layers, platform).None? ==> forall x | x in layers :: !IsFor(x, platform)
  {
    if layers != [] {
      assert layers == [layers[0]] + layers[1..];
      FirstForFound(layers[1..], platform);
    }
  }

  lemma {:induction false} FirstDefaultFound(layers: seq<Layer>, title: string)
    ensures FirstDefault(layers, title).Some? ==>
              FirstDefault(layers, title).value in layers && IsDefault(FirstDefault(layers, title).value, title)
    ensures FirstDefault(layers, title).None? ==> forall x | x in layers :: !IsDefault(x, title)
  {
    if layers != [] {
      assert layers == [layers[0]] + layers[1..];
      FirstDefaultFound(layers[1..], title);
    }
  }

  /** Whatever the manifest, outside runtime format no layer of another platform is chosen. */
  lemma {:induction false} NeverForeign(m: Manifest, platform: Option<Platform>)
    ensures var r := Select(m, platform);
            r.Selected? && !r.runtimeFormat && r.layer.platform.Some? ==>
              platform.Some? && Matches(r.layer.platform.value, platform.value)
  {
    if platform.Some? {
      FirstForFound(m.layers, platform.value);
    }
    FirstDefaultFound(m.layers, DEFAULT_YAML);
    FirstDefaultFound(m.layers, DEFAULT_JSON);
  }

  /** The title names some platform: something on one line stands between the prefix and the extension. */
  ghost predicate NamedForOne(title: string) {
    exists middle :: middle != "" && '\n' !in middle && title == "profile-" + middle + ".yaml"
  }

  lemma {:induction false} QualifiedIff(title: string)
    ensures PlatformQualified(title) <==> NamedForOne(title)
  {
    if PlatformQualified(title) {
      var middle := title[8..|title| - 5];
      assert title == "profile-" + middle + ".yaml";
    }
    if NamedForOne(title) {
      var middle :| middle != "" && '\n' !in middle && title == "profile-" + middle + ".yaml";
      assert title[|title| - 5..] == ".yaml" && title[8..|title| - 5] == middle;
    }
  }

  /** The layer is for the platform: bound to one that matches, or to none and named for it. */
  ghost predicate ServesAs(x: Layer, platform: Option<Platform>) {
    && platform.Some?
    && if x.platform.Some? then Matches(x.platform.value, platform.value)
       else x.title == ProfileName(platform)
  }

  /** Which layer of any manifest a pull gets, in the order of preference. */
  lemma {:induction false} SelectSpelled(m: Manifest, platform: Option<Platform>)
    ensures Select(m, platform) == TooManyLayers <==> |m.layers| > 128
    ensures |m.layers| <= 128 && m.runtimeFormat ==>
              Select(m, platform) == if |m.layers| == 1 then Selected(m.layers[0], true) else NoSingleLayer
    ensures |m.layers| <= 128 && !m.runtimeFormat ==>
              var r := Select(m, platform);
              if exists x :: x in m.layers && ServesAs(x, platform) then
                r.Selected? && r.layer in m.layers && ServesAs(r.layer, platform) && !r.runtimeFormat
              else if exists x :: x in m.layers && x.platform.None? && x.title == "profile.yaml" then
                r.Selected? && r.layer in m.layers && r.layer.platform.None? && r.layer.title == "profile.yaml"
              else if exists x :: x in m.layers && x.platform.None? && x.title == "profile.json" then
                r.Selected? && r.layer in m.layers && r.layer.platform.None? && r.layer.title == "profile.json"
              else if |m.layers| != 1 then r == NoSingleLayer
              else if m.layers[0].platform.Some? || NamedForOne(m.layers[0].title) then r == PlatformMismatch
              else r == Selected(m.layers[0], false)
  {
    if platform.Some? {
      FirstForFound(m.layers, platform.value);
    }
    FirstDefaultFound(m.layers, DEFAULT_YAML);
    FirstDefaultFound(m.layers, DEFAULT_JSON);
    if |m.layers| == 1 {
      QualifiedIff(m.layers[0].title);
      assert m.layers[0] in m.layers;
    }
  }

  // ---------------------------------------------------------------- pushing and selecting

  /** CRD profiles for platforms of which no two match, at most one of them for none. */
  ghost predicate OnePerPlatform(files: seq<File>) {
    && (forall i | 0 <= i < |files| :: !files[i].runtimeSpec)
    && (forall i, j | 0 <= i < j < |files| ::
          match (files[i].platform, files[j].platform)
          case (None, None) => false
          case (Some(a), Some(b)) => !Matches(a, b)
          case _ => true)
  }

  predicate BoundTo(f: File, platform: Option<Platform>) {
    platform.Some? && f.platform.Some? && Matches(f.platform.value, platform.value)
  }

  /** What a pull for the platform has to get: the file bound to it, else the unbound one, else none. */
  ghost predicate Expected(files: seq<File>, platform: Option<Platform>, r: Selection) {
    if exists f :: f in files && BoundTo(f, platform) then
      forall f | f in files && BoundTo(f, platform) ::
        r.Selected? && !r.runtimeFormat && r.layer.path == f.path && r.layer.platform == f.platform
    else if exists f :: f in files && f.platform.None? then
      forall f | f in files && f.platform.None? ::
        r.Selected? && !r.runtimeFormat && r.layer.path == f.path && r.layer.platform == f.platform
    else !r.Selected?
  }

  /** No two files are for one platform, and no two for none. */
  lemma {:induction false} OneFile(files: seq<File>, f: File, g: File, platform: Option<Platform>)
    requires OnePerPlatform(files) && f in files && g in files
    requires (BoundTo(f, platform) && BoundTo(g, platform)) || (f.platform.None? && g.platform.None?)
    ensures f == g
  {
    var i, j :| 0 <= i < |files| && 0 <= j < |files| && files[i] == f && files[j] == g;
  }

  lemma {:induction false} ExpectBound(files: seq<File>, platform: Option<Platform>, f: File)
    requires OnePerPlatform(files) && f in files && BoundTo(f, platform)
    ensures Expected(files, platform, Selected(Entry(f), false))
  {
    forall g | g in files && BoundTo(g, platform)
      ensures g == f
    {
      OneFile(files, f, g, platform);
    }
  }

  lemma {:induction false} ExpectUnbound(files: seq<File>, platform: Option<Platform>, f: File)
    requires OnePerPlatform(files) && f in files && f.platform.None?
    requires !exists g :: g in files && BoundTo(g, platform)
    ensures Expected(files, platform, Selected(Entry(f), false))
  {
    forall g | g in files && g.platform.None?
      ensures g == f
    {
      OneFile(files, f, g, platform);
    }
  }

  /** A layer found for the platform is the one of the expected file. */
  lemma {:induction false} OwnSelected(files: seq<File>, layers: seq<Layer>, platform: Option<Platform>)
    requires OnePerPlatform(files) && Packs(layers, files) && DistinctTitles(files)
    requires platform.Some? && FirstFor(layers, platform.value).Some?
    ensures Expected(files, platform, Selected(FirstFor(layers, platform.value).value, false))
  {
    PackedMembers(layers, files);
    FirstForFound(layers, platform.value);
    var f :| f in files && Entry(f) == FirstFor(layers, platform.value).value;
    if f.platform.None? {
      OwnUnbound(files, platform, f);
      ExpectUnbound(files, platform, f);
    } else {
      ExpectBound(files, platform, f);
    }
  }

  /** Without a file for the platform, the unbound one is found under its default name. */
  lemma {:induction false} UnboundSelected(files: seq<File>, layers: seq<Layer>, platform: Option<Platform>, g: File)
    requires OnePerPlatform(files) && Packs(layers, files) && g in files && g.platform.None?
    requires !exists f :: f in files && BoundTo(f, platform)
    ensures FirstDefault(layers, DEFAULT_YAML).Some?
    ensures Expected(files, platform, Selected(FirstDefault(layers, DEFAULT_YAML).value, false))
  {
    PackedMembers(layers, files);
    DefaultName();
    FirstDefaultFound(layers, DEFAULT_YAML);
    assert Entry(g) in layers && IsDefault(Entry(g), DEFAULT_YAML);
    var f :| f in files && Entry(f) == FirstDefault(layers, DEFAULT_YAML).value;
    ExpectUnbound(files, platform, f);
  }

  /** With distinct titles every pull gets the file pushed for its platform. */
  lemma {:induction false} SelectFindsPushed(files: seq<File>, layers: seq<Layer>, platform: Option<Platform>)
    requires OnePerPlatform(files) && |files| <= MAX_LAYERS && Packs(layers, files)
    requires DistinctTitles(files)
    ensures Expected(files, platform, Select(Manifest(layers, false), platform))
  {
    PackedSize(layers, files);
    if platform.Some? && FirstFor(layers, platform.value).Some? {
      OwnSelected(files, layers, platform);
    } else {
      NoneBound(files, layers, platform);
      if g :| g in files && g.platform.None? {
        UnboundSelected(files, layers, platform, g);
      } else {
        NothingSelected(files, layers, platform);
      }
    }
  }

  lemma {:induction false} PackedSize(layers: seq<Layer>, files: seq<File>)
    requires Packs(layers, files)
    ensures |layers| == |files|
  {
    PackedMembers(layers, files);
  }

  lemma {:induction false} DefaultName()
    ensures ProfileName(None) == DEFAULT_YAML
  {
  }

  lemma {:induction false} BoundToEmpty(g: File)
    ensures !g.runtimeSpec && BoundTo(g, Some(EMPTY)) ==> Entry(g).title == DEFAULT_YAML
  {
    DefaultNameIsEmpty(EMPTY);
  }

  lemma {:induction false} TitlesApart(files: seq<File>, f: File, g: File)
    requires DistinctTitles(files) && f in files && g in files && f != g
    ensures Entry(f).title != Entry(g).title
  {
    var i, j :| 0 <= i < |files| && 0 <= j < |files| && files[i] == f && files[j] == g;
  }

  /** An unbound layer is named for the empty platform only, and then no file is bound to that. */
  lemma {:induction false} OwnUnbound(files: seq<File>, platform: Option<Platform>, f: File)
    requires OnePerPlatform(files) && DistinctTitles(files) && f in files && f.platform.None?
    requires platform.Some? && IsFor(Entry(f), platform.value)
    ensures !exists g :: g in files && BoundTo(g, platform)
  {
    DefaultName();
    DefaultNameIsEmpty(platform.value);
    forall g | g in files && g.platform.Some?
      ensures !BoundTo(g, platform)
    {
      TitlesApart(files, f, g);
      BoundToEmpty(g);
    }
  }

  lemma {:induction false} NoneBound(files: seq<File>, layers: seq<Layer>, platform: Option<Platform>)
    requires OnePerPlatform(files) && Packs(layers, files)
    requires platform.Some? ==> FirstFor(layers, platform.value).None?
    ensures !exists f :: f in files && BoundTo(f, platform)
  {
    PackedMembers(layers, files);
    if platform.Some? {
      FirstForFound(layers, platform.value);
    }
    forall f | f in files
      ensures !BoundTo(f, platform)
    {
      assert Entry(f) in layers;
    }
  }

  lemma {:induction false} NothingSelected(files: seq<File>, layers: seq<Layer>, platform: Option<Platform>)
    requires OnePerPlatform(files) && Packs(layers, files)
    requires forall f | f in files :: f.platform.Some? && !BoundTo(f, platform)
    ensures !Select(Manifest(layers, false), platform).Selected?
  {
    PackedMembers(layers, files);
    FirstDefaultFound(layers, DEFAULT_YAML);
    FirstDefaultFound(layers, DEFAULT_JSON);
    if platform.Some? {
      FirstForFound(layers, platform.value);
    }
    forall x | x in layers
      ensures x.platform.Some? && !(platform.Some? && Matches(x.platform.value, platform.value))
    {
      var f :| f in files && Entry(f) == x;
      assert !BoundTo(f, platform);
    }
    assert |layers| == 1 ==> layers[0] in layers;
  }

  // ---------------------------------------------------------------- the push and its pulls

  /** One CRD profile per platform is pushed exactly if no two of the platforms share a layer name. */
  lemma {:induction false} PushSucceedsIff(files: seq<File>)
    requires OnePerPlatform(files)
    ensures Pushable(files) <==>
            forall i, j | 0 <= i < j < |files| :: ProfileName(files[i].platform) != ProfileName(files[j].platform)
  {
    SomeRuntimeSpec(files);
    assert forall i | 0 <= i < |files| :: Entry(files[i]).title == ProfileName(files[i].platform);
  }

  const BY_VARIANT := Platform("linux", "amd64", "v2", "")
  const BY_VERSION := Platform("linux", "amd64", "", "v2")

  /** Platforms that do not match may share a name: a variant and a version look alike in it. */
  lemma {:induction false} SharedNameRefused(path: string, path': string)
    ensures var files := [File(Some(BY_VARIANT), path, false), File(Some(BY_VERSION), path', false)];
            OnePerPlatform(files) && ProfileName(Some(BY_VARIANT)) == ProfileName(Some(BY_VERSION)) && !Pushable(files)
  {
    var files := [File(Some(BY_VARIANT), path, false), File(Some(BY_VERSION), path', false)];
    assert !Matches(BY_VARIANT, BY_VERSION);
    assert Dashed("v2") + Dashed("") == Dashed("") + Dashed("v2");
    assert Dashed("linux") + Dashed("amd64") + Dashed("v2") + Dashed("")
        == Dashed("linux") + Dashed("amd64") + Dashed("") + Dashed("v2");
    assert Entry(files[0]).title == Entry(files[1]).title;
    SomeRuntimeSpec(files);
  }

  /** After a push of up to 128 profiles every pull is served what was pushed for it. */
  lemma {:induction false} PulledAsPushed(files: seq<File>, m: Manifest, platform: Option<Platform>)
    requires OnePerPlatform(files) && Pushed(m, files) && 0 < |files| <= MAX_LAYERS
    ensures Expected(files, platform, Select(m, platform))
  {
    SomeRuntimeSpec(files);
    SelectFindsPushed(files, m.layers, platform);
  }

  /** A push of nothing serves its empty blob. */
  lemma {:induction false} NothingPushedIsServed(m: Manifest)
    requires Pushed(m, [])
    ensures Select(m, None) == Selected(EMPTY_BLOB, false) && !Expected([], None, Select(m, None))
  {
    SomeRuntimeSpec([]);
    assert m.layers == [EMPTY_BLOB] && |m.layers| <= MAX_LAYERS;
    FirstDefaultFound(m.layers, DEFAULT_YAML);
    FirstDefaultFound(m.layers, DEFAULT_JSON);
    assert EMPTY_BLOB.title == "" && !PlatformQualified("");
  }

  /** A push of too many profiles serves none. */
  lemma {:induction false} TooManyServeNone(files: seq<File>, m: Manifest)
    requires Pushed(m, files) && |files| > MAX_LAYERS
    ensures Select(m, files[0].platform) == TooManyLayers
    ensures !Expected(files, files[0].platform, TooManyLayers)
  {
    PackedSize(m.layers, files);
    var f := files[0];
    assert f in files && (f.platform.Some? ==> BoundTo(f, f.platform));
  }

  /**
   Pushing one CRD profile per platform, if the push succeeds, serves every pull
   the file pushed for its platform, else the unbound one, else an error,
   exactly if there are 1 to 128 of them.
   */
  lemma {:induction false} PushThenSelect(files: seq<File>, m: Manifest)
    requires OnePerPlatform(files) && Pushed(m, files)
    ensures (forall platform :: Expected(files, platform, Select(m, platform))) <==> 0 < |files| <= MAX_LAYERS
  {
    if 0 < |files| <= MAX_LAYERS {
      forall platform
        ensures Expected(files, platform, Select(m, platform))
      {
        PulledAsPushed(files, m, platform);
      }
    } else if files == [] {
      NothingPushedIsServed(m);
    } else {
      TooManyServeNone(files, m);
    }
  }

  /** A pushed runtime format profile is served to every platform. */
  lemma {:induction false} RuntimeFormatServesAll(files: seq<File>, m: Manifest, platform: Option<Platform>)
    requires Pushed(m, files) && RuntimeSpecs(files) > 0
    ensures Select(m, platform) == Selected(Layer(None, "profile.json", files[0].path), true)
  {
    PackedMembers(m.layers, files);
    assert m.layers[0] in m.layers && files == [files[0]];
  }

  /** A profile pushed for linux/arm64 is served to linux/arm64/v8, and the other way round. */
  lemma {:induction false} DefaultVariantServed(files: seq<File>, m: Manifest, f: File, variant: string, wanted: string)
    requires OnePerPlatform(files) && Pushed(m, files) && |files| <= 128 && f in files
    requires variant in {"", "v8"} && wanted in {"", "v8"}
    requires f.platform == Some(Platform("linux", "arm64", variant, ""))
    ensures var r := Select(m, Some(Platform("linux", "arm64", wanted, "")));
            r.Selected? && r.layer.path == f.path
  {
    var want := Platform("linux", "arm64", wanted, "");
    MatchesIff(f.platform.value, want);
    assert BoundTo(f, Some(want));
    PulledAsPushed(files, m, Some(want));
  }
}
