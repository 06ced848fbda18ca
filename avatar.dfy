/**
 * The model-URL lookup of components/Avatar.jsx: `createModelReference`,
 * `resolveModelReference` and `getAssetUrl`. It is the resolver and URL
 * service of utils/assets.js fixed to the model extensions, with a key list
 * that lacks `modelPath`, `model_path`, `assetPath` and `asset_path`.
 */
module Avatar {
  import opened Wrappers
  import opened Strings
  import Dict
  import opened ObjectGraph
  import opened FileReference
  import opened Resolver
  import opened AssetUrls

  const AvatarModelFieldKeys: seq<string> := [
    "url", "uri", "href", "file", "fileName", "filename", "files",
    "model", "modelFile", "model_file", "modelUrl", "model_url",
    "asset", "assetFile", "asset_file", "assetUrl", "asset_url",
    "source", "path", "src", "downloadUrl", "download_url"
  ]

  /** The keys of the shared list that the component's list leaves out. */
  const PathKeys: seq<string> := ["modelPath", "model_path", "assetPath", "asset_path"]

  /** `createModelReference(value)`: `createFileReference` with the model extensions. */
  function CreateModelReference(v: Value): (r: Option<FileRef>)
    ensures r.Some? ==> v.Str? && r.value.value == Trim(v.s) && r.value.fileName != []
    ensures r.Some? ==> exists e | e in ModelExtensions :: EndsWith(ToLower(r.value.fileName), e)
  {
    ModelFileName(v);
    CreateFileReference(v, ModelExtensions)
  }

  lemma ModelFileName(v: Value)
    ensures var r := CreateFileReference(v, ModelExtensions);
      r.Some? ==> exists e | e in ModelExtensions :: EndsWith(ToLower(r.value.fileName), e)
  {
    NoSlashInModelExtensions();
    FileNameKeepsExtension(v, ModelExtensions);
  }

  /** With extensions that hold no `/`, a reference's file name ends with one of them. */
  lemma FileNameKeepsExtension(v: Value, exts: seq<string>)
    requires forall e | e in exts :: '/' !in e
    ensures var r := CreateFileReference(v, exts);
      r.Some? ==> exists e | e in exts :: EndsWith(ToLower(r.value.fileName), e)
  {
    var r := CreateFileReference(v, exts);
    if r.Some? {
      var path := PathPart(r.value.value);
      var e := MatchedExtension(path, exts).value;
      FileNameHasExtension(path, e);
    }
  }

  lemma NoSlashInModelExtensions()
    ensures forall e | e in ModelExtensions :: '/' !in e
  {
    forall e | e in ModelExtensions ensures '/' !in e {
      assert e == ".glb" || e == ".gltf" || e == ".fbx";
      assert forall i | 0 <= i < |e| :: e[i] != '/';
    }
  }

  /** `resolveModelReference(value, contextRecord, visited)`. */
  method ResolveModelReference(h: Heap, v: Value, ctx: Value, visited: WeakSet) returns (r: Option<Resolved>)
    modifies visited
    ensures var s := ResolveAll(h, [v], ctx, old(visited.members), ClassifierFor(ModelExtensions), AvatarModelFieldKeys);
      r == s.found && visited.members == s.visited
    ensures IsNullish(v) ==> r.None? && visited.members == old(visited.members)
  {
    if IsNullish(v) {
      ScalarResolvesNothing(h, v, ctx, visited.members, ClassifierFor(ModelExtensions), AvatarModelFieldKeys);
    }
    r := ResolveFileReference(h, v, ctx, visited, ModelExtensions, AvatarModelFieldKeys);
  }

  /** `getAssetUrl(asset)`: the URL service over the component's key list. */
  function AssetUrl(h: Heap, asset: Value, getUrl: UrlBuilder): Option<string> {
    FileUrlOf(h, asset, asset, ModelExtensions, AvatarModelFieldKeys, getUrl)
  }

  method GetAssetUrl(h: Heap, asset: Value, getUrl: UrlBuilder) returns (r: Option<string>)
    ensures r == AssetUrl(h, asset, getUrl)
    ensures IsNullish(asset) ==> r == None
  {
    r := GetFileUrlFromRecord(h, asset, asset, ModelExtensions, AvatarModelFieldKeys, getUrl);
    if IsNullish(asset) {
      NullishHasNoUrl(h, asset, asset, ModelExtensions, AvatarModelFieldKeys, getUrl);
    }
  }

  /** A customization entry is drawn only when its asset has a model URL. */
  predicate Renders(h: Heap, asset: Value, getUrl: UrlBuilder) {
    IsUrl(AssetUrl(h, asset, getUrl))
  }

  /** An empty entry (`entry?.asset` nullish) renders nothing. */
  lemma EmptyEntryRendersNothing(h: Heap, asset: Value, getUrl: UrlBuilder)
    requires IsNullish(asset)
    ensures !Renders(h, asset, getUrl)
  {
    NullishHasNoUrl(h, asset, asset, ModelExtensions, AvatarModelFieldKeys, getUrl);
  }

  /** No object of the heap has any of the four keys the component's list lacks. */
  predicate NoPathKeys(h: Heap) {
    forall id, k | id in h && h[id].Object? && k in PathKeys :: !Dict.HasKey(h[id].fields, k)
  }

  /** The shared list is the component's with the path keys inserted. */
  lemma KeyListsDiffer()
    ensures var a, b, c := AvatarModelFieldKeys[..10], AvatarModelFieldKeys[10..15], AvatarModelFieldKeys[15..];
      && AvatarModelFieldKeys == a + b + c
      && ModelFieldKeys == a + PathKeys[..2] + b + PathKeys[2..] + c
  {
    var a, b, c := AvatarModelFieldKeys[..10], AvatarModelFieldKeys[10..15], AvatarModelFieldKeys[15..];
    assert a == ["url", "uri", "href", "file", "fileName", "filename", "files", "model", "modelFile", "model_file"];
    assert b == ["modelUrl", "model_url", "asset", "assetFile", "asset_file"];
    assert c == ["assetUrl", "asset_url", "source", "path", "src", "downloadUrl", "download_url"];
    assert PathKeys[..2] == ["modelPath", "model_path"];
    assert PathKeys[2..] == ["assetPath", "asset_path"];
  }

  /** On a heap without the path keys, both lists give every node the same children. */
  lemma SameChildren(h: Heap)
    requires NoPathKeys(h)
    ensures forall id | id in h :: Children(h[id], ModelFieldKeys) == Children(h[id], AvatarModelFieldKeys)
  {
    forall id | id in h && h[id].Object?
      ensures Children(h[id], ModelFieldKeys) == Children(h[id], AvatarModelFieldKeys)
    {
      var fields := h[id].fields;
      assert forall k | k in PathKeys :: k !in Dict.Keys(fields);
      SamePrioritized(fields);
      SameRemaining(fields);
    }
  }

  /** An object without the path keys has the same prioritised values under both lists. */
  lemma SamePrioritized(fields: Dict.Dict<Value>)
    requires forall k | k in PathKeys :: k !in Dict.Keys(fields)
    ensures Prioritized(fields, ModelFieldKeys) == Prioritized(fields, AvatarModelFieldKeys)
  {
    KeyListsDiffer();
    var x, y := PathKeys[..2], PathKeys[2..];
    assert forall k | k in x || k in y :: k in PathKeys;
    AbsentKeysDropped(fields, AvatarModelFieldKeys[..10], x, AvatarModelFieldKeys[10..15], y, AvatarModelFieldKeys[15..]);
  }

  /** Listing keys the object does not have changes nothing in its prioritised values. */
  lemma AbsentKeysDropped(fields: Dict.Dict<Value>, a: seq<string>, x: seq<string>, b: seq<string>, y: seq<string>, c: seq<string>)
    requires forall k | k in x || k in y :: k !in Dict.Keys(fields)
    ensures Prioritized(fields, a + x + b + y + c) == Prioritized(fields, a + b + c)
  {
    var get := Lookup(fields);
    NoneDropped(x, get);
    NoneDropped(y, get);
    calc {
      FilterMap(a + x + b + y + c, get);
      { FilterMapAppend(a + x + b + y, c, get); }
      FilterMap(a + x + b + y, get) + FilterMap(c, get);
      { FilterMapAppend(a + x + b, y, get); }
      FilterMap(a + x + b, get) + FilterMap(c, get);
      { FilterMapAppend(a + x, b, get); FilterMapAppend(a, x, get); }
      FilterMap(a, get) + FilterMap(b, get) + FilterMap(c, get);
      { FilterMapAppend(a, b, get); }
      FilterMap(a + b, get) + FilterMap(c, get);
      { FilterMapAppend(a + b, c, get); }
      FilterMap(a + b + c, get);
    }
  }

  /** An object without the path keys has the same other entries under both lists. */
  lemma SameRemaining(fields: Dict.Dict<Value>)
    requires forall k | k in PathKeys :: k !in Dict.Keys(fields)
    ensures Remaining(fields, ModelFieldKeys) == Remaining(fields, AvatarModelFieldKeys)
  {
    KeyListsDiffer();
    var x, y := PathKeys[..2], PathKeys[2..];
    assert forall k | k in x || k in y :: k in PathKeys;
    AbsentKeysIgnored(fields, AvatarModelFieldKeys[..10], x, AvatarModelFieldKeys[10..15], y, AvatarModelFieldKeys[15..]);
  }

  /** Listing keys the object does not have changes nothing in its other entries. */
  lemma AbsentKeysIgnored(fields: Dict.Dict<Value>, a: seq<string>, x: seq<string>, b: seq<string>, y: seq<string>, c: seq<string>)
    requires forall k | k in x || k in y :: k !in Dict.Keys(fields)
    ensures Remaining(fields, a + x + b + y + c) == Remaining(fields, a + b + c)
  {
    forall i | 0 <= i < |fields| ensures fields[i].0 in a + x + b + y + c <==> fields[i].0 in a + b + c {
      assert Dict.Keys(fields)[i] == fields[i].0;
    }
    RemainingSameKeys(fields, a + x + b + y + c, a + b + c);
  }

  lemma {:induction false} NoneDropped(ks: seq<string>, f: string -> Option<Value>)
    requires forall k | k in ks :: f(k).None?
    ensures FilterMap(ks, f) == []
  {
    if ks != [] {
      NoneDropped(ks[..|ks| - 1], f);
    }
  }

  /**
   * Where no object carries `modelPath`, `model_path`, `assetPath` or
   * `asset_path`, the component's lookup gives the same URL as
   * `getModelUrl`.
   */
  lemma AgreesWithModelUrl(h: Heap, asset: Value, getUrl: UrlBuilder)
    requires NoPathKeys(h)
    ensures AssetUrl(h, asset, getUrl) == ModelUrl(h, asset, getUrl)
  {
    SameChildren(h);
    SameChildrenSameSearch(h, [asset], asset, {}, ClassifierFor(ModelExtensions), ModelFieldKeys, AvatarModelFieldKeys);
  }
}
