/**
 * The URL service of utils/assets.js: `getFileUrlFromRecord`, `getModelUrl`
 * and `getThumbnailUrl`. A resolved `url` reference is used as it is; a
 * `file` reference is turned into a PocketBase file URL through the record
 * it belongs to. `pb.files.getUrl` is a parameter that may fail.
 */
module AssetUrls {
  import opened Wrappers
  import opened ObjectGraph
  import opened FileReference
  import opened Resolver

  const ModelExtensions: seq<string> := [".glb", ".gltf", ".fbx"]
  const ImageExtensions: seq<string> := [".png", ".jpg", ".jpeg", ".webp", ".gif", ".svg"]

  const ModelFieldKeys: seq<string> := [
    "url", "uri", "href", "file", "fileName", "filename", "files",
    "model", "modelFile", "model_file", "modelPath", "model_path", "modelUrl", "model_url",
    "asset", "assetFile", "asset_file", "assetPath", "asset_path", "assetUrl", "asset_url",
    "source", "path", "src", "downloadUrl", "download_url"
  ]

  const ImageFieldKeys: seq<string> := [
    "thumbnail", "thumbnailUrl", "thumbnail_url", "thumbnailFile", "thumbnail_file",
    "thumbnailPath", "thumbnail_path",
    "thumb", "thumbUrl", "thumb_url", "thumbFile", "thumb_file",
    "image", "imageUrl", "image_url", "imageFile", "image_file", "imagePath", "image_path",
    "icon", "iconUrl", "icon_url", "iconFile", "icon_file",
    "cover", "coverUrl", "cover_url",
    "preview", "previewUrl", "preview_url",
    "art", "artUrl", "art_url"
  ]

  /**
   * `pb.files.getUrl(record, fileName)`: the URL of a file of a record, or
   * `None` when the call throws.
   */
  type UrlBuilder = (NodeId, string) -> Option<string>

  /** What a search from `value` under `record` finds, with a fresh `WeakSet`. */
  function Found(h: Heap, record: Value, value: Value, ext: seq<string>, keys: seq<string>): Option<Resolved> {
    ResolveAll(h, [value], record, {}, ClassifierFor(ext), keys).found
  }

  /** `resolvedRecord ?? (hasPocketBaseMetadata(record) ? record : null)`. */
  function Owner(h: Heap, record: Value, resolved: Resolved): Option<NodeId> {
    if resolved.record.Some? then resolved.record else RecordOf(h, record)
  }

  /**
   * `getFileUrlFromRecord(record, value, extensions, fieldKeys)`: nothing when
   * nothing resolves; a `url` reference's value; for a `file` reference the
   * PocketBase URL through its owner record when there is one and the call
   * succeeds, else the reference's value.
   */
  function FileUrlOf(h: Heap, record: Value, value: Value, ext: seq<string>, keys: seq<string>, getUrl: UrlBuilder): Option<string> {
    UrlOf(h, record, Found(h, record, value, ext, keys), getUrl)
  }

  /** The URL `getFileUrlFromRecord` builds once the search has found `found`. */
  function UrlOf(h: Heap, record: Value, found: Option<Resolved>, getUrl: UrlBuilder): Option<string> {
    match found
    case None => None
    case Some(resolved) =>
      var reference := resolved.reference;
      if reference.kind == Url then Some(reference.value)
      else
        var owner := Owner(h, record, resolved);
        if owner.Some? && getUrl(owner.value, reference.fileName).Some? then getUrl(owner.value, reference.fileName)
        else if reference.value != [] then Some(reference.value)
        else None
  }

  /** The method form, with the `WeakSet` it allocates. */
  method GetFileUrlFromRecord(h: Heap, record: Value, value: Value, ext: seq<string>, keys: seq<string>, getUrl: UrlBuilder)
    returns (r: Option<string>)
    ensures r == FileUrlOf(h, record, value, ext, keys, getUrl)
  {
    var visited := new WeakSet();
    var resolved := ResolveFileReference(h, value, record, visited, ext, keys);
    r := UrlOf(h, record, resolved, getUrl);
  }

  // ---------------------------------------------------------------------------
  // Properties of getFileUrlFromRecord
  // ---------------------------------------------------------------------------

  /** A reference comes from a classified string, so its value, that string trimmed, is never empty. */
  lemma FoundIsClassified(h: Heap, record: Value, value: Value, ext: seq<string>, keys: seq<string>)
    ensures var f := Found(h, record, value, ext, keys);
      f.Some? ==> f.value.reference.value != []
  {
    var s := ResolveAll(h, [value], record, {}, ClassifierFor(ext), keys);
    FoundBelowChain(h, [value], record, {}, ClassifierFor(ext), keys);
    if s.found.Some? {
      var str :| Str(str) in Holder(h, keys, [value], s.trail) && ClassifierFor(ext)(str) == Some(s.found.value.reference);
      assert CreateFileReference(Str(str), ext) == Some(s.found.value.reference);
    }
  }

  /** The URL is missing exactly when nothing resolves. */
  lemma FileUrlMissing(h: Heap, record: Value, value: Value, ext: seq<string>, keys: seq<string>, getUrl: UrlBuilder)
    ensures FileUrlOf(h, record, value, ext, keys, getUrl).None? <==> Found(h, record, value, ext, keys).None?
  {
    FoundIsClassified(h, record, value, ext, keys);
  }

  /** A `url` reference is returned as it is, with no call to PocketBase. */
  lemma UrlReferenceUnchanged(h: Heap, record: Value, value: Value, ext: seq<string>, keys: seq<string>, getUrl: UrlBuilder)
    requires Found(h, record, value, ext, keys).Some? && Found(h, record, value, ext, keys).value.reference.kind == Url
    ensures FileUrlOf(h, record, value, ext, keys, getUrl) == Some(Found(h, record, value, ext, keys).value.reference.value)
  {
  }

  /**
   * A `file` reference goes through `getUrl` only when it has an owner
   * record; without one, or when the call fails, the reference's own value
   * is the URL.
   */
  lemma FileReferenceUrl(h: Heap, record: Value, value: Value, ext: seq<string>, keys: seq<string>, getUrl: UrlBuilder)
    requires Found(h, record, value, ext, keys).Some? && Found(h, record, value, ext, keys).value.reference.kind == File
    ensures
      var resolved := Found(h, record, value, ext, keys).value;
      var owner := Owner(h, record, resolved);
      var call := if owner.Some? then getUrl(owner.value, resolved.reference.fileName) else None;
      FileUrlOf(h, record, value, ext, keys, getUrl) == (if call.Some? then call else Some(resolved.reference.value))
  {
    FoundIsClassified(h, record, value, ext, keys);
  }

  /** Without an owner record the URL does not depend on PocketBase at all. */
  lemma NoOwnerNoCall(h: Heap, record: Value, value: Value, ext: seq<string>, keys: seq<string>, g1: UrlBuilder, g2: UrlBuilder)
    requires Found(h, record, value, ext, keys).Some?
    requires Owner(h, record, Found(h, record, value, ext, keys).value).None?
    ensures FileUrlOf(h, record, value, ext, keys, g1) == FileUrlOf(h, record, value, ext, keys, g2)
  {
  }

  /** The record of a search that found no record inside it is the context's, when that is one. */
  lemma {:induction false} NearestFallsBack(h: Heap, trail: seq<NodeId>, ctx: Value)
    ensures Nearest(h, trail, ctx).None? ==> RecordOf(h, ctx).None?
    decreases |trail|
  {
    if trail != [] {
      NearestFallsBack(h, trail[..|trail| - 1], ctx);
    }
  }

  /**
   * The fallback to `record` in the owner is never needed: the search
   * already reports `record` when no record encloses the reference.
   */
  lemma OwnerIsResolvedRecord(h: Heap, record: Value, value: Value, ext: seq<string>, keys: seq<string>)
    requires Found(h, record, value, ext, keys).Some?
    ensures var resolved := Found(h, record, value, ext, keys).value;
      Owner(h, record, resolved) == resolved.record
  {
    var s := ResolveAll(h, [value], record, {}, ClassifierFor(ext), keys);
    FoundBelowChain(h, [value], record, {}, ClassifierFor(ext), keys);
    NearestFallsBack(h, s.trail, record);
  }

  /** Nothing resolves from `null` or `undefined`, so no URL. */
  lemma NullishHasNoUrl(h: Heap, record: Value, value: Value, ext: seq<string>, keys: seq<string>, getUrl: UrlBuilder)
    requires IsNullish(value)
    ensures FileUrlOf(h, record, value, ext, keys, getUrl) == None
  {
    ScalarResolvesNothing(h, value, record, {}, ClassifierFor(ext), keys);
  }

  // ---------------------------------------------------------------------------
  // getModelUrl and getThumbnailUrl
  // ---------------------------------------------------------------------------

  /** `getModelUrl(asset)`: the model file found anywhere in the asset, the asset being its own record. */
  function ModelUrl(h: Heap, asset: Value, getUrl: UrlBuilder): Option<string> {
    FileUrlOf(h, asset, asset, ModelExtensions, ModelFieldKeys, getUrl)
  }

  method GetModelUrl(h: Heap, asset: Value, getUrl: UrlBuilder) returns (r: Option<string>)
    ensures r == ModelUrl(h, asset, getUrl)
    ensures IsNullish(asset) ==> r == None
  {
    r := GetFileUrlFromRecord(h, asset, asset, ModelExtensions, ModelFieldKeys, getUrl);
    if IsNullish(asset) {
      NullishHasNoUrl(h, asset, asset, ModelExtensions, ModelFieldKeys, getUrl);
    }
  }

  /** `asset?.thumbnail`, `asset?.thumb`, `asset?.image`, `asset?.icons?.inactive`, `asset?.icons?.active`. */
  function ThumbnailSources(h: Heap, asset: Value): (r: seq<Value>)
    ensures |r| == 5
  {
    var icons := Prop(h, asset, "icons");
    [Prop(h, asset, "thumbnail"), Prop(h, asset, "thumb"), Prop(h, asset, "image"), Prop(h, icons, "inactive"), Prop(h, icons, "active")]
  }

  /** `source ?? asset`. */
  function SourceOrAsset(source: Value, asset: Value): Value {
    if IsNullish(source) then asset else source
  }

  /** A URL that JavaScript takes as true: present and not empty. */
  predicate IsUrl(u: Option<string>) {
    u.Some? && u.value != []
  }

  /** The image URL found from one source, with the asset as the record. */
  function ImageUrlFrom(h: Heap, asset: Value, source: Value, getUrl: UrlBuilder): Option<string> {
    FileUrlOf(h, asset, SourceOrAsset(source, asset), ImageExtensions, ImageFieldKeys, getUrl)
  }

  /** The first source that yields a URL, else the whole-asset scan. */
  function FirstImageUrl(h: Heap, asset: Value, sources: seq<Value>, getUrl: UrlBuilder): Option<string> {
    if sources == [] then FileUrlOf(h, asset, asset, ImageExtensions, ImageFieldKeys, getUrl)
    else
      var url := ImageUrlFrom(h, asset, sources[0], getUrl);
      if IsUrl(url) then url else FirstImageUrl(h, asset, sources[1..], getUrl)
  }

  /** `getThumbnailUrl(asset)`. */
  function ThumbnailUrl(h: Heap, asset: Value, getUrl: UrlBuilder): Option<string> {
    FirstImageUrl(h, asset, ThumbnailSources(h, asset), getUrl)
  }

  method GetThumbnailUrl(h: Heap, asset: Value, getUrl: UrlBuilder) returns (r: Option<string>)
    ensures r == ThumbnailUrl(h, asset, getUrl)
  {
    r := TrySources(h, asset, ThumbnailSources(h, asset), getUrl);
  }

  /** The loop of `getThumbnailUrl` over its sources, then the whole-asset scan. */
  method TrySources(h: Heap, asset: Value, sources: seq<Value>, getUrl: UrlBuilder) returns (r: Option<string>)
    ensures r == FirstImageUrl(h, asset, sources, getUrl)
  {
    var k := 0;
    while k < |sources|
      invariant 0 <= k <= |sources|
      invariant FirstImageUrl(h, asset, sources[k..], getUrl) == FirstImageUrl(h, asset, sources, getUrl)
    {
      var url := TrySource(h, asset, sources[k], getUrl);
      FirstImageUrlStep(h, asset, sources, k, getUrl);
      if url.Some? && url.value != [] {
        return url;
      }
      k := k + 1;
    }
    assert sources[k..] == [];
    r := GetFileUrlFromRecord(h, asset, asset, ImageExtensions, ImageFieldKeys, getUrl);
  }

  /** `getFileUrlFromRecord(asset, source ?? asset, IMAGE_EXTENSIONS, IMAGE_FIELD_KEYS)`. */
  method TrySource(h: Heap, asset: Value, source: Value, getUrl: UrlBuilder) returns (url: Option<string>)
    ensures url == ImageUrlFrom(h, asset, source, getUrl)
  {
    var value := if IsNullish(source) then asset else source;
    url := GetFileUrlFromRecord(h, asset, value, ImageExtensions, ImageFieldKeys, getUrl);
  }

  /** Trying source `k`: its URL when it yields one, else what the later sources give. */
  lemma FirstImageUrlStep(h: Heap, asset: Value, sources: seq<Value>, k: nat, getUrl: UrlBuilder)
    requires k < |sources|
    ensures FirstImageUrl(h, asset, sources[k..], getUrl) ==
      var url := ImageUrlFrom(h, asset, sources[k], getUrl);
      if IsUrl(url) then url else FirstImageUrl(h, asset, sources[k + 1..], getUrl)
  {
    assert sources[k..][0] == sources[k];
    assert sources[k..][1..] == sources[k + 1..];
  }

  /** The sources are tried in order: the URL is that of the first source that yields one. */
  lemma {:induction false} FirstImageUrlAt(h: Heap, asset: Value, sources: seq<Value>, getUrl: UrlBuilder, i: nat)
    requires i < |sources| && IsUrl(ImageUrlFrom(h, asset, sources[i], getUrl))
    requires forall j | 0 <= j < i :: !IsUrl(ImageUrlFrom(h, asset, sources[j], getUrl))
    ensures FirstImageUrl(h, asset, sources, getUrl) == ImageUrlFrom(h, asset, sources[i], getUrl)
    decreases i
  {
    if i > 0 {
      var rest := sources[1..];
      assert !IsUrl(ImageUrlFrom(h, asset, sources[0], getUrl));
      assert FirstImageUrl(h, asset, sources, getUrl) == FirstImageUrl(h, asset, rest, getUrl);
      assert rest[i - 1] == sources[i];
      assert forall j | 0 <= j < i - 1 :: rest[j] == sources[j + 1];
      FirstImageUrlAt(h, asset, rest, getUrl, i - 1);
    }
  }

  /** Only when no source yields a URL is the whole asset scanned. */
  lemma {:induction false} FirstImageUrlNone(h: Heap, asset: Value, sources: seq<Value>, getUrl: UrlBuilder)
    requires forall i | 0 <= i < |sources| :: !IsUrl(ImageUrlFrom(h, asset, sources[i], getUrl))
    ensures FirstImageUrl(h, asset, sources, getUrl) == FileUrlOf(h, asset, asset, ImageExtensions, ImageFieldKeys, getUrl)
    decreases |sources|
  {
    if sources != [] {
      var rest := sources[1..];
      assert forall j | 0 <= j < |rest| :: rest[j] == sources[j + 1];
      FirstImageUrlNone(h, asset, rest, getUrl);
    }
  }

  /** With none of the five sources present, every attempt is the whole-asset scan. */
  lemma MissingSourcesScanAsset(h: Heap, asset: Value, getUrl: UrlBuilder)
    requires forall v | v in ThumbnailSources(h, asset) :: IsNullish(v)
    ensures ThumbnailUrl(h, asset, getUrl) == FileUrlOf(h, asset, asset, ImageExtensions, ImageFieldKeys, getUrl)
  {
    var sources := ThumbnailSources(h, asset);
    var whole := FileUrlOf(h, asset, asset, ImageExtensions, ImageFieldKeys, getUrl);
    forall i | 0 <= i < |sources| ensures ImageUrlFrom(h, asset, sources[i], getUrl) == whole {
      assert sources[i] in sources;
    }
    if IsUrl(whole) {
      FirstImageUrlAt(h, asset, sources, getUrl, 0);
    } else {
      FirstImageUrlNone(h, asset, sources, getUrl);
    }
  }
}
