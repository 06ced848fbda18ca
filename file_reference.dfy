/**
 * `createFileReference`: deciding whether a string names a file with one of
 * the allowed extensions, and whether it is a URL or a bare file name to be
 * resolved against a PocketBase record.
 */
module FileReference {
  import opened Wrappers
  import opened Strings
  import opened ObjectGraph

  datatype Kind = Url | File

  /** `{ type, value, fileName }`. */
  datatype FileRef = FileRef(kind: Kind, value: string, fileName: string)

  /** The part of a reference before its fragment, and then before its query. */
  function PathPart(trimmed: string): (r: string)
    ensures |r| <= |trimmed| && r == trimmed[..|r|]
    ensures '#' !in r && '?' !in r
  {
    var withoutFragment := BeforeFirst(trimmed, '#');
    var withoutQuery := BeforeFirst(withoutFragment, '?');
    assert withoutQuery == trimmed[..|withoutQuery|];
    withoutQuery
  }

  /** The first allowed extension the lower-cased path ends with. */
  function MatchedExtension(path: string, extensions: seq<string>): (r: Option<string>)
    ensures r.Some? <==> exists e | e in extensions :: EndsWith(ToLower(path), e)
    ensures r.Some? ==> r.value in extensions && EndsWith(ToLower(path), r.value)
  {
    var lower := ToLower(path);
    var r := FindFirst(extensions, (e: string) => EndsWith(lower, e));
    assert r.Some? ==> exists i | 0 <= i < |extensions| :: r.value == extensions[i];
    r
  }

  /** `/^https?:\/\//`. */
  predicate IsAbsoluteUrl(t: string) {
    StartsWith(t, "http://") || StartsWith(t, "https://")
  }

  /** Starts with one `/` but not with `//`. */
  predicate IsRelativeUrl(t: string) {
    StartsWith(t, "/") && !StartsWith(t, "//")
  }

  /**
   * The `url` / `file` decision. The absolute and relative cases both
   * contain a `/`, so the decision comes down to the separator alone.
   */
  function KindOf(trimmed: string): (k: Kind)
    ensures k == Url <==> '/' in trimmed
  {
    UrlFormsHaveSlash(trimmed);
    if IsAbsoluteUrl(trimmed) || IsRelativeUrl(trimmed) || '/' in trimmed then Url else File
  }

  lemma UrlFormsHaveSlash(t: string)
    ensures IsAbsoluteUrl(t) || IsRelativeUrl(t) ==> '/' in t
  {
    if StartsWith(t, "http://") {
      assert t[..7][5] == '/';
    } else if StartsWith(t, "https://") {
      assert t[..8][6] == '/';
    } else if IsRelativeUrl(t) {
      assert t[..1][0] == '/';
    }
  }

  function CreateFileReference(v: Value, extensions: seq<string>): (r: Option<FileRef>)
    ensures !v.Str? ==> r.None?
    ensures v.Str? && IsBlank(v.s) ==> r.None?
    ensures r.Some? ==>
      && v.Str?
      && r.value.value == Trim(v.s) && r.value.value != []
      && (r.value.kind == Url <==> '/' in r.value.value)
    ensures r.Some? ==>
      var path := PathPart(r.value.value);
      && (exists e | e in extensions :: EndsWith(ToLower(path), e))
      && r.value.fileName != [] && EndsWith(path, r.value.fileName)
      && '/' !in r.value.fileName && '?' !in r.value.fileName && '#' !in r.value.fileName
      && (|r.value.fileName| < |path| ==> path[|path| - |r.value.fileName| - 1] == '/')
    ensures r.Some? ==>
      && r.value.fileName == AfterLast(PathPart(r.value.value), '/')
      && MatchedExtension(PathPart(r.value.value), extensions).Some?
    ensures v.Str? && !IsBlank(v.s)
      && (exists e | e in extensions :: EndsWith(ToLower(PathPart(Trim(v.s))), e))
      && AfterLast(PathPart(Trim(v.s)), '/') != []
      ==> r.Some?
  {
    if !v.Str? then None
    else
      var trimmed := Trim(v.s);
      if trimmed == [] then None
      else
        var path := PathPart(trimmed);
        if MatchedExtension(path, extensions).None? then None
        else
          var fileName := AfterLast(path, '/');
          if fileName == [] then None
          else Some(FileRef(KindOf(trimmed), trimmed, fileName))
  }

  /**
   * The file name keeps the extension: when the path ends with an extension
   * holding no `/` (true of all the configured ones), so does its last
   * segment, case aside.
   */
  lemma FileNameHasExtension(path: string, e: string)
    requires EndsWith(ToLower(path), e) && '/' !in e
    ensures EndsWith(ToLower(AfterLast(path, '/')), e)
  {
    SuffixKeepsExtension(path, AfterLast(path, '/'), e);
  }

  /**
   * `f` is the last `/`-separated part of `path`: an extension without `/`
   * that `path` ends with lies inside it.
   */
  lemma SuffixKeepsExtension(path: string, f: string, e: string)
    requires |f| <= |path| && f == path[|path| - |f|..] && '/' !in f
    requires |f| < |path| ==> path[|path| - |f| - 1] == '/'
    requires EndsWith(ToLower(path), e) && '/' !in e
    ensures EndsWith(ToLower(f), e)
  {
    var lower := ToLower(path);
    var n := |f|;
    ExtensionWithinSegment(path, f, e);
    var tail := path[|path| - |e|..];
    assert f[n - |e|..] == tail;
    calc {
      ToLower(f)[n - |e|..];
      { LowerSuffix(f, |e|); }
      ToLower(tail);
      { LowerSuffix(path, |e|); }
      lower[|path| - |e|..];
    }
  }

  /** An extension without `/` that the path ends with is no longer than the last segment. */
  lemma ExtensionWithinSegment(path: string, f: string, e: string)
    requires |f| <= |path| && '/' !in f
    requires |f| < |path| ==> path[|path| - |f| - 1] == '/'
    requires EndsWith(ToLower(path), e) && '/' !in e
    ensures |e| <= |f|
  {
  }

  lemma LowerSuffix(s: string, k: nat)
    requires k <= |s|
    ensures ToLower(s)[|s| - k..] == ToLower(s[|s| - k..])
  {
    var a, b := ToLower(s)[|s| - k..], ToLower(s[|s| - k..]);
    assert |a| == |b|;
    forall i | 0 <= i < k ensures a[i] == b[i] {
      assert a[i] == ToLower(s)[|s| - k + i];
    }
  }
}
