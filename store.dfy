/**
 * The configurator store of store.js: the fetched categories, the current
 * customization, the lock table, the UI mode and pose, and the actions that
 * update them. The store keeps two invariants: the lock table is the one
 * `applyLockedAssets` computes from the customization, and (for uniquely
 * named categories) no two equipped categories share a layer.
 */
module Store {
  import opened Wrappers
  import opened Json
  import Dict
  import opened Catalog
  import opened Layers
  import opened LayerRules
  import opened Locks

  /** `UI_MODES`. */
  datatype Mode = Photo | Customize

  /** `PHOTO_POSES`. */
  datatype Pose = Idle | Chill | Cool | Punch | Ninja | King | Busy

  /** The colour the skin material is created with (`0xf5c6a5`). */
  const InitialSkin: string := "#f5c6a5"

  // ---------------------------------------------------------------------------
  // fetchCategories: default selection
  // ---------------------------------------------------------------------------

  /** `assets.filter((asset) => asset.group === category.id)`. */
  function AssetsOf(assets: seq<Asset>, id: string): seq<Asset> {
    if assets == [] then []
    else
      var rest := AssetsOf(assets[1..], id);
      if Field(assets[0], "group") == Str(id) then [assets[0]] + rest else rest
  }

  /** A category's assets are exactly the fetched assets whose `group` is its id. */
  lemma {:induction false} AssetsOfMembers(assets: seq<Asset>, id: string, a: Asset)
    ensures a in AssetsOf(assets, id) <==> a in assets && Field(a, "group") == Str(id)
  {
    if assets != [] {
      assert assets == [assets[0]] + assets[1..];
      AssetsOfMembers(assets[1..], id, a);
    }
  }

  /** `category.assets = assets.filter(...)`: the category with the assets of its group attached. */
  function Attach(cat: Category, assets: seq<Asset>): Category {
    cat.(assets := AssetsOf(assets, cat.id))
  }

  /** The asset's `id` is the category's `startingAsset`. */
  predicate IsStarting(cat: Category, a: Asset) {
    Field(a, "id") == Str(cat.startingAsset)
  }

  /** `asset?.isDefault` is truthy. */
  predicate IsDefaultFlagged(a: Asset) {
    Truthy(Field(a, "isDefault"))
  }

  /** `asset?.type === "avatar"`. */
  predicate IsAvatar(a: Asset) {
    Field(a, "type") == Str("avatar")
  }

  /** No asset is picked by `startingAsset`: none is named, or none has that id. */
  predicate NoStarting(cat: Category) {
    cat.startingAsset == "" || forall i | 0 <= i < |cat.assets| :: !IsStarting(cat, cat.assets[i])
  }

  /**
   * The default asset of a category: the asset named by `startingAsset`,
   * else the first flagged `isDefault`, else the first of type "avatar",
   * else the first asset of a non-removable category, else none.
   */
  function DefaultAsset(cat: Category): Option<Asset> {
    var starting := if cat.startingAsset != "" then FindFirst(cat.assets, (a: Asset) => IsStarting(cat, a)) else None;
    if starting.Some? then starting
    else
      match FindFirst(cat.assets, IsDefaultFlagged)
      case Some(a) => Some(a)
      case None =>
        match FindFirst(cat.assets, IsAvatar)
        case Some(a) => Some(a)
        case None => if !cat.removable && |cat.assets| > 0 then Some(cat.assets[0]) else None
  }

  /** The default is one of the category's assets, and there is none exactly when no rule applies. */
  lemma DefaultAssetCases(cat: Category)
    ensures DefaultAsset(cat).Some? ==> DefaultAsset(cat).value in cat.assets
    ensures DefaultAsset(cat).None? <==>
      && NoStarting(cat)
      && (forall i | 0 <= i < |cat.assets| :: !IsDefaultFlagged(cat.assets[i]) && !IsAvatar(cat.assets[i]))
      && (cat.removable || cat.assets == [])
  {
  }

  /** The asset named by `startingAsset` wins: the first asset with that id. */
  lemma DefaultIsStarting(cat: Category, i: nat)
    requires cat.startingAsset != ""
    requires i < |cat.assets| && IsStarting(cat, cat.assets[i])
    requires forall k | 0 <= k < i :: !IsStarting(cat, cat.assets[k])
    ensures DefaultAsset(cat) == Some(cat.assets[i])
  {
    FindFirstAt(cat.assets, (a: Asset) => IsStarting(cat, a), i);
  }

  /** Without a starting asset, the first asset flagged `isDefault` wins. */
  lemma DefaultIsFlagged(cat: Category, i: nat)
    requires NoStarting(cat)
    requires i < |cat.assets| && IsDefaultFlagged(cat.assets[i])
    requires forall k | 0 <= k < i :: !IsDefaultFlagged(cat.assets[k])
    ensures DefaultAsset(cat) == Some(cat.assets[i])
  {
    FindFirstAt(cat.assets, IsDefaultFlagged, i);
  }

  /** Without a starting or flagged asset, the first avatar asset wins. */
  lemma DefaultIsAvatar(cat: Category, i: nat)
    requires NoStarting(cat)
    requires forall k | 0 <= k < |cat.assets| :: !IsDefaultFlagged(cat.assets[k])
    requires i < |cat.assets| && IsAvatar(cat.assets[i])
    requires forall k | 0 <= k < i :: !IsAvatar(cat.assets[k])
    ensures DefaultAsset(cat) == Some(cat.assets[i])
  {
    FindFirstAt(cat.assets, IsAvatar, i);
  }

  /** Otherwise a non-removable category with assets gets its first one. */
  lemma DefaultIsFirst(cat: Category)
    requires NoStarting(cat)
    requires forall k | 0 <= k < |cat.assets| :: !IsDefaultFlagged(cat.assets[k]) && !IsAvatar(cat.assets[k])
    requires !cat.removable && cat.assets != []
    ensures DefaultAsset(cat) == Some(cat.assets[0])
  {
  }

  /** `category.expand?.colorPalette?.colors?.[0] || ""`. */
  function DefaultColor(cat: Category): string {
    if cat.palette != [] then cat.palette[0] else ""
  }

  /** `{ color: defaultColor }`, with `asset` set when the default asset is truthy. */
  function DefaultEntry(cat: Category): Entry {
    var d := DefaultAsset(cat);
    Entry(if d.Some? && Truthy(d.value) then d.value else Undefined, Some(DefaultColor(cat)))
  }

  /** The default entry of every category. */
  function Defaults(cats: seq<Category>): (es: seq<Entry>)
    ensures |es| == |cats|
  {
    seq(|cats|, i requires 0 <= i < |cats| => DefaultEntry(cats[i]))
  }

  /** `customization[category.name] = entry` for each category in order. */
  function Assemble(cats: seq<Category>, es: seq<Entry>): Customization
    requires |es| == |cats|
  {
    if cats == [] then []
    else Dict.Put(Assemble(cats[..|cats| - 1], es[..|cats| - 1]), cats[|cats| - 1].name, es[|cats| - 1])
  }

  lemma AssembleSnoc(cats: seq<Category>, es: seq<Entry>, cat: Category, e: Entry)
    requires |es| == |cats|
    ensures Assemble(cats + [cat], es + [e]) == Dict.Put(Assemble(cats, es), cat.name, e)
  {
    assert (cats + [cat])[..|cats|] == cats;
    assert (es + [e])[..|cats|] == es;
  }

  lemma DrawStep(cats: seq<Category>, i: nat, es: seq<Entry>, e: Entry)
    requires i < |cats| && |es| == i
    ensures Assemble(cats[..i + 1], es + [e]) == Dict.Put(Assemble(cats[..i], es), cats[i].name, e)
  {
    assert cats[..i + 1] == cats[..i] + [cats[i]];
    AssembleSnoc(cats[..i], es, cats[i], e);
  }

  lemma DrawnStep(cats: seq<Category>, i: nat, es: seq<Entry>, e: Entry)
    requires i < |cats| && |es| == i
    requires forall k | 0 <= k < i :: Drawn(cats[k], es[k])
    requires Drawn(cats[i], e)
    ensures forall k | 0 <= k < i + 1 :: Drawn(cats[k], (es + [e])[k])
  {
  }

  lemma DefaultPrefixStep(cats: seq<Category>, i: nat)
    requires i < |cats|
    ensures Assemble(cats[..i + 1], Defaults(cats[..i + 1])) == Dict.Put(Assemble(cats[..i], Defaults(cats[..i])), cats[i].name, DefaultEntry(cats[i]))
  {
    assert cats[..i + 1] == cats[..i] + [cats[i]];
    DefaultStep(cats[..i], cats[i]);
  }

  lemma DefaultStep(cats: seq<Category>, cat: Category)
    ensures Assemble(cats + [cat], Defaults(cats + [cat])) == Dict.Put(Assemble(cats, Defaults(cats)), cat.name, DefaultEntry(cat))
  {
    assert Defaults(cats + [cat]) == Defaults(cats) + [DefaultEntry(cat)];
    AssembleSnoc(cats, Defaults(cats), cat, DefaultEntry(cat));
  }

  /** With unique names, each category's entry is the one given for it, and nothing else is keyed. */
  lemma AssembleGet(cats: seq<Category>, es: seq<Entry>)
    requires WellNamed(cats)
    requires |es| == |cats|
    ensures forall i | 0 <= i < |cats| :: Dict.Get(Assemble(cats, es), cats[i].name) == Some(es[i])
    ensures forall k :: Dict.Get(Assemble(cats, es), k).Some? <==> exists i | 0 <= i < |cats| :: cats[i].name == k
  {
    AssembleEntries(cats, es);
    forall k
      ensures Dict.Get(Assemble(cats, es), k).Some? <==> exists i | 0 <= i < |cats| :: cats[i].name == k
    {
      AssembleKey(cats, es, k);
      if k in Names(cats) {
        var i :| 0 <= i < |cats| && Names(cats)[i] == k;
        assert cats[i].name == k;
      }
    }
  }

  lemma {:induction false} AssembleEntries(cats: seq<Category>, es: seq<Entry>)
    requires WellNamed(cats)
    requires |es| == |cats|
    ensures forall i | 0 <= i < |cats| :: Dict.Get(Assemble(cats, es), cats[i].name) == Some(es[i])
  {
    if cats != [] {
      var n := |cats| - 1;
      assert WellNamed(cats[..n]);
      AssembleEntries(cats[..n], es[..n]);
      forall i | 0 <= i < n
        ensures Dict.Get(Assemble(cats, es), cats[i].name) == Some(es[i])
      {
        assert cats[..n][i] == cats[i] && es[..n][i] == es[i];
        assert cats[i].name != cats[n].name;
      }
    }
  }

  /** The category names in list order. */
  function Names(cats: seq<Category>): (r: seq<string>)
    ensures |r| == |cats| && forall i | 0 <= i < |cats| :: r[i] == cats[i].name
  {
    seq(|cats|, i requires 0 <= i < |cats| => cats[i].name)
  }

  lemma AssembleLast(cats: seq<Category>, es: seq<Entry>)
    requires |es| == |cats| && cats != []
    ensures var n := |cats| - 1;
      Assemble(cats, es) == Dict.Put(Assemble(cats[..n], es[..n]), cats[n].name, es[n])
  {
  }

  /** The keys of an assembled customization are the category names, and only those. */
  lemma {:induction false} AssembleKey(cats: seq<Category>, es: seq<Entry>, k: string)
    requires |es| == |cats|
    ensures k in Dict.Keys(Assemble(cats, es)) <==> k in Names(cats)
  {
    if cats != [] {
      var n := |cats| - 1;
      AssembleLast(cats, es);
      NamesLast(cats);
      AssembleKey(cats[..n], es[..n], k);
    }
  }

  lemma NamesLast(cats: seq<Category>)
    requires cats != []
    ensures Names(cats) == Names(cats[..|cats| - 1]) + [cats[|cats| - 1].name]
  {
    var n := |cats| - 1;
    var a := Names(cats);
    var b := Names(cats[..n]) + [cats[n].name];
    forall i | 0 <= i < |a| ensures a[i] == b[i] {
      if i < n {
        assert cats[..n][i] == cats[i];
      }
    }
  }

  /** `Head?.color ?? head?.color`. */
  function HeadColor(c: Customization): Option<string> {
    var head := match Dict.Get(c, "Head") case Some(e) => e.color case None => None;
    if head.Some? then head
    else match Dict.Get(c, "head") case Some(e) => e.color case None => None
  }

  // ---------------------------------------------------------------------------
  // changeAsset and updateColor
  // ---------------------------------------------------------------------------

  /** The colour an entry holds, if any. */
  function ColorOf(c: Customization, name: string): Option<string> {
    match Dict.Get(c, name) case Some(e) => e.color case None => None
  }

  /** `{ ...customization, [name]: { ...customization[name], asset } }`. */
  function Select(c: Customization, name: string, asset: Asset): (r: Customization)
    ensures Dict.Get(r, name) == Some(Entry(asset, ColorOf(c, name)))
    ensures forall k | k != name :: Dict.Get(r, k) == Dict.Get(c, k)
    ensures Dict.Keys(r) == if name in Dict.Keys(c) then Dict.Keys(c) else Dict.Keys(c) + [name]
  {
    Dict.Put(c, name, Entry(asset, ColorOf(c, name)))
  }

  /** `{ ...customization, [name]: { ...customization[name], color } }`: the asset stays. */
  function Recolor(c: Customization, name: string, color: string): (r: Customization)
    ensures Dict.Get(r, name) == Some(Entry(AssetOf(c, name), Some(color)))
    ensures forall k | k != name :: Dict.Get(r, k) == Dict.Get(c, k)
    ensures forall k :: AssetOf(r, k) == AssetOf(c, k)
    ensures Dict.Keys(r) == if name in Dict.Keys(c) then Dict.Keys(c) else Dict.Keys(c) + [name]
  {
    Dict.Put(c, name, Entry(AssetOf(c, name), Some(color)))
  }

  /** `getLayerIds(asset, categories.find((category) => category.name === name))`. */
  function TargetLayers(cats: seq<Category>, name: string, asset: Asset): seq<Json> {
    LayerIds(asset, FindFirst(cats, (cat: Category) => cat.name == name))
  }

  // ---------------------------------------------------------------------------
  // randomize
  // ---------------------------------------------------------------------------

  /** `randInt(lo, hi)`: some integer of the inclusive range. */
  method RandInt(lo: int, hi: int) returns (k: int)
    requires lo <= hi
    ensures lo <= k <= hi
  {
    assert lo <= lo <= hi;
    k :| lo <= k <= hi;
  }

  /** What `randomize` may draw for a category. */
  predicate Drawn(cat: Category, e: Entry) {
    && (e.asset in cat.assets || (e.asset == Null && (cat.assets == [] || cat.removable)))
    && e.color.Some?
    && (if cat.palette == [] then e.color.value == "" else e.color.value in cat.palette)
  }

  /**
   * One category of `randomize`: a random asset of its own list, dropped
   * again one time in `length + 1` when the category is removable, and a
   * random palette colour ("" without a palette).
   */
  method Draw(cat: Category) returns (e: Entry)
    ensures Drawn(cat, e)
    ensures !cat.removable && cat.assets != [] ==> e.asset in cat.assets
    ensures cat.assets == [] ==> e.asset == Null
  {
    var asset: Asset := Null;
    if |cat.assets| > 0 {
      var k := RandInt(0, |cat.assets| - 1);
      asset := cat.assets[k];
      if cat.removable {
        var drop := RandInt(0, |cat.assets|);
        if drop == 0 {
          asset := Null;
        }
      }
    }
    var color := "";
    if |cat.palette| > 0 {
      var k := RandInt(0, |cat.palette| - 1);
      color := cat.palette[k];
    }
    e := Entry(asset, Some(color));
  }

  /** Every category with the assets of its group attached. */
  function AttachAll(fetched: seq<Category>, assets: seq<Asset>): (cats: seq<Category>)
    ensures |cats| == |fetched|
  {
    seq(|fetched|, k requires 0 <= k < |fetched| => Attach(fetched[k], assets))
  }

  /**
   * The `categories.forEach` of `fetchCategories`: each category, with its
   * assets attached, records its default entry under its name.
   */
  method DefaultCustomization(cats: seq<Category>) returns (initial: Customization)
    ensures initial == Assemble(cats, Defaults(cats))
  {
    initial := [];
    var i := 0;
    while i < |cats|
      invariant 0 <= i <= |cats|
      invariant initial == Assemble(cats[..i], Defaults(cats[..i]))
    {
      DefaultPrefixStep(cats, i);
      initial := Dict.Put(initial, cats[i].name, DefaultEntry(cats[i]));
      i := i + 1;
    }
    assert cats[..i] == cats;
  }

  /** The categories and customization `fetchCategories` stores. */
  method Defaulted(fetched: seq<Category>, fetchedAssets: seq<Asset>) returns (cats: seq<Category>, normalized: Customization)
    ensures cats == AttachAll(fetched, fetchedAssets)
    ensures normalized == LayerRulesResult(Assemble(cats, Defaults(cats)), cats)
    ensures WellNamed(cats) ==> Exclusive(normalized, cats)
  {
    cats := AttachAll(fetched, fetchedAssets);
    var initial := DefaultCustomization(cats);
    normalized := ApplyLayerRules(initial, cats);
    if WellNamed(cats) {
      LayerRulesExclusive(initial, cats);
    }
  }

  /** The `categories.forEach` of `randomize`: draw an entry for each category and record it under its name. */
  method DrawAll(cats: seq<Category>) returns (drawn: Customization, ghost es: seq<Entry>)
    ensures |es| == |cats| && forall k | 0 <= k < |cats| :: Drawn(cats[k], es[k])
    ensures drawn == Assemble(cats, es)
  {
    drawn := [];
    es := [];
    var i := 0;
    while i < |cats|
      invariant 0 <= i <= |cats|
      invariant |es| == i
      invariant forall k | 0 <= k < i :: Drawn(cats[k], es[k])
      invariant drawn == Assemble(cats[..i], es)
    {
      var e := Draw(cats[i]);
      DrawStep(cats, i, es, e);
      DrawnStep(cats, i, es, e);
      drawn := Dict.Put(drawn, cats[i].name, e);
      es := es + [e];
      i := i + 1;
    }
    assert cats[..i] == cats;
  }

  /** The customization `randomize` stores: the drawn entries with the layer rules applied. */
  method Randomized(cats: seq<Category>) returns (normalized: Customization, ghost es: seq<Entry>)
    ensures |es| == |cats| && forall k | 0 <= k < |cats| :: Drawn(cats[k], es[k])
    ensures normalized == LayerRulesResult(Assemble(cats, es), cats)
    ensures WellNamed(cats) ==> Exclusive(normalized, cats)
  {
    var drawn;
    drawn, es := DrawAll(cats);
    normalized := ApplyLayerRules(drawn, cats);
    if WellNamed(cats) {
      LayerRulesExclusive(drawn, cats);
    }
  }

  /** The customization `changeAsset` stores before the locks are recomputed. */
  method Changed(c: Customization, cats: seq<Category>, name: string, asset: Asset) returns (updated: Customization)
    requires WellNamed(cats) ==> Exclusive(c, cats)
    ensures WellNamed(cats) ==> Exclusive(updated, cats)
    ensures IsNullish(asset) ==> updated == Select(c, name, asset)
    ensures !IsNullish(asset) ==>
      && Dict.Keys(updated) == Dict.Keys(Select(c, name, asset))
      && forall k :: Dict.Get(updated, k) == ClearedEntry(Select(c, name, asset), cats, |cats|, name, TargetLayers(cats, name, asset), k)
  {
    var next := Select(c, name, asset);
    if IsNullish(asset) {
      if WellNamed(cats) {
        DeselectKeepsExclusive(c, cats, name, asset);
      }
      updated := next;
    } else {
      var targetCategory := FindFirst(cats, (cat: Category) => cat.name == name);
      var targetLayers := LayerIds(asset, targetCategory);
      updated := ClearLayerConflicts(next, cats, name, targetLayers);
      if WellNamed(cats) {
        SelectKeepsExclusive(c, cats, name, asset, updated);
      }
    }
  }

  // ---------------------------------------------------------------------------
  // What the actions preserve
  // ---------------------------------------------------------------------------

  lemma EquippedAtAsset(c: Customization, cats: seq<Category>, i: nat)
    requires i < |cats|
    ensures EquippedAt(c, cats, i) <==> Truthy(AssetOf(c, cats[i].name))
  {
  }

  /** Exclusivity depends only on the assets the categories hold. */
  lemma SameAssetsExclusive(c: Customization, d: Customization, cats: seq<Category>)
    requires Exclusive(c, cats)
    requires forall i | 0 <= i < |cats| :: AssetOf(d, cats[i].name) == AssetOf(c, cats[i].name)
    ensures Exclusive(d, cats)
  {
    forall i | 0 <= i < |cats| ensures EquippedAt(d, cats, i) == EquippedAt(c, cats, i) && LayersAt(d, cats, i) == LayersAt(c, cats, i) {
      EquippedAtAsset(c, cats, i);
      EquippedAtAsset(d, cats, i);
    }
  }

  /** The lock table depends only on the keys and assets of the entries. */
  lemma {:induction false} RequestsSameAssets(c: Customization, d: Customization, cats: seq<Category>)
    requires |c| == |d|
    requires forall i | 0 <= i < |c| :: c[i].0 == d[i].0 && c[i].1.asset == d[i].1.asset
    ensures Requests(c, cats) == Requests(d, cats)
  {
    if c != [] {
      var n := |c| - 1;
      RequestsSameAssets(c[..n], d[..n], cats);
    }
  }

  /** Recolouring an entry leaves the lock table as it was. */
  lemma RecolorKeepsLocks(c: Customization, cats: seq<Category>, name: string, color: string)
    ensures LockedGroupsOf(Recolor(c, name, color), cats) == LockedGroupsOf(c, cats)
  {
    var r := Recolor(c, name, color);
    var i := Dict.IndexOf(Dict.Keys(c), name);
    if i < |c| {
      assert r == c[i := (name, Entry(c[i].1.asset, Some(color)))];
      RequestsSameAssets(c, r, cats);
      assert Requests(r, cats) == Requests(c, cats);
    } else {
      assert r == c + [(name, Entry(Undefined, Some(color)))];
      FlatMapSnoc(c, (name, Entry(Undefined, Some(color))), (e: (string, Entry)) => EntryRequests(cats, e.0, e.1));
      assert EntryRequests(cats, name, Entry(Undefined, Some(color))) == [];
      assert Requests(r, cats) == Requests(c, cats) + [];
      assert Requests(c, cats) + [] == Requests(c, cats);
    }
  }

  /** Recolouring keeps the lock table and the absence of conflicts. */
  lemma RecolorKeepsValid(c: Customization, cats: seq<Category>, name: string, color: string)
    requires WellNamed(cats) ==> Exclusive(c, cats)
    ensures LockedGroupsOf(Recolor(c, name, color), cats) == LockedGroupsOf(c, cats)
    ensures WellNamed(cats) ==> Exclusive(Recolor(c, name, color), cats)
  {
    RecolorKeepsLocks(c, cats, name, color);
    if WellNamed(cats) {
      SameAssetsExclusive(c, Recolor(c, name, color), cats);
    }
  }

  /** A nullish selection only takes the asset out of its own entry. */
  lemma DeselectKeepsExclusive(c: Customization, cats: seq<Category>, name: string, asset: Asset)
    requires Exclusive(c, cats)
    requires IsNullish(asset)
    ensures Exclusive(Select(c, name, asset), cats)
  {
    var d := Select(c, name, asset);
    forall i | 0 <= i < |cats|
      ensures EquippedAt(d, cats, i) ==> EquippedAt(c, cats, i) && LayersAt(d, cats, i) == LayersAt(c, cats, i)
    {
      DeselectAt(c, cats, name, asset, i);
    }
  }

  /** After a nullish selection, a category that holds an asset held the same one before. */
  lemma DeselectAt(c: Customization, cats: seq<Category>, name: string, asset: Asset, i: nat)
    requires IsNullish(asset)
    requires i < |cats|
    ensures var d := Select(c, name, asset);
      EquippedAt(d, cats, i) ==> EquippedAt(c, cats, i) && LayersAt(d, cats, i) == LayersAt(c, cats, i)
  {
    EquippedAtAsset(Select(c, name, asset), cats, i);
  }

  /**
   * An explicit selection keeps the customization free of conflicts: the
   * selected category's layers are cleared everywhere else, and the other
   * categories were free of conflicts among themselves.
   */
  lemma SelectKeepsExclusive(c: Customization, cats: seq<Category>, name: string, asset: Asset, updated: Customization)
    requires WellNamed(cats)
    requires Exclusive(c, cats)
    requires forall k :: Dict.Get(updated, k) == ClearedEntry(Select(c, name, asset), cats, |cats|, name, TargetLayers(cats, name, asset), k)
    ensures Exclusive(updated, cats)
  {
    var d := Select(c, name, asset);
    var tl := TargetLayers(cats, name, asset);
    forall i | 0 <= i < |cats| && cats[i].name != name && EquippedAt(updated, cats, i)
      ensures Dict.Get(updated, cats[i].name) == Dict.Get(c, cats[i].name)
      ensures !Intersects(LayersAt(updated, cats, i), tl)
    {
      ClearedEntryAt(d, cats, name, tl, i);
      ClearSelectionWins(d, cats, name, tl, updated, i);
    }
    forall t | 0 <= t < |cats| && cats[t].name == name
      ensures LayersAt(updated, cats, t) == tl
    {
      assert Dict.Get(updated, name) == Dict.Get(d, name);
      FindFirstAt(cats, (cat: Category) => cat.name == name, t);
    }
    forall i, j | 0 <= i < j < |cats| && EquippedAt(updated, cats, i) && EquippedAt(updated, cats, j)
      ensures !Intersects(LayersAt(updated, cats, i), LayersAt(updated, cats, j))
    {
      if cats[i].name != name && cats[j].name != name {
        assert EquippedAt(c, cats, i) && LayersAt(updated, cats, i) == LayersAt(c, cats, i);
        assert EquippedAt(c, cats, j) && LayersAt(updated, cats, j) == LayersAt(c, cats, j);
      }
    }
  }

  /**
   * After `randomize`, a non-removable category with assets holds one of
   * its own assets, unless an earlier category kept an asset sharing a
   * layer with it, in which case its asset was cleared.
   */
  lemma RandomizedSlot(cats: seq<Category>, es: seq<Entry>, j: nat)
    requires WellNamed(cats)
    requires |es| == |cats| && forall i | 0 <= i < |cats| :: Drawn(cats[i], es[i])
    requires j < |cats| && !cats[j].removable && cats[j].assets != []
    ensures var r := LayerRulesResult(Assemble(cats, es), cats);
      || AssetOf(r, cats[j].name) in cats[j].assets
      || (AssetOf(r, cats[j].name) == Null
          && exists i | 0 <= i < j :: EquippedAt(r, cats, i) && Intersects(LayersAt(Assemble(cats, es), cats, i), LayersAt(Assemble(cats, es), cats, j)))
  {
    var c := Assemble(cats, es);
    AssembleGet(cats, es);
    assert AssetOf(c, cats[j].name) == es[j].asset;
    LayerRulesKeep(c, cats, j);
    if EquippedAt(c, cats, j) && !EquippedAt(LayerRulesResult(c, cats), cats, j) {
      LayerRulesLossHasCause(c, cats, j);
    }
  }

  // ---------------------------------------------------------------------------
  // The store
  // ---------------------------------------------------------------------------

  /** Every field of the store, for stating what an action leaves unchanged. */
  datatype State = State(
    loading: bool,
    mode: Mode,
    pose: Pose,
    categories: seq<Category>,
    currentCategory: Option<Category>,
    assets: seq<Asset>,
    lockedGroups: LockedGroups,
    customization: Customization,
    skinColor: string)

  class ConfiguratorStore {
    var loading: bool
    var mode: Mode
    var pose: Pose
    var categories: seq<Category>
    var currentCategory: Option<Category>
    var assets: seq<Asset>
    var lockedGroups: LockedGroups
    var customization: Customization
    /** The last colour given to the skin material. */
    var skinColor: string

    ghost function Snapshot(): State
      reads this
    {
      State(loading, mode, pose, categories, currentCategory, assets, lockedGroups, customization, skinColor)
    }

    /** The lock table is up to date, and uniquely named categories hold no conflicting assets. */
    ghost predicate Valid()
      reads this
    {
      && lockedGroups == LockedGroupsOf(customization, categories)
      && (WellNamed(categories) ==> Exclusive(customization, categories))
    }

    constructor()
      ensures Valid()
      ensures Snapshot() == State(true, Customize, Idle, [], None, [], [], [], InitialSkin)
    {
      loading := true;
      mode := Customize;
      pose := Idle;
      categories := [];
      currentCategory := None;
      assets := [];
      lockedGroups := [];
      customization := [];
      skinColor := InitialSkin;
    }

    /** `setMode`: entering the customize mode resets the pose to idle. */
    method SetMode(m: Mode)
      modifies this
      requires Valid()
      ensures Valid()
      ensures Snapshot() == old(Snapshot()).(mode := m, pose := if m == Customize then Idle else old(pose))
    {
      mode := m;
      if m == Customize {
        pose := Idle;
      }
    }

    method SetPose(p: Pose)
      modifies this
      requires Valid()
      ensures Valid()
      ensures Snapshot() == old(Snapshot()).(pose := p)
    {
      pose := p;
    }

    method SetCurrentCategory(c: Option<Category>)
      modifies this
      requires Valid()
      ensures Valid()
      ensures Snapshot() == old(Snapshot()).(currentCategory := c)
    {
      currentCategory := c;
    }

    /** `updateSkin`: the material's colour becomes `color`. */
    method UpdateSkin(color: string)
      modifies this
      ensures Snapshot() == old(Snapshot()).(skinColor := color)
    {
      skinColor := color;
    }

    /** `applyLockedAssets`: the lock table is recomputed from the customization alone. */
    method ApplyLockedAssets()
      modifies this
      ensures Snapshot() == old(Snapshot()).(lockedGroups := LockedGroupsOf(old(customization), old(categories)))
    {
      lockedGroups := ComputeLockedGroups(customization, categories);
    }

    /** Gives the skin the head entry's colour when that colour is a non-empty string. */
    method ApplyHeadColor()
      modifies this
      ensures Snapshot() == old(Snapshot()).(skinColor :=
        var h := HeadColor(old(customization)); if h.Some? && h.value != "" then h.value else old(skinColor))
    {
      var headColor := HeadColor(customization);
      if headColor.Some? && headColor.value != "" {
        UpdateSkin(headColor.value);
      }
    }

    /**
     * `updateColor`: the current category's entry gets `color` and keeps its
     * asset; the skin follows when the current category is "Head". The
     * source reads `currentCategory.name` and so needs a current category.
     */
    method UpdateColor(color: string)
      modifies this
      requires Valid()
      requires currentCategory.Some?
      ensures Valid()
      ensures Snapshot() == old(Snapshot()).(
        customization := Recolor(old(customization), old(currentCategory).value.name, color),
        skinColor := if old(currentCategory).value.name == "Head" then color else old(skinColor))
    {
      var name := currentCategory.value.name;
      RecolorKeepsValid(customization, categories, name, color);
      customization := Recolor(customization, name, color);
      if name == "Head" {
        UpdateSkin(color);
      }
    }

    /**
     * `changeAsset`: the category's entry gets `asset` and keeps its colour.
     * A nullish asset does nothing else; any other asset clears every other
     * category sharing one of its layers. The lock table is recomputed.
     */
    method ChangeAsset(name: string, asset: Asset)
      modifies this
      requires Valid()
      ensures Valid()
      ensures Snapshot() == old(Snapshot()).(customization := customization, lockedGroups := lockedGroups)
      ensures IsNullish(asset) ==> customization == Select(old(customization), name, asset)
      ensures !IsNullish(asset) ==>
        && Dict.Keys(customization) == Dict.Keys(Select(old(customization), name, asset))
        && forall k :: Dict.Get(customization, k) ==
             ClearedEntry(Select(old(customization), name, asset), categories, |categories|, name, TargetLayers(categories, name, asset), k)
    {
      customization := Changed(customization, categories, name, asset);
      ApplyLockedAssets();
    }

    /**
     * `fetchCategories`, with the fetched records as inputs: attach to each
     * category the assets of its group, select each category's default
     * entry, apply the layer rules, colour the skin from the head entry,
     * store everything and recompute the locks.
     */
    method FetchCategories(fetched: seq<Category>, fetchedAssets: seq<Asset>)
      modifies this
      ensures Valid()
      ensures categories == AttachAll(fetched, fetchedAssets)
      ensures customization == LayerRulesResult(Assemble(categories, Defaults(categories)), categories)
      ensures currentCategory == if fetched == [] then None else Some(categories[0])
      ensures assets == fetchedAssets && !loading
      ensures skinColor == var h := HeadColor(customization); if h.Some? && h.value != "" then h.value else old(skinColor)
      ensures mode == old(mode) && pose == old(pose)
    {
      var cats, normalized := Defaulted(fetched, fetchedAssets);
      Install(cats, normalized, fetchedAssets);
      ApplyHeadColor();
      ApplyLockedAssets();
    }

    /** Stores the fetched categories, assets and customization and ends the loading state. */
    method Install(cats: seq<Category>, normalized: Customization, fetchedAssets: seq<Asset>)
      modifies this
      ensures Snapshot() == old(Snapshot()).(loading := false, categories := cats,
        currentCategory := if cats == [] then None else Some(cats[0]),
        assets := fetchedAssets, customization := normalized)
    {
      categories := cats;
      currentCategory := if cats == [] then None else Some(cats[0]);
      assets := fetchedAssets;
      customization := normalized;
      loading := false;
    }

    /**
     * `randomize`: draw an entry for every category, apply the layer rules,
     * colour the skin from the head entry, store the result and recompute
     * the locks.
     */
    method Randomize()
      modifies this
      requires Valid()
      ensures Valid()
      ensures exists es: seq<Entry> ::
        && |es| == |categories|
        && (forall i | 0 <= i < |categories| :: Drawn(categories[i], es[i]))
        && customization == LayerRulesResult(Assemble(categories, es), categories)
      ensures Snapshot() == old(Snapshot()).(
        customization := customization,
        lockedGroups := lockedGroups,
        skinColor := var h := HeadColor(customization); if h.Some? && h.value != "" then h.value else old(skinColor))
    {
      var normalized, es := Randomized(categories);
      customization := normalized;
      ApplyHeadColor();
      ApplyLockedAssets();
    }
  }
}
