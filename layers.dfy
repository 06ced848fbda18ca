/** Layer identities: the exclusivity tags that assets and categories carry (store.js). */
module Layers {
  import opened Wrappers
  import opened Json
  import opened Catalog

  /** The field names a layer identity may be stored under, in the order they are tried. */
  const LayerKeys: seq<string> := [
    "layer", "layerId", "layer_id", "layerName", "layer_name", "layerKey", "layer_key",
    "layerGroup", "layer_group", "layerCategory", "layer_category", "layerSlug", "layer_slug"
  ]

  /**
   * The layer identities a field value denotes: none for null or undefined,
   * the value itself for a string or number, the identities of every element
   * for an array, and a referenced record's id, else name, else slug.
   */
  function ResolveLayerValues(v: Json): (r: seq<Json>)
    ensures forall x | x in r :: !IsNullish(x)
    ensures !v.Arr? ==> |r| <= 1
    decreases v, 1
  {
    match v
    case Undefined => []
    case Null => []
    case Arr(items) => FlatLayerValues(items)
    case Str(_) => [v]
    case Num(_) => [v]
    case Obj(_) =>
      if Truthy(Field(v, "id")) then [Field(v, "id")]
      else if Truthy(Field(v, "name")) then [Field(v, "name")]
      else if Truthy(Field(v, "slug")) then [Field(v, "slug")]
      else []
    case Bool(_) => []
  }

  /** `items.flatMap(resolveLayerValues)`. */
  function FlatLayerValues(items: seq<Json>): (r: seq<Json>)
    ensures forall x | x in r :: !IsNullish(x)
    decreases items, 0
  {
    if items == [] then [] else ResolveLayerValues(items[0]) + FlatLayerValues(items[1..])
  }

  /** An array's identities are those of its parts, in order. */
  lemma {:induction false} FlatLayerValuesAppend(a: seq<Json>, b: seq<Json>)
    ensures FlatLayerValues(a + b) == FlatLayerValues(a) + FlatLayerValues(b)
  {
    if a == [] {
      assert a + b == b;
    } else {
      assert (a + b)[0] == a[0] && (a + b)[1..] == a[1..] + b;
      FlatLayerValuesAppend(a[1..], b);
    }
  }

  lemma ResolveLayerValuesConcat(a: seq<Json>, b: seq<Json>)
    ensures ResolveLayerValues(Arr(a + b)) == ResolveLayerValues(Arr(a)) + ResolveLayerValues(Arr(b))
  {
    FlatLayerValuesAppend(a, b);
  }

  /** Nesting an array inside another does not change its identities. */
  lemma ResolveLayerValuesNested(a: seq<Json>)
    ensures ResolveLayerValues(Arr([Arr(a)])) == ResolveLayerValues(Arr(a))
  {
    assert [Arr(a)][1..] == [];
    assert FlatLayerValues([Arr(a)]) == ResolveLayerValues(Arr(a)) + FlatLayerValues([]);
  }

  /** The layer identities of an asset or category record (`getLayerIdsFrom`). */
  function LayerIdsFrom(item: Json): (r: seq<Json>)
    ensures !Truthy(item) ==> r == []
    ensures Truthy(item) && (item.Str? || item.Num?) ==> r == [item]
    ensures forall x | x in r :: !IsNullish(x)
  {
    if !Truthy(item) then []
    else if item.Str? || item.Num? then [item]
    else FromLayerKeys(item, 0)
  }

  /** Tries `LayerKeys[k..]` in order, then `expand.layer`. */
  function FromLayerKeys(item: Json, k: nat): (r: seq<Json>)
    requires k <= |LayerKeys|
    ensures forall x | x in r :: !IsNullish(x)
    decreases |LayerKeys| - k
  {
    if k == |LayerKeys| then
      var expanded := Field(Field(item, "expand"), "layer");
      if Truthy(expanded) then ResolveLayerValues(expanded) else []
    else
      var values := ResolveLayerValues(Field(item, LayerKeys[k]));
      if |values| > 0 then values else FromLayerKeys(item, k + 1)
  }

  /** The layer key tried first among those that yield identities decides. */
  lemma {:induction false} FirstLayerKeyWins(item: Json, k: nat)
    requires item.Obj?
    requires k < |LayerKeys|
    requires forall j | 0 <= j < k :: ResolveLayerValues(Field(item, LayerKeys[j])) == []
    requires ResolveLayerValues(Field(item, LayerKeys[k])) != []
    ensures LayerIdsFrom(item) == ResolveLayerValues(Field(item, LayerKeys[k]))
  {
    FromLayerKeysSkips(item, 0, k);
  }

  /** `expand.layer` is consulted only when no layer key yields an identity. */
  lemma {:induction false} ExpandedLayerLast(item: Json)
    requires item.Obj?
    requires forall j | 0 <= j < |LayerKeys| :: ResolveLayerValues(Field(item, LayerKeys[j])) == []
    ensures LayerIdsFrom(item) ==
      var expanded := Field(Field(item, "expand"), "layer");
      if Truthy(expanded) then ResolveLayerValues(expanded) else []
  {
    assert Truthy(item) && LayerIdsFrom(item) == FromLayerKeys(item, 0);
    FromLayerKeysSkips(item, 0, |LayerKeys|);
  }

  lemma {:induction false} FromLayerKeysSkips(item: Json, k: nat, m: nat)
    requires k <= m <= |LayerKeys|
    requires forall j | k <= j < m :: ResolveLayerValues(Field(item, LayerKeys[j])) == []
    ensures FromLayerKeys(item, k) == FromLayerKeys(item, m)
    decreases m - k
  {
    if k < m {
      FromLayerKeysSkips(item, k + 1, m);
    }
  }

  /**
   * `getLayerIds`: an asset's own layer identities, or, when it has none,
   * those of the category it is equipped in (`None`: no such category).
   */
  function LayerIds(asset: Asset, category: Option<Category>): (r: seq<Json>)
    ensures forall x | x in r :: !IsNullish(x)
  {
    var own := LayerIdsFrom(asset);
    if |own| > 0 then own
    else if category.Some? then LayerIdsFrom(category.value.record)
    else []
  }

  /** An asset is layer-free exactly when neither it nor its category names a layer. */
  lemma LayerIdsEmpty(asset: Asset, category: Option<Category>)
    ensures LayerIds(asset, category) == [] <==>
      LayerIdsFrom(asset) == [] && (category.None? || LayerIdsFrom(category.value.record) == [])
  {
  }

  /** An asset's own identities take precedence; the category's apply only as fallback. */
  lemma LayerIdsPrecedence(asset: Asset, category: Option<Category>)
    ensures LayerIdsFrom(asset) != [] ==> LayerIds(asset, category) == LayerIdsFrom(asset)
    ensures LayerIdsFrom(asset) == [] && category.Some? ==>
      LayerIds(asset, category) == LayerIdsFrom(category.value.record)
  {
  }
}
