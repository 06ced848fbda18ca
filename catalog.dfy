/**
 * The entities of the configurator store: categories (customization slots),
 * assets (backend records), customization entries and lock entries.
 */
module Catalog {
  import opened Wrappers
  import opened Json
  import Dict

  /** An asset is a backend record; the store reads it only through its fields. */
  type Asset = Json

  /**
   * A customization group. `startingAsset` is "" when the record names none
   * (an empty relation field); `palette` is the colours of the expanded
   * `colorPalette` relation, empty when there is none; `record` is the
   * category's backend record, read only for its layer fields; `assets` is
   * the list computed when categories are fetched.
   */
  datatype Category = Category(
    id: string,
    name: string,
    slug: Option<string>,
    removable: bool,
    startingAsset: string,
    palette: seq<string>,
    record: Json,
    assets: seq<Asset>)

  /**
   * What a category currently holds. `asset` is `Undefined` when the entry
   * has no asset key and `Null` once an asset was cleared; `color` is `None`
   * when the entry has no colour key.
   */
  datatype Entry = Entry(asset: Asset, color: Option<string>)

  /** `!entry?.asset` is false: the entry holds an asset. */
  predicate Equipped(e: Option<Entry>) {
    e.Some? && Truthy(e.value.asset)
  }

  /** The customization: category name to entry, in insertion order. */
  type Customization = Dict.Dict<Entry>

  /** One entry of a lock list: which asset, equipped in which category, locks the category. */
  datatype Lock = Lock(name: Json, categoryName: string)

  type LockedGroups = Dict.Dict<seq<Lock>>

  /** Category names are unique and non-empty: the shape the backend gives them. */
  predicate WellNamed(cats: seq<Category>) {
    && (forall i | 0 <= i < |cats| :: cats[i].name != "")
    && (forall i, j | 0 <= i < j < |cats| :: cats[i].name != cats[j].name)
  }
}
