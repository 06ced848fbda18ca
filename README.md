# Avatar configurator core, modelled in Dafny

This project models the core of an avatar configurator. The user picks one
asset (a hair style, a shirt, a pair of shoes) and one palette colour per
customization category, and the avatar is drawn from the 3D model file each
asset points to. The core is three files:

- `src/store.js` holds the configurator store. Its two rule engines keep the
  customization consistent:
  - **layer rules**: assets and categories may carry *layer* identities, and
    at most one equipped asset may occupy a layer;
  - **lock rules**: an equipped asset may name *locked groups*, other
    categories it locks; the lock table is recomputed after every change.
- `src/utils/assets.js` resolves a backend record into a file URL. The search
  runs over an arbitrary, possibly shared or cyclic, object graph and finds
  the first string naming a file with an allowed extension. A bare file name
  becomes a PocketBase file URL through the record that owns it. The same
  file picks icons and labels for the asset cards.
- `src/components/Avatar.jsx` holds its own copy of the model-URL lookup,
  with a key list that differs from the shared one.

The modules follow that structure:

- **Shared modules**:
  - `Wrappers`: Option, `find`, `flatMap`;
  - `Dict`: JavaScript objects as insertion-ordered dictionaries (keys that are not array indices);
  - `Strings`: `trim`, `toLowerCase`, `split` and `String(n)`;
  - `Json`: backend records as trees;
  - `ObjectGraph`: arbitrary JavaScript values as a heap of nodes reached by
    reference, so that "already visited" means "the same node".
- **store.js**:
  - `Catalog`: the store's entities;
  - `Layers`: layer identities;
  - `Groups`: group identifiers and category lookup;
  - `LayerRules`: `clearLayerConflicts`, `applyLayerRules`;
  - `Locks`: `applyLockedAssets`;
  - `Store`: the store class and its actions.
- **assets.js**:
  - `FileReference`: `createFileReference`;
  - `Resolver`: `resolveFileReference` and its `WeakSet`;
  - `AssetUrls`: `getFileUrlFromRecord`, `getModelUrl`, `getThumbnailUrl`;
  - `Labels`: `getValueAtPath`, `pickFirstString`, `isAssetLocked`, icons and
    labels.
- **Avatar.jsx**: `Avatar`.

Where the source works by stepping through loops, the model is a method with
a loop. Each such method is proved equal to a specification function, and
the properties are proved about that function:

- `ApplyLayerRules`, `ClearLayerConflicts` and `ComputeLockedGroups`;
- `ResolveFileReference`, `GetThumbnailUrl`, `GetValueAtPath` and
  `PickFirstString`.

The store is a class whose actions update its fields. It keeps one
invariant: the lock table matches the customization, and the equipped
assets of uniquely named categories never share a layer.

The specification functions are related to independent reference
definitions:

- **Layer rules**: category `j` keeps its asset exactly when no earlier
  category that keeps its own asset shares a layer with it (`Keeps`). The
  pass is proved to implement this rule. From that it follows that the
  pass:
  - leaves no two equipped categories sharing a layer;
  - lets the earlier category win;
  - only ever clears an entry for a cause;
  - returns a conflict-free customization unchanged;
  - gives the same result when applied a second time.
- **Lock rules**: a lock is in the table exactly when some equipped asset's
  locked-group value asks for it (`Requested`). The table never lists the
  same lock twice and never locks a category by itself.
- **URL search**:
  - no node is expanded twice, so the search ends on cyclic graphs;
  - a found reference comes from a string below a chain of expanded nodes,
    and its record is the innermost record of that chain;
  - the component's lookup agrees with `getModelUrl` on every object graph
    in which no object has one of the four path keys the component's list
    leaves out.

## Model

| member | source | states |
|---|---|---|
| Layers.ResolveLayerValues | src/store.js:23-49 | Defined case by case as the source reads a layer value: nullish and boolean values give no identity, strings and numbers give themselves, an object gives its truthy `id`, else `name`, else `slug`, an array gives its elements' identities. Its contract guarantees that no identity is null or undefined and that a non-array gives at most one. |
| Layers.ResolveLayerValuesConcat | src/store.js:28-30 | The identities of an array are those of its parts, concatenated in order. |
| Layers.ResolveLayerValuesNested | src/store.js:28-30 | Nesting an array inside another does not change its identities. |
| Layers.LayerIdsFrom | src/store.js:51-58 | A falsy item has no layer identities; a truthy string or number is its own identity. |
| Layers.FirstLayerKeyWins | src/store.js:7-65 | The first of the 13 layer keys, in declared order, that yields identities decides `getLayerIdsFrom`: the loop over the keys stops there. |
| Layers.ExpandedLayerLast | src/store.js:67-74 | `expand.layer` is consulted only when no layer key yields an identity. It gives its identities when it is truthy, else none. |
| Layers.LayerIdsPrecedence | src/store.js:77-83 | An asset's own identities take precedence. The category's identities apply only when the asset has none. |
| Layers.LayerIdsEmpty | src/store.js:77-83 | An asset is layer-free exactly when neither the asset nor its category (if any) names a layer. |
| Groups.ResolveGroupIdentifier | src/store.js:85-115 | The result is never blank and never has surrounding white space. Nullish, boolean and array values give none. A string gives its trimmed form unless it is blank. A number gives its decimal form. |
| Groups.RecordIdFirst | src/store.js:99-102 | A record's truthy `id` decides, even when `group`, `name` or `slug` would resolve. |
| Groups.RecordFallbackOrder | src/store.js:103-114 | Without a truthy `id`, the first truthy of `group`, `name`, `slug` decides. With none of them the result is nothing. |
| Groups.FindCategoryByIdentifier | src/store.js:117-130 | A nullish identifier finds nothing. Otherwise the lookup takes the first category matching by id, else by name, else by slug. The result is nothing exactly when no category matches in any of the three ways. |
| Groups.FindsByOwnId | src/store.js:125-126 | With unique ids, every category is found by its own id. |
| LayerRules.ClearLayerConflicts | src/store.js:132-169 | The keys and their order are unchanged, and the target's own entry is kept. Every other category whose equipped asset shares a layer with the selection is cleared: asset null, colour kept. Everything else stays as it was. Empty target layers return the customization itself. |
| LayerRules.ClearedEntryAt | src/store.js:145-165 | With unique names, a category's entry is cleared exactly when it clashes with the selection, and is left as it was otherwise. |
| LayerRules.ClearSelectionWins | src/store.js:155-165 | Afterwards no other category holding an asset shares a layer with the selection. |
| LayerRules.Claim | src/store.js:204-206 | Every layer of the category is recorded under its name, and every other claim is kept. |
| LayerRules.ClaimLayers | src/store.js:204-206 | The inner loop computes exactly `Claim`. |
| LayerRules.ApplyLayerRules | src/store.js:171-210 | The loop computes exactly the pass over all categories. A category without an asset or without layers is skipped. A category one of whose layers is held by a truthy keeper of another name loses its asset. Any other category claims its layers. |
| LayerRules.LayerRulesMatchRule | src/store.js:171-210 | The pass implements the reference rule `Keeps`. It adds and moves no key. An entry loses its asset exactly when the rule takes that asset away. When nothing is taken away, the customization is returned as it was. |
| LayerRules.LayerRulesKeep | src/store.js:191-206 | After the pass, a category holds an asset exactly when the rule keeps it. A kept entry is untouched and keeps its layers. A lost entry is cleared with its colour kept. |
| LayerRules.LayerRulesExclusive | src/store.js:171-210 | After the pass, no two categories that hold assets share a layer. |
| LayerRules.LayerRulesEarlierWins | src/store.js:186-189 | An earlier category that keeps its asset takes the asset away from every later category sharing one of its layers. |
| LayerRules.LayerRulesLossHasCause | src/store.js:186-201 | A category loses its asset only to an earlier category that keeps an asset sharing a layer with it. |
| LayerRules.LayerRulesSparesLayerFree | src/store.js:181-184 | A category without layer identities keeps its entry. |
| LayerRules.LayerRulesFixesExclusive | src/store.js:171-210 | A customization without conflicts is returned unchanged. |
| LayerRules.LayerRulesIdempotent | src/store.js:171-210 | Applying the pass twice gives the same result as applying it once. |
| LayerRules.ExclusiveKeeps | src/store.js:186-189 | Without conflicts, the rule keeps exactly the categories that hold an asset. |
| Locks.GroupRequest | src/store.js:427-441 | A locked-group value asks for a lock only when its identifier resolves to an existing category other than the locking one. The lock names the asset's `name` and the locking category. |
| Locks.Push | src/store.js:442-457 | The target's list is created when missing. The lock is pushed unless the same `(name, categoryName)` is already listed. The result equals `Insert`. |
| Locks.InsertPushes | src/store.js:442-457 | `Insert` is the create-then-push of the source. |
| Locks.LockGroup | src/store.js:427-458 | One locked-group value adds exactly the lock it asks for, or nothing. |
| Locks.LockGroups | src/store.js:423-458 | The `groupEntries.forEach` loop folds the requests of every locked-group value, in order. A non-array `lockedGroups` counts as a single value. |
| Locks.ComputeLockedGroups | src/store.js:407-462 | The loop over the customization entries computes exactly `LockedGroupsOf`. Entries whose asset has no truthy `lockedGroups` are skipped. The locking name is the category the asset's `group` names, else the entry's category, else the entry's key. |
| Locks.LockedGroupsExact | src/store.js:407-462 | A lock is listed under a target if and only if some equipped asset's locked-group value asks for it. A target has a list if and only if some lock is requested for it. |
| Locks.LockedGroupsWellFormed | src/store.js:442-457 | Keys are distinct, every list is non-empty, and no list holds the same `(name, categoryName)` twice. |
| Locks.LockedGroupsNoSelfLock | src/store.js:433-440 | A category is never locked by itself, and only categories that exist are locked. |
| Locks.UnresolvableLocksNothing | src/store.js:428-436 | Locked-group values that are all blank, unresolvable, or resolve to an identifier naming no category lock nothing. |
| Store.AssetsOfMembers | src/store.js:283 | A category's assets are exactly the fetched assets whose `group` is the category's id. |
| Store.DefaultAssetCases | src/store.js:290-304 | The default asset is one of the category's assets. There is none exactly when no starting asset matches, no asset is flagged `isDefault` or typed "avatar", and the category is removable or has no assets. |
| Store.DefaultIsStarting | src/store.js:291-295 | The first asset whose id is `startingAsset` wins. |
| Store.DefaultIsFlagged | src/store.js:297-299 | Without a starting asset, the first asset flagged `isDefault` wins. |
| Store.DefaultIsAvatar | src/store.js:300 | Without a starting or flagged asset, the first asset of type "avatar" wins. |
| Store.DefaultIsFirst | src/store.js:301-303 | Otherwise a non-removable category with assets gets its first asset. |
| Store.DefaultCustomization | src/store.js:281-311 | The loop records each category's default entry under the category's name. |
| Store.AssembleGet | src/store.js:310 | With unique names, each category's entry is the one built for it, and no other key is present. |
| Store.Defaulted | src/store.js:282-313 | `fetchCategories` stores the categories with their assets attached, and the default customization with the layer rules applied. With unique names the stored customization has no conflicts. |
| Store.Select | src/store.js:334-340 | The entry gets the asset and keeps its colour. Every other entry is unchanged. A new key is appended; an existing key keeps its place. |
| Store.Recolor | src/store.js:256-264 | The entry gets the colour and keeps its asset. Every other entry and every asset is unchanged. |
| Store.Changed | src/store.js:333-359 | A nullish asset only sets the entry. Any other asset also clears every other category that shares one of the asset's layers. Layers come from the asset, else from its category. The result has no conflicts when the input had none. |
| Store.DeselectKeepsExclusive | src/store.js:342-344 | A nullish selection keeps the customization free of conflicts. |
| Store.SelectKeepsExclusive | src/store.js:346-358 | An explicit selection keeps the customization free of conflicts. |
| Store.RecolorKeepsValid | src/store.js:255-264 | Recolouring leaves the lock table unchanged and keeps the customization free of conflicts. |
| Store.RandInt | src/store.js:372 | `randInt(lo, hi)` draws from the inclusive range. |
| Store.Draw | src/store.js:366-388 | A category draws an asset of its own list, or null when the list is empty or the category is removable. It draws a palette colour, or "" without a palette. A non-removable category with assets always draws one of them. |
| Store.DrawAll | src/store.js:364-389 | The loop records each category's drawn entry under the category's name. |
| Store.Randomized | src/store.js:362-394 | `randomize` stores the drawn entries with the layer rules applied. With unique names the result has no conflicts. |
| Store.RandomizedSlot | src/store.js:366-394 | After `randomize`, a non-removable category with assets holds one of its own assets. The exception is an earlier kept asset sharing a layer with it; then its entry is null. |
| Store.ConfiguratorStore.constructor | src/store.js:234-250 | The store starts loading, in customize mode, with the idle pose, with no categories, assets, locks or customization, and with the initial skin colour. |
| Store.ConfiguratorStore.SetMode | src/store.js:237-242 | The mode is set. Entering customize mode also resets the pose to idle. Nothing else changes. |
| Store.ConfiguratorStore.SetPose | src/store.js:244 | Only the pose changes. |
| Store.ConfiguratorStore.SetCurrentCategory | src/store.js:331 | Only the current category changes. |
| Store.ConfiguratorStore.UpdateSkin | src/store.js:269-271 | Only the skin colour changes. |
| Store.ConfiguratorStore.ApplyLockedAssets | src/store.js:407-462 | Only the lock table changes, recomputed from the customization and the categories. |
| Store.ConfiguratorStore.ApplyHeadColor | src/store.js:315-320 | The skin takes the `Head` entry's colour, else the `head` entry's colour, when that colour is non-empty. |
| Store.ConfiguratorStore.UpdateColor | src/store.js:255-268 | The current category's entry gets the colour. The skin follows when the current category is "Head". The lock table and the freedom from conflicts are kept. |
| Store.ConfiguratorStore.ChangeAsset | src/store.js:332-361 | The customization becomes `Changed` and the locks are recomputed. The store invariant is kept; only the customization and the locks change. |
| Store.ConfiguratorStore.Install | src/store.js:322-328 | Stores the categories, the first category as current, the assets and the customization, and ends loading. |
| Store.ConfiguratorStore.FetchCategories | src/store.js:272-330 | After fetching, the categories carry their assets and the customization is the defaults with the layer rules applied. The skin follows the head colour, the locks are recomputed and the store invariant holds. Mode and pose are unchanged. |
| Store.ConfiguratorStore.Randomize | src/store.js:362-405 | Some draw, allowed for every category, is stored with the layer rules applied. The skin follows the head colour. The locks are recomputed and the invariant is kept. |
| FileReference.PathPart | src/utils/assets.js:169-170 | The path part is a prefix of the trimmed value and contains neither `#` nor `?`. |
| FileReference.MatchedExtension | src/utils/assets.js:171-177 | An extension is found exactly when the lower-cased path ends with one of the allowed extensions. The extension found is such an extension. |
| FileReference.KindOf | src/utils/assets.js:185-196 | A reference is a `url` exactly when the trimmed value contains `/`. The absolute and relative forms always contain one. |
| FileReference.CreateFileReference | src/utils/assets.js:159-203 | Non-strings and blank strings give nothing. A reference holds the trimmed value and a non-empty file name, the last `/`-segment of the path, free of `/`, `?` and `#`. A reference exists exactly when the lower-cased path ends with an allowed extension and that segment is non-empty. |
| FileReference.FileNameHasExtension | src/utils/assets.js:179-180 | When the extension holds no `/`, the file name ends with that extension, case aside. |
| Avatar.CreateModelReference | src/components/Avatar.jsx:36-82 | A model reference's file name ends with `.glb`, `.gltf` or `.fbx`, case aside. |
| Resolver.RecordOf | src/utils/assets.js:124-127 | The context is a record exactly when it is an object with `collectionId` or `collectionName`. |
| Resolver.ResolveFileReference | src/utils/assets.js:205-288 | The recursive method returns what the search specification `ResolveAll` finds. It leaves the `WeakSet` holding exactly the nodes `ResolveAll` visits. |
| Resolver.ExpandNode | src/utils/assets.js:232-287 | The loop over a node's children stops at the first one that resolves. This equals the search over the node's children from the visited set with the node added. |
| Resolver.WeakSet.Add | src/utils/assets.js:235 | `visited.add(value)` adds exactly that node. |
| Resolver.ResolveString | src/utils/assets.js:216-226 | A string resolves to its classification, paired with the context's record, and expands nothing. |
| Resolver.ScalarResolvesNothing | src/utils/assets.js:212-230 | Nullish, boolean and numeric values resolve to nothing and expand nothing. |
| Resolver.VisitedResolvesNothing | src/utils/assets.js:232-234 | A node already visited resolves to nothing and is not expanded again. |
| Resolver.ExpandArray | src/utils/assets.js:237-251 | An array is searched element by element, in order, under the same context. |
| Resolver.ExpandObject | src/utils/assets.js:253-287 | An object is searched first through the values of the listed keys it has, in list order. Only then are its other entries searched, in their own order. A record becomes the context below itself. |
| Resolver.PrioritizedOrder | src/utils/assets.js:255-268 | The prioritised values are those of the listed keys the object has, in list order. |
| Resolver.RemainingMembers | src/utils/assets.js:270-273 | The other entries are exactly those whose key is not listed. |
| Resolver.ResolveAllAppend | src/utils/assets.js:238-249 | Values are tried in order. The search over `a + b` is the search over `a`; only when that finds nothing does it continue over `b`, from the visited set `a` left. |
| Resolver.ExpandsEachOnce | src/utils/assets.js:232-235 | Every expanded node was in the heap and unvisited, none is expanded twice, and the visited set grows by exactly the expanded nodes. |
| Resolver.ExpandsAtMostHeap | src/utils/assets.js:232-235 | A search expands at most as many nodes as the heap has unvisited nodes. |
| Resolver.SelfCycle | src/utils/assets.js:232-235 | A node not yet visited whose every child is a reference to itself is expanded once: the visited set grows by exactly that node, and nothing is found. |
| Resolver.SelfReferenceExample | src/utils/assets.js:232-235 | The one-object heap `{ self: <itself> }` is expanded once from an empty visited set and resolves to nothing. |
| Resolver.AllVisited | src/utils/assets.js:232-234 | Values that are all visited nodes resolve to nothing. |
| Resolver.FoundBelowChain | src/utils/assets.js:205-288 | A found reference is the classification of a string found below a chain of expanded nodes, and that chain starts at a searched value. Its record is the innermost record on the chain, else the starting context when that is a record. |
| Resolver.SameChildrenSameSearch | src/utils/assets.js:255-285 | Two key lists that give every node the same children give the same search. |
| AssetUrls.GetFileUrlFromRecord | src/utils/assets.js:290-318 | The method, with a fresh `WeakSet`, returns exactly `FileUrlOf`. |
| AssetUrls.FileUrlMissing | src/utils/assets.js:290-294 | The URL is missing exactly when nothing resolves. |
| AssetUrls.FoundIsClassified | src/utils/assets.js:317 | A found reference's value is never empty, so the fallback to null on an empty value never fires. |
| AssetUrls.UrlReferenceUnchanged | src/utils/assets.js:298-300 | A `url` reference is returned as it is. |
| AssetUrls.FileReferenceUrl | src/utils/assets.js:302-317 | A `file` reference goes through `getUrl` with its owner record when it has one. Without an owner, or when `getUrl` throws, the reference's own value is the URL. |
| AssetUrls.NoOwnerNoCall | src/utils/assets.js:305 | Without an owner record the URL does not depend on PocketBase. |
| AssetUrls.OwnerIsResolvedRecord | src/utils/assets.js:302-303 | The fallback to `record` in the owner never changes the result: the search already reports `record` when no inner record encloses the reference. |
| AssetUrls.NullishHasNoUrl | src/utils/assets.js:212-214 | A null or undefined value gives no URL. |
| AssetUrls.GetModelUrl | src/utils/assets.js:320-321 | The model URL is the URL service over the asset, with the asset as its own record; a nullish asset gives none. |
| AssetUrls.ThumbnailSources | src/utils/assets.js:324-330 | Defined as the five reads in priority order: `thumbnail`, `thumb`, `image`, `icons.inactive`, `icons.active`. Its contract states that there are always five sources. |
| AssetUrls.TrySource | src/utils/assets.js:333-338 | One source is resolved, falling back to the asset itself when the source is nullish. |
| AssetUrls.TrySources | src/utils/assets.js:332-349 | The loop returns the first source's non-empty URL, else the scan of the whole asset. |
| AssetUrls.GetThumbnailUrl | src/utils/assets.js:323-350 | The method equals `ThumbnailUrl`. |
| AssetUrls.FirstImageUrlAt | src/utils/assets.js:332-342 | The thumbnail is the URL of the first source that yields a non-empty one. |
| AssetUrls.FirstImageUrlNone | src/utils/assets.js:344-349 | Only when no source yields a URL is the whole asset scanned. |
| AssetUrls.MissingSourcesScanAsset | src/utils/assets.js:335 | With none of the five sources present, the thumbnail is the scan of the whole asset. |
| Labels.GetValueAtPath | src/utils/assets.js:129-144 | The loop walks the path and stops with `undefined` at the first value that is not an object. The result equals `ValueAt`. |
| Labels.NonObjectStops | src/utils/assets.js:138-140 | Once an intermediate value is not an object, any further segment gives `undefined`. |
| Labels.SingleSegment | src/utils/assets.js:133-135 | A one-segment path reads the same property as the key itself. |
| Labels.NonBlank | src/utils/assets.js:149 | A value is accepted exactly when it is a non-blank string. The result is that string trimmed. |
| Labels.PickFirstString | src/utils/assets.js:146-154 | The loop equals `FirstString`: the first candidate holding a non-blank string, trimmed. |
| Labels.FirstStringAt | src/utils/assets.js:147-151 | The picked string is that of the first candidate holding a non-blank string. |
| Labels.FirstStringNone | src/utils/assets.js:153 | Nothing is picked when no candidate holds a non-blank string. |
| Labels.AssetIcon | src/utils/assets.js:352-367 | The icon is never empty. |
| Labels.ExplicitIconWins | src/utils/assets.js:353-360 | The first icon candidate for the state that holds a non-blank string is the icon, trimmed. |
| Labels.DefaultIcon | src/utils/assets.js:362-366 | Without an explicit icon: a locked asset gets the pin; otherwise the check mark when active and the plus sign when not. |
| Labels.AssetLabel | src/utils/assets.js:369-384 | The label is never empty. |
| Labels.ExplicitLabelWins | src/utils/assets.js:370-377 | The first label candidate for the state that holds a non-blank string is the label, trimmed. |
| Labels.DefaultLabel | src/utils/assets.js:379-383 | Without an explicit label: "Bundled" for a locked asset; otherwise "Equipped" when active and "Tap to equip" when not. |
| Labels.NullishAssetDefaults | src/utils/assets.js:156-157 | A missing asset has no lock flag and no candidate, so it gets the plain active or inactive defaults. |
| Avatar.ResolveModelReference | src/components/Avatar.jsx:84-143 | The search of the shared resolver, with the model extensions and the component's own key list. A nullish value finds nothing and leaves the `WeakSet` as it was. |
| Avatar.GetAssetUrl | src/components/Avatar.jsx:150-178 | The URL service over the component's key list, with the asset as its own record. A nullish asset gives none. |
| Avatar.EmptyEntryRendersNothing | src/components/Avatar.jsx:248-253 | An entry whose asset is nullish is not drawn. |
| Avatar.KeyListsDiffer | src/components/Avatar.jsx:11-34 | The component's 22 keys are the shared 26 keys without `modelPath`, `model_path`, `assetPath` and `asset_path`, in the same order. |
| Avatar.SameChildren | src/components/Avatar.jsx:122-140 | When no object has one of the path keys, both lists give every node the same children. |
| Avatar.AgreesWithModelUrl | src/components/Avatar.jsx:150-178 | When no object of the graph has one of the four path keys, `getAssetUrl` gives the same URL as `getModelUrl`. |

## Left out

- **Fetching**: the PocketBase client, the environment check for its URL and the two `getFullList` fetches are left out. `FetchCategories` takes the fetched categories and assets as parameters.
- **Export and rendering**: the glTF export pipeline, React rendering and effects, animations, and the `download`/`screenshot` slots with their setters are left out.
- **Store mechanics**: zustand's `set`/`get` are left out; the store is a class whose methods assign its fields.
- **Skin material**: the three.js skin material is reduced to its last colour, `skinColor`. Colours are strings, and the initial `0xf5c6a5` is written `"#f5c6a5"`.
- **`pb.files.getUrl`**: this is a parameter `(record, fileName) -> Option<string>`. `None` stands for a call that throws. The `console.warn` it triggers is not modelled.
- Store.RandInt: `randInt` is a nondeterministic choice within the inclusive range, not three.js's pseudo-random generator. The properties hold for every outcome.
- **Numbers**: numbers are integers. Floating point, NaN, `-0` and their string forms are not modelled.
- **Lower-casing**: `toLowerCase` lowers only ASCII letters. The allowed extensions are ASCII, so the `endsWith` test agrees with full Unicode lower-casing on them.
- **Two value models**: backend records seen by store.js are trees (`Json`); the values searched by the URL resolver are a heap with references (`ObjectGraph`). The layer rules therefore compare identities structurally. JavaScript's `Set` compares objects by identity, which differs only when a layer identity is itself an object.
- Locks.Push: the `alreadyLocked` test compares the asset's `name` structurally, like `===` on the strings that names are. It differs only for a `name` that is an object.
- **Other value reads**: a `Ref` to a node missing from the heap is treated as a non-object. A property read on a primitive gives `undefined`, as it does for every key the source reads.
- Avatar.CreateModelReference: `createModelReference` is the same code as `createFileReference` with the model extensions, so it is defined as that instance rather than written out again.
- Store.ConfiguratorStore.UpdateColor: it requires a current category, because the source reads `currentCategory.name` and throws without one. The throw is not modelled.
- **Unique category names**: the layer-rule theorems assume unique, non-empty category names (`WellNamed`), the shape the backend gives them. With duplicate names the source's later entries overwrite earlier ones, and exclusivity is not claimed.
- **Object keys**: dictionaries keep insertion order. JavaScript lists integer-like keys (such as `"2"`) first, in ascending numeric order, so category names that are array indices would be visited by `Object.entries` in a different order. Names of `Object.prototype` members (`"constructor"`, `"toString"`) and `"__proto__"` also behave differently on a plain `{}`: the lookup finds the inherited member, so no list is created and `.some` throws, and `__proto__` sets the prototype. Category and group names are assumed to be neither.
- Dict.Put: "a new key is appended" holds only for keys that are not integer-like, for the reason above.
- **Asynchronous ordering**: `fetchCategories` is `async`; the model runs it as one atomic step.
- **Avatar's own `hasPocketBaseMetadata`** (src/components/Avatar.jsx:145-148): it is identical to the one in utils/assets.js and is modelled once, as `ObjectGraph.HasMetadata`.
