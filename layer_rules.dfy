/**
 * The layer rule engine of store.js: at most one equipped asset per layer.
 * `ClearLayerConflicts` makes an explicit selection win; `ApplyLayerRules`
 * makes the category earlier in list order win.
 */
module LayerRules {
  import opened Wrappers
  import opened Json
  import Dict
  import opened Catalog
  import opened Layers

  /** `a.some((x) => new Set(b).has(x))`. */
  predicate Intersects(a: seq<Json>, b: seq<Json>) {
    exists x | x in a :: x in b
  }

  /** The asset a customization holds under `name` (`Undefined` when there is no entry). */
  function AssetOf(c: Customization, name: string): Asset {
    match Dict.Get(c, name)
    case Some(e) => e.asset
    case None => Undefined
  }

  /** The same entry with its asset cleared and its colour kept: `{ ...entry, asset: null }`. */
  function Cleared(e: Entry): (r: Entry)
    ensures r.asset == Null && r.color == e.color
  {
    Entry(Null, e.color)
  }

  predicate EquippedAt(c: Customization, cats: seq<Category>, i: nat)
    requires i < |cats|
  {
    Equipped(Dict.Get(c, cats[i].name))
  }

  /** The layer identities of what category `i` holds, its own layers as fallback. */
  function LayersAt(c: Customization, cats: seq<Category>, i: nat): seq<Json>
    requires i < |cats|
  {
    LayerIds(AssetOf(c, cats[i].name), Some(cats[i]))
  }

  // ---------------------------------------------------------------------------
  // clearLayerConflicts
  // ---------------------------------------------------------------------------

  /** Category `i` is not the target, holds an asset, and shares a layer with the selection. */
  predicate ClashesAt(c: Customization, cats: seq<Category>, targetName: string, targetLayers: seq<Json>, i: nat)
    requires i < |cats|
  {
    cats[i].name != targetName && EquippedAt(c, cats, i) && Intersects(LayersAt(c, cats, i), targetLayers)
  }

  /**
   * The entry under `k` once the first `n` categories have been checked: cleared
   * when some category among them of that name clashes with the selection,
   * otherwise as it was.
   */
  function ClearedEntry(c: Customization, cats: seq<Category>, n: nat, targetName: string, targetLayers: seq<Json>, k: string): Option<Entry>
    requires n <= |cats|
  {
    var e := Dict.Get(c, k);
    if e.Some? && exists i | 0 <= i < n :: cats[i].name == k && ClashesAt(c, cats, targetName, targetLayers, i)
    then Some(Cleared(e.value))
    else e
  }

  /**
   * `clearLayerConflicts(customization, categories, targetCategoryName, targetLayers)`.
   * Every other category whose equipped asset shares a layer with
   * `targetLayers` loses its asset (its colour stays); every other entry,
   * and the target's, is left as it was; no key is added or moved.
   */
  method ClearLayerConflicts(c: Customization, cats: seq<Category>, targetName: string, targetLayers: seq<Json>)
    returns (updated: Customization)
    ensures Dict.Keys(updated) == Dict.Keys(c)
    ensures forall k :: Dict.Get(updated, k) == ClearedEntry(c, cats, |cats|, targetName, targetLayers, k)
    ensures Dict.Get(updated, targetName) == Dict.Get(c, targetName)
    ensures |targetLayers| == 0 ==> updated == c
  {
    if |targetLayers| == 0 {
      return c;
    }
    updated := c;
    var i := 0;
    while i < |cats|
      invariant 0 <= i <= |cats|
      invariant Dict.Keys(updated) == Dict.Keys(c)
      invariant forall k :: Dict.Get(updated, k) == ClearedEntry(c, cats, i, targetName, targetLayers, k)
    {
      var category := cats[i];
      ClearStep(c, cats, targetName, targetLayers, i, updated);
      if category.name != targetName {
        var existing := Dict.Get(updated, category.name);
        if Equipped(existing) {
          var existingLayers := LayerIds(existing.value.asset, Some(category));
          if exists layer | layer in existingLayers :: layer in targetLayers {
            updated := Dict.Put(updated, category.name, Cleared(existing.value));
          }
        }
      }
      i := i + 1;
    }
    assert Dict.Get(updated, targetName) == ClearedEntry(c, cats, |cats|, targetName, targetLayers, targetName);
  }

  /** One category of `clearLayerConflicts`: clearing a clashing entry extends the cleared prefix by one. */
  lemma ClearStep(c: Customization, cats: seq<Category>, targetName: string, targetLayers: seq<Json>, i: nat, updated: Customization)
    requires i < |cats|
    requires forall k :: Dict.Get(updated, k) == ClearedEntry(c, cats, i, targetName, targetLayers, k)
    ensures
      var name := cats[i].name;
      var existing := Dict.Get(updated, name);
      if name != targetName && Equipped(existing) && Intersects(LayerIds(existing.value.asset, Some(cats[i])), targetLayers)
      then forall k :: Dict.Get(Dict.Put(updated, name, Cleared(existing.value)), k) == ClearedEntry(c, cats, i + 1, targetName, targetLayers, k)
      else forall k :: Dict.Get(updated, k) == ClearedEntry(c, cats, i + 1, targetName, targetLayers, k)
  {
    var name := cats[i].name;
    var existing := Dict.Get(updated, name);
    var clash := name != targetName && Equipped(existing) && Intersects(LayerIds(existing.value.asset, Some(cats[i])), targetLayers);
    var next := if clash then Dict.Put(updated, name, Cleared(existing.value)) else updated;
    forall k ensures Dict.Get(next, k) == ClearedEntry(c, cats, i + 1, targetName, targetLayers, k) {
      ClearedEntryStep(c, cats, targetName, targetLayers, i, k);
      if k == name && Equipped(existing) {
        assert existing == Dict.Get(c, name);
      }
    }
  }

  /** Checking one more category clears its entry when it clashes, and changes nothing else. */
  lemma ClearedEntryStep(c: Customization, cats: seq<Category>, targetName: string, targetLayers: seq<Json>, i: nat, k: string)
    requires i < |cats|
    ensures ClearedEntry(c, cats, i + 1, targetName, targetLayers, k) ==
      if cats[i].name == k && Dict.Get(c, k).Some? && ClashesAt(c, cats, targetName, targetLayers, i)
      then Some(Cleared(Dict.Get(c, k).value))
      else ClearedEntry(c, cats, i, targetName, targetLayers, k)
  {
    if cats[i].name == k && Dict.Get(c, k).Some? && ClashesAt(c, cats, targetName, targetLayers, i) {
      assert exists j | 0 <= j < i + 1 :: cats[j].name == k && ClashesAt(c, cats, targetName, targetLayers, j);
    }
  }

  /**
   * With unique names, a category's entry is cleared (colour kept) exactly
   * when it clashes with the selection, and left as it was otherwise.
   */
  lemma ClearedEntryAt(c: Customization, cats: seq<Category>, targetName: string, targetLayers: seq<Json>, j: nat)
    requires WellNamed(cats)
    requires j < |cats|
    ensures ClashesAt(c, cats, targetName, targetLayers, j) ==>
      ClearedEntry(c, cats, |cats|, targetName, targetLayers, cats[j].name) == Some(Cleared(Dict.Get(c, cats[j].name).value))
    ensures !ClashesAt(c, cats, targetName, targetLayers, j) ==>
      ClearedEntry(c, cats, |cats|, targetName, targetLayers, cats[j].name) == Dict.Get(c, cats[j].name)
  {
    assert forall i | 0 <= i < |cats| && cats[i].name == cats[j].name :: i == j;
  }

  /** The selection wins: afterwards no other category holding an asset shares a layer with it. */
  lemma ClearSelectionWins(c: Customization, cats: seq<Category>, targetName: string, targetLayers: seq<Json>, updated: Customization, j: nat)
    requires WellNamed(cats)
    requires forall k :: Dict.Get(updated, k) == ClearedEntry(c, cats, |cats|, targetName, targetLayers, k)
    requires j < |cats| && cats[j].name != targetName
    requires EquippedAt(updated, cats, j)
    ensures !Intersects(LayersAt(updated, cats, j), targetLayers)
  {
    ClearedEntryAt(c, cats, targetName, targetLayers, j);
  }

  // ---------------------------------------------------------------------------
  // applyLayerRules
  // ---------------------------------------------------------------------------

  /** The state of the pass: the customization so far and `seenLayers` (layer to keeper name). */
  datatype Pass = Pass(c: Customization, seen: map<Json, string>)

  /** `keeper && keeper !== category.name` for some layer: a truthy keeper other than this category. */
  predicate HasConflict(seen: map<Json, string>, layers: seq<Json>, name: string) {
    exists l | l in layers :: l in seen && seen[l] != "" && seen[l] != name
  }

  /** `layers.forEach((layer) => seenLayers.set(layer, name))`. */
  function Claim(seen: map<Json, string>, layers: seq<Json>, name: string): (r: map<Json, string>)
    ensures r.Keys == seen.Keys + set l | l in layers
    ensures forall l | l in layers :: r[l] == name
    ensures forall l | l in seen && l !in layers :: r[l] == seen[l]
  {
    seen + map l | l in layers :: name
  }

  /** What the pass does with one category. */
  function Step(p: Pass, cat: Category): Pass {
    var entry := Dict.Get(p.c, cat.name);
    if !Equipped(entry) then p
    else
      var layers := LayerIds(entry.value.asset, Some(cat));
      if |layers| == 0 then p
      else if HasConflict(p.seen, layers, cat.name) then Pass(Dict.Put(p.c, cat.name, Cleared(entry.value)), p.seen)
      else Pass(p.c, Claim(p.seen, layers, cat.name))
  }

  /** The pass after the first `k` categories. */
  function Upto(c: Customization, cats: seq<Category>, k: nat): Pass
    requires k <= |cats|
  {
    if k == 0 then Pass(c, map[]) else Step(Upto(c, cats, k - 1), cats[k - 1])
  }

  /**
   * The reference rule: category `j` keeps its asset exactly when it holds
   * one and either it has no layer identities or no earlier category that
   * keeps its asset shares a layer with it.
   */
  predicate Keeps(c: Customization, cats: seq<Category>, j: nat)
    requires j < |cats|
  {
    && EquippedAt(c, cats, j)
    && (LayersAt(c, cats, j) == []
        || forall i | 0 <= i < j :: Keeps(c, cats, i) ==> !Intersects(LayersAt(c, cats, i), LayersAt(c, cats, j)))
  }

  /** Category `j` held an asset and the rule takes it away. */
  predicate Loses(c: Customization, cats: seq<Category>, j: nat)
    requires j < |cats|
  {
    EquippedAt(c, cats, j) && !Keeps(c, cats, j)
  }

  /** The entry under `k` after the reference rule has been applied to the first `n` categories. */
  function RuleEntry(c: Customization, cats: seq<Category>, n: nat, k: string): Option<Entry>
    requires n <= |cats|
  {
    var e := Dict.Get(c, k);
    if e.Some? && exists j | 0 <= j < n :: cats[j].name == k && Loses(c, cats, j)
    then Some(Cleared(e.value))
    else e
  }

  /** The entries after `k` categories are those the reference rule gives. */
  ghost predicate EntriesFollowRule(c: Customization, cats: seq<Category>, k: nat, p: Pass)
    requires k <= |cats|
  {
    && Dict.Keys(p.c) == Dict.Keys(c)
    && (forall x :: Dict.Get(p.c, x) == RuleEntry(c, cats, k, x))
    && ((forall j | 0 <= j < k :: !Loses(c, cats, j)) ==> p.c == c)
  }

  /** Every claimed layer belongs to an earlier keeper, recorded under its name. */
  ghost predicate SeenSound(c: Customization, cats: seq<Category>, k: nat, p: Pass)
    requires k <= |cats|
  {
    forall l | l in p.seen :: exists j | 0 <= j < k :: Keeps(c, cats, j) && l in LayersAt(c, cats, j) && p.seen[l] == cats[j].name
  }

  /** Every layer of an earlier keeper is claimed. */
  ghost predicate SeenComplete(c: Customization, cats: seq<Category>, k: nat, p: Pass)
    requires k <= |cats|
  {
    forall j, l | 0 <= j < k && l in LayersAt(c, cats, j) :: Keeps(c, cats, j) ==> l in p.seen
  }

  /** What the pass knows after `k` categories, when names are unique and non-empty. */
  ghost predicate Inv(c: Customization, cats: seq<Category>, k: nat, p: Pass)
    requires k <= |cats|
  {
    EntriesFollowRule(c, cats, k, p) && SeenSound(c, cats, k, p) && SeenComplete(c, cats, k, p)
  }

  lemma {:induction false} UptoInvariantHolds(c: Customization, cats: seq<Category>, k: nat)
    requires WellNamed(cats)
    requires k <= |cats|
    ensures Inv(c, cats, k, Upto(c, cats, k))
  {
    if k == 0 {
      StartHolds(c, cats);
    } else {
      var j := k - 1;
      UptoInvariantHolds(c, cats, j);
      UptoStep(c, cats, j);
      assert j + 1 == k;
    }
  }

  /** One more category keeps the invariant of the pass. */
  lemma UptoStep(c: Customization, cats: seq<Category>, j: nat)
    requires WellNamed(cats)
    requires j < |cats|
    requires Inv(c, cats, j, Upto(c, cats, j))
    ensures Inv(c, cats, j + 1, Upto(c, cats, j + 1))
  {
    ghost var p := Upto(c, cats, j);
    assert Upto(c, cats, j + 1) == Step(p, cats[j]);
    StepPreserves(c, cats, j, p);
  }

  /** Before any category, the pass holds the customization as given and no claimed layer. */
  lemma StartHolds(c: Customization, cats: seq<Category>)
    ensures Inv(c, cats, 0, Upto(c, cats, 0))
  {
    assert Upto(c, cats, 0) == Pass(c, map[]);
  }

  lemma {:induction false} StepPreserves(c: Customization, cats: seq<Category>, k: nat, p: Pass)
    requires WellNamed(cats)
    requires k < |cats|
    requires Inv(c, cats, k, p)
    ensures Inv(c, cats, k + 1, Step(p, cats[k]))
  {
    var name := cats[k].name;
    RuleEntryExtends(c, cats, k);
    assert Dict.Get(p.c, name) == Dict.Get(c, name);
    if !EquippedAt(c, cats, k) || LayersAt(c, cats, k) == [] {
      StepUnchanged(c, cats, k, p);
    } else if HasConflict(p.seen, LayersAt(c, cats, k), name) {
      StepConflict(c, cats, k, p);
    } else {
      KeepsWithoutConflict(c, cats, k, p);
      StepClaims(c, cats, k, p);
    }
  }

  /** A category without an asset, or without layers, changes nothing and keeps what it has. */
  lemma {:induction false} StepUnchanged(c: Customization, cats: seq<Category>, k: nat, p: Pass)
    requires WellNamed(cats)
    requires k < |cats|
    requires Inv(c, cats, k, p)
    requires !EquippedAt(c, cats, k) || LayersAt(c, cats, k) == []
    ensures Inv(c, cats, k + 1, Step(p, cats[k]))
  {
    RuleEntryExtends(c, cats, k);
    assert Dict.Get(p.c, cats[k].name) == Dict.Get(c, cats[k].name);
    assert Step(p, cats[k]) == p;
    UnchangedEntries(c, cats, k, p);
    SoundExtends(c, cats, k, p);
    CompleteExtends(c, cats, k, p, p);
  }

  /** A category that holds no asset, or holds one without layers, loses nothing under the reference rule. */
  lemma UnchangedEntries(c: Customization, cats: seq<Category>, k: nat, p: Pass)
    requires WellNamed(cats)
    requires k < |cats|
    requires EntriesFollowRule(c, cats, k, p)
    requires !EquippedAt(c, cats, k) || LayersAt(c, cats, k) == []
    ensures EntriesFollowRule(c, cats, k + 1, p)
  {
    assert !Loses(c, cats, k);
    RuleEntryExtends(c, cats, k);
  }

  /** Soundness of the claimed layers survives a longer prefix. */
  lemma SoundExtends(c: Customization, cats: seq<Category>, k: nat, p: Pass)
    requires k < |cats|
    requires SeenSound(c, cats, k, p)
    ensures SeenSound(c, cats, k + 1, p)
  {
    forall l | l in p.seen
      ensures exists j | 0 <= j < k + 1 :: Keeps(c, cats, j) && l in LayersAt(c, cats, j) && p.seen[l] == cats[j].name
    {
      var j :| 0 <= j < k && Keeps(c, cats, j) && l in LayersAt(c, cats, j) && p.seen[l] == cats[j].name;
    }
  }

  /** A category whose layers are already claimed by a keeper loses its asset. */
  lemma {:induction false} StepConflict(c: Customization, cats: seq<Category>, k: nat, p: Pass)
    requires WellNamed(cats)
    requires k < |cats|
    requires Inv(c, cats, k, p)
    requires EquippedAt(c, cats, k) && LayersAt(c, cats, k) != []
    requires HasConflict(p.seen, LayersAt(c, cats, k), cats[k].name)
    ensures Inv(c, cats, k + 1, Step(p, cats[k]))
  {
    ConflictLoses(c, cats, k, p);
    ConflictEntries(c, cats, k, p);
    var q := Step(p, cats[k]);
    ConflictClaimsNothing(c, cats, k, p);
    SoundExtends(c, cats, k, p);
    CompleteExtends(c, cats, k, p, q);
  }

  /** A losing category claims no layers. */
  lemma ConflictClaimsNothing(c: Customization, cats: seq<Category>, k: nat, p: Pass)
    requires WellNamed(cats)
    requires k < |cats|
    requires EntriesFollowRule(c, cats, k, p)
    requires EquippedAt(c, cats, k) && LayersAt(c, cats, k) != []
    requires HasConflict(p.seen, LayersAt(c, cats, k), cats[k].name)
    ensures Step(p, cats[k]).seen == p.seen
  {
    RuleEntryExtends(c, cats, k);
    assert Dict.Get(p.c, cats[k].name) == Dict.Get(c, cats[k].name);
  }

  /** Completeness of the claimed layers survives a category that does not keep its asset. */
  lemma CompleteExtends(c: Customization, cats: seq<Category>, k: nat, p: Pass, q: Pass)
    requires k < |cats|
    requires SeenComplete(c, cats, k, p)
    requires q.seen == p.seen
    requires !Keeps(c, cats, k) || LayersAt(c, cats, k) == []
    ensures SeenComplete(c, cats, k + 1, q)
  {
    forall j, l | 0 <= j < k + 1 && l in LayersAt(c, cats, j) && Keeps(c, cats, j)
      ensures l in q.seen
    {
      assert j < k;
    }
  }

  /** A claimed layer of an earlier keeper takes the asset away under the reference rule. */
  lemma ConflictLoses(c: Customization, cats: seq<Category>, k: nat, p: Pass)
    requires k < |cats|
    requires SeenSound(c, cats, k, p)
    requires EquippedAt(c, cats, k)
    requires HasConflict(p.seen, LayersAt(c, cats, k), cats[k].name)
    ensures Loses(c, cats, k)
  {
    var layers := LayersAt(c, cats, k);
    var l :| l in layers && l in p.seen && p.seen[l] != "" && p.seen[l] != cats[k].name;
    var j :| 0 <= j < k && Keeps(c, cats, j) && l in LayersAt(c, cats, j) && p.seen[l] == cats[j].name;
    KeepsBlocked(c, cats, j, k, l);
  }

  /** An earlier keeper sharing a layer takes the asset away. */
  lemma KeepsBlocked(c: Customization, cats: seq<Category>, j: nat, k: nat, l: Json)
    requires j < k < |cats|
    requires Keeps(c, cats, j)
    requires l in LayersAt(c, cats, j) && l in LayersAt(c, cats, k)
    ensures !Keeps(c, cats, k)
  {
    assert Intersects(LayersAt(c, cats, j), LayersAt(c, cats, k));
  }

  /** Clearing the losing category's entry matches the reference rule on one more category. */
  lemma ConflictEntries(c: Customization, cats: seq<Category>, k: nat, p: Pass)
    requires WellNamed(cats)
    requires k < |cats|
    requires EntriesFollowRule(c, cats, k, p)
    requires EquippedAt(c, cats, k) && LayersAt(c, cats, k) != []
    requires HasConflict(p.seen, LayersAt(c, cats, k), cats[k].name)
    requires Loses(c, cats, k)
    ensures EntriesFollowRule(c, cats, k + 1, Step(p, cats[k]))
  {
    var name := cats[k].name;
    RuleEntryExtends(c, cats, k);
    assert Dict.Get(p.c, name) == Dict.Get(c, name);
    var entry := Dict.Get(c, name).value;
    var q := Step(p, cats[k]);
    assert q.c == Dict.Put(p.c, name, Cleared(entry));
    forall x ensures Dict.Get(q.c, x) == RuleEntry(c, cats, k + 1, x) {
      if x == name {
        assert cats[k].name == x && Loses(c, cats, k);
      }
    }
  }

  /** A category with layers nobody else keeps keeps its asset and claims them. */
  lemma {:induction false} StepClaims(c: Customization, cats: seq<Category>, k: nat, p: Pass)
    requires WellNamed(cats)
    requires k < |cats|
    requires Inv(c, cats, k, p)
    requires EquippedAt(c, cats, k) && LayersAt(c, cats, k) != []
    requires !HasConflict(p.seen, LayersAt(c, cats, k), cats[k].name)
    requires Keeps(c, cats, k)
    ensures Inv(c, cats, k + 1, Step(p, cats[k]))
  {
    var name := cats[k].name;
    var layers := LayersAt(c, cats, k);
    RuleEntryExtends(c, cats, k);
    assert Dict.Get(p.c, name) == Dict.Get(c, name);
    var q := Step(p, cats[k]);
    assert q == Pass(p.c, Claim(p.seen, layers, name));
    ClaimsEntries(c, cats, k, p, q);
    ClaimsSound(c, cats, k, p, q);
    ClaimsComplete(c, cats, k, p, q);
  }

  /** A keeper's entry stays, and so do all the others. */
  lemma ClaimsEntries(c: Customization, cats: seq<Category>, k: nat, p: Pass, q: Pass)
    requires WellNamed(cats)
    requires k < |cats|
    requires EntriesFollowRule(c, cats, k, p)
    requires Keeps(c, cats, k)
    requires q.c == p.c
    ensures EntriesFollowRule(c, cats, k + 1, q)
  {
    RuleEntryExtends(c, cats, k);
  }

  /** The layers a keeper claims are recorded under its name. */
  lemma ClaimsSound(c: Customization, cats: seq<Category>, k: nat, p: Pass, q: Pass)
    requires k < |cats|
    requires SeenSound(c, cats, k, p)
    requires Keeps(c, cats, k)
    requires q.seen == Claim(p.seen, LayersAt(c, cats, k), cats[k].name)
    ensures SeenSound(c, cats, k + 1, q)
  {
    var layers := LayersAt(c, cats, k);
    forall l | l in q.seen
      ensures exists j | 0 <= j < k + 1 :: Keeps(c, cats, j) && l in LayersAt(c, cats, j) && q.seen[l] == cats[j].name
    {
      if l in layers {
        assert Keeps(c, cats, k) && l in LayersAt(c, cats, k) && q.seen[l] == cats[k].name;
      } else {
        var j :| 0 <= j < k && Keeps(c, cats, j) && l in LayersAt(c, cats, j) && p.seen[l] == cats[j].name;
        assert q.seen[l] == p.seen[l];
      }
    }
  }

  /** After a keeper claims its layers, every keeper's layers so far are claimed. */
  lemma ClaimsComplete(c: Customization, cats: seq<Category>, k: nat, p: Pass, q: Pass)
    requires k < |cats|
    requires SeenComplete(c, cats, k, p)
    requires q.seen == Claim(p.seen, LayersAt(c, cats, k), cats[k].name)
    ensures SeenComplete(c, cats, k + 1, q)
  {
    forall j, l | 0 <= j < k + 1 && l in LayersAt(c, cats, j) && Keeps(c, cats, j)
      ensures l in q.seen
    {
      if j < k {
        assert l in p.seen;
      }
    }
  }

  lemma {:induction false} KeepsWithoutConflict(c: Customization, cats: seq<Category>, k: nat, p: Pass)
    requires WellNamed(cats)
    requires k < |cats|
    requires Inv(c, cats, k, p)
    requires EquippedAt(c, cats, k) && LayersAt(c, cats, k) != []
    requires !HasConflict(p.seen, LayersAt(c, cats, k), cats[k].name)
    ensures Keeps(c, cats, k)
  {
    forall i, l | 0 <= i < k && Keeps(c, cats, i) && l in LayersAt(c, cats, i)
      ensures l !in LayersAt(c, cats, k)
    {
      assert l in p.seen;
      var j :| 0 <= j < k && Keeps(c, cats, j) && l in LayersAt(c, cats, j) && p.seen[l] == cats[j].name;
      assert p.seen[l] != "" && p.seen[l] != cats[k].name;
    }
  }

  /** Extending the prefix by a category that does not lose changes only that category's entry. */
  lemma RuleEntryExtends(c: Customization, cats: seq<Category>, k: nat)
    requires WellNamed(cats)
    requires k < |cats|
    ensures forall x | x != cats[k].name :: RuleEntry(c, cats, k + 1, x) == RuleEntry(c, cats, k, x)
    ensures !Loses(c, cats, k) ==> forall x :: RuleEntry(c, cats, k + 1, x) == RuleEntry(c, cats, k, x)
    ensures RuleEntry(c, cats, k, cats[k].name) == Dict.Get(c, cats[k].name)
  {
    forall x ensures x != cats[k].name || !Loses(c, cats, k) ==> RuleEntry(c, cats, k + 1, x) == RuleEntry(c, cats, k, x) {
      RuleEntryStep(c, cats, k, x);
    }
    assert forall j | 0 <= j < k :: cats[j].name != cats[k].name;
  }

  /** One more category under the reference rule clears its entry when it loses, and changes nothing else. */
  lemma RuleEntryStep(c: Customization, cats: seq<Category>, k: nat, x: string)
    requires k < |cats|
    ensures RuleEntry(c, cats, k + 1, x) ==
      if cats[k].name == x && Dict.Get(c, x).Some? && Loses(c, cats, k)
      then Some(Cleared(Dict.Get(c, x).value))
      else RuleEntry(c, cats, k, x)
  {
    if cats[k].name == x && Dict.Get(c, x).Some? && Loses(c, cats, k) {
      assert exists j | 0 <= j < k + 1 :: cats[j].name == x && Loses(c, cats, j);
    }
  }

  /**
   * `applyLayerRules(customization, categories)`: walk the categories in
   * order; an equipped category whose layers are already claimed by another
   * category loses its asset, otherwise it claims its layers.
   */
  method ApplyLayerRules(c: Customization, cats: seq<Category>) returns (updated: Customization)
    ensures updated == Upto(c, cats, |cats|).c
  {
    updated := c;
    var seenLayers: map<Json, string> := map[];
    var i := 0;
    while i < |cats|
      invariant 0 <= i <= |cats|
      invariant Pass(updated, seenLayers) == Upto(c, cats, i)
    {
      ghost var p := Upto(c, cats, i);
      assert Upto(c, cats, i + 1) == Step(p, cats[i]);
      var category := cats[i];
      var entry := Dict.Get(updated, category.name);
      if Equipped(entry) {
        var layers := LayerIds(entry.value.asset, Some(category));
        if |layers| > 0 {
          var hasConflict := exists l | l in layers :: l in seenLayers && seenLayers[l] != "" && seenLayers[l] != category.name;
          if hasConflict {
            updated := Dict.Put(updated, category.name, Cleared(entry.value));
          } else {
            seenLayers := ClaimLayers(seenLayers, layers, category.name);
          }
        }
      }
      i := i + 1;
    }
  }

  /** The inner loop of the pass: every layer of the category is claimed under its name. */
  method ClaimLayers(seen: map<Json, string>, layers: seq<Json>, name: string) returns (r: map<Json, string>)
    ensures r == Claim(seen, layers, name)
  {
    r := seen;
    var j := 0;
    while j < |layers|
      invariant 0 <= j <= |layers|
      invariant r.Keys == seen.Keys + set l | l in layers[..j]
      invariant forall l | l in layers[..j] :: r[l] == name
      invariant forall l | l in seen && l !in layers[..j] :: r[l] == seen[l]
    {
      assert layers[..j + 1] == layers[..j] + [layers[j]];
      r := r[layers[j] := name];
      j := j + 1;
    }
    assert layers[..j] == layers;
  }

  /** The result of the bulk pass. */
  function LayerRulesResult(c: Customization, cats: seq<Category>): Customization {
    Upto(c, cats, |cats|).c
  }

  /**
   * The pass agrees with the reference rule: no key is added or moved, a
   * category's entry loses its asset exactly when the rule takes it away
   * (its colour stays), every other entry is unchanged, and when nothing
   * is taken away the customization is returned as it was.
   */
  lemma LayerRulesMatchRule(c: Customization, cats: seq<Category>)
    requires WellNamed(cats)
    ensures Dict.Keys(LayerRulesResult(c, cats)) == Dict.Keys(c)
    ensures forall x :: Dict.Get(LayerRulesResult(c, cats), x) == RuleEntry(c, cats, |cats|, x)
    ensures (forall j | 0 <= j < |cats| :: !Loses(c, cats, j)) ==> LayerRulesResult(c, cats) == c
  {
    UptoInvariantHolds(c, cats, |cats|);
  }

  /** No two categories holding assets share a layer identity. */
  predicate Exclusive(c: Customization, cats: seq<Category>) {
    forall i, j | 0 <= i < j < |cats| ::
      EquippedAt(c, cats, i) && EquippedAt(c, cats, j) ==> !Intersects(LayersAt(c, cats, i), LayersAt(c, cats, j))
  }

  /**
   * After the pass a category holds an asset exactly when the reference rule
   * keeps it; a kept entry is untouched and a lost one is cleared with its
   * colour kept.
   */
  lemma LayerRulesKeep(c: Customization, cats: seq<Category>, j: nat)
    requires WellNamed(cats)
    requires j < |cats|
    ensures EquippedAt(LayerRulesResult(c, cats), cats, j) <==> Keeps(c, cats, j)
    ensures !Loses(c, cats, j) ==> Dict.Get(LayerRulesResult(c, cats), cats[j].name) == Dict.Get(c, cats[j].name)
    ensures Loses(c, cats, j) ==> Dict.Get(LayerRulesResult(c, cats), cats[j].name) == Some(Cleared(Dict.Get(c, cats[j].name).value))
    ensures Keeps(c, cats, j) ==> LayersAt(LayerRulesResult(c, cats), cats, j) == LayersAt(c, cats, j)
  {
    LayerRulesMatchRule(c, cats);
    var name := cats[j].name;
    assert forall i | 0 <= i < |cats| && cats[i].name == name :: i == j;
    assert Dict.Get(LayerRulesResult(c, cats), name) == RuleEntry(c, cats, |cats|, name);
  }

  /** After the pass no two categories holding assets share a layer. */
  lemma LayerRulesExclusive(c: Customization, cats: seq<Category>)
    requires WellNamed(cats)
    ensures Exclusive(LayerRulesResult(c, cats), cats)
  {
    var r := LayerRulesResult(c, cats);
    forall i, j | 0 <= i < j < |cats| && EquippedAt(r, cats, i) && EquippedAt(r, cats, j)
      ensures !Intersects(LayersAt(r, cats, i), LayersAt(r, cats, j))
    {
      LayerRulesKeep(c, cats, i);
      LayerRulesKeep(c, cats, j);
    }
  }

  /**
   * Tie-break: a category that holds an asset after the pass takes it away
   * from every later category sharing one of its layers.
   */
  lemma LayerRulesEarlierWins(c: Customization, cats: seq<Category>, i: nat, j: nat)
    requires WellNamed(cats)
    requires i < j < |cats|
    requires EquippedAt(LayerRulesResult(c, cats), cats, i)
    requires EquippedAt(c, cats, j)
    requires Intersects(LayersAt(c, cats, i), LayersAt(c, cats, j))
    ensures Dict.Get(LayerRulesResult(c, cats), cats[j].name) == Some(Cleared(Dict.Get(c, cats[j].name).value))
  {
    LayerRulesKeep(c, cats, i);
    var l :| l in LayersAt(c, cats, i) && l in LayersAt(c, cats, j);
    KeepsBlocked(c, cats, i, j, l);
    LayerRulesKeep(c, cats, j);
  }

  /** Conversely, a category loses its asset only to an earlier category that keeps one sharing a layer. */
  lemma LayerRulesLossHasCause(c: Customization, cats: seq<Category>, j: nat)
    requires WellNamed(cats)
    requires j < |cats|
    requires EquippedAt(c, cats, j)
    requires !EquippedAt(LayerRulesResult(c, cats), cats, j)
    ensures LayersAt(c, cats, j) != []
    ensures exists i | 0 <= i < j :: EquippedAt(LayerRulesResult(c, cats), cats, i) && Intersects(LayersAt(c, cats, i), LayersAt(c, cats, j))
  {
    LayerRulesKeep(c, cats, j);
    var i :| 0 <= i < j && Keeps(c, cats, i) && Intersects(LayersAt(c, cats, i), LayersAt(c, cats, j));
    LayerRulesKeep(c, cats, i);
  }

  /** A category without layer identities keeps its entry as it was. */
  lemma LayerRulesSparesLayerFree(c: Customization, cats: seq<Category>, j: nat)
    requires WellNamed(cats)
    requires j < |cats|
    requires LayersAt(c, cats, j) == []
    ensures Dict.Get(LayerRulesResult(c, cats), cats[j].name) == Dict.Get(c, cats[j].name)
  {
    LayerRulesKeep(c, cats, j);
  }

  /** Without conflicts every category that holds an asset keeps it under the reference rule. */
  lemma {:induction false} ExclusiveKeeps(c: Customization, cats: seq<Category>, j: nat)
    requires Exclusive(c, cats)
    requires j < |cats|
    ensures Keeps(c, cats, j) <==> EquippedAt(c, cats, j)
    decreases j
  {
    forall i | 0 <= i < j
      ensures Keeps(c, cats, i) <==> EquippedAt(c, cats, i)
    {
      ExclusiveKeeps(c, cats, i);
    }
  }

  /** A customization without conflicts is returned as it was. */
  lemma LayerRulesFixesExclusive(c: Customization, cats: seq<Category>)
    requires WellNamed(cats)
    requires Exclusive(c, cats)
    ensures LayerRulesResult(c, cats) == c
  {
    forall j | 0 <= j < |cats|
      ensures !Loses(c, cats, j)
    {
      ExclusiveKeeps(c, cats, j);
    }
    LayerRulesMatchRule(c, cats);
  }

  /** Running the pass twice gives the same result as running it once. */
  lemma LayerRulesIdempotent(c: Customization, cats: seq<Category>)
    requires WellNamed(cats)
    ensures LayerRulesResult(LayerRulesResult(c, cats), cats) == LayerRulesResult(c, cats)
  {
    LayerRulesExclusive(c, cats);
    LayerRulesFixesExclusive(LayerRulesResult(c, cats), cats);
  }
}
