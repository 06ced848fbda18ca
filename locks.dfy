/**
 * Lock derivation of store.js (`applyLockedAssets`): every equipped asset
 * carrying `lockedGroups` locks the categories those values name, and the
 * locks are listed per locked category, without duplicates and never on the
 * locking category itself. The table is recomputed from scratch each time.
 */
module Locks {
  import opened Wrappers
  import opened Json
  import Dict
  import opened Catalog
  import opened Groups

  /** One lock to record: `target` is locked by `lock`. */
  datatype Request = Request(target: string, lock: Lock)

  /** `Array.isArray(asset.lockedGroups) ? asset.lockedGroups : [asset.lockedGroups]`. */
  function GroupEntries(asset: Asset): seq<Json> {
    var g := Field(asset, "lockedGroups");
    if g.Arr? then g.items else [g]
  }

  /**
   * `lockingCategory?.name ?? categoryName`: the category the asset's `group`
   * identifies, else the category whose name is the customization key, else
   * the key itself.
   */
  function LockingName(cats: seq<Category>, categoryName: string, asset: Asset): string {
    match FindCategoryByIdentifier(cats, Field(asset, "group"))
    case Some(cat) => cat.name
    case None =>
      match FindFirst(cats, (cat: Category) => cat.name == categoryName)
      case Some(cat) => cat.name
      case None => categoryName
  }

  /**
   * What one locked-group value asks for: nothing when its identifier is
   * blank or names no category, or when it names the locking category.
   */
  function GroupRequest(cats: seq<Category>, group: Json, assetName: Json, lockingName: string): (r: Option<Request>)
    ensures r.Some? ==> r.value.target != lockingName && r.value.lock == Lock(assetName, lockingName)
    ensures r.Some? ==> exists i | 0 <= i < |cats| :: cats[i].name == r.value.target
    ensures ResolveGroupIdentifier(group).None? ==> r.None?
  {
    match ResolveGroupIdentifier(group)
    case None => None
    case Some(id) =>
      match FindCategoryByIdentifier(cats, Str(id))
      case None => None
      case Some(target) =>
        if target.name == lockingName then None
        else Some(Request(target.name, Lock(assetName, lockingName)))
  }

  /** The requests of a list of locked-group values, in order. */
  function GroupRequests(cats: seq<Category>, groups: seq<Json>, assetName: Json, lockingName: string): seq<Request> {
    FilterMap(groups, RequestFor(cats, assetName, lockingName))
  }

  /** `GroupRequest` with everything but the locked-group value fixed. */
  function RequestFor(cats: seq<Category>, assetName: Json, lockingName: string): Json -> Option<Request> {
    (g: Json) => GroupRequest(cats, g, assetName, lockingName)
  }

  /** The requests of one customization entry: none unless its asset has truthy `lockedGroups`. */
  function EntryRequests(cats: seq<Category>, categoryName: string, entry: Entry): seq<Request> {
    var asset := entry.asset;
    if !Truthy(Field(asset, "lockedGroups")) then []
    else GroupRequests(cats, GroupEntries(asset), Field(asset, "name"), LockingName(cats, categoryName, asset))
  }

  /** The requests of a whole customization, in entry order. */
  function Requests(c: Customization, cats: seq<Category>): seq<Request> {
    FlatMap(c, (e: (string, Entry)) => EntryRequests(cats, e.0, e.1))
  }

  /**
   * Recording one request: the target's list is created when missing, and
   * the lock is pushed unless the same `(name, categoryName)` is listed.
   */
  function Insert(acc: LockedGroups, r: Request): LockedGroups {
    match Dict.Get(acc, r.target)
    case None => Dict.Put(acc, r.target, [r.lock])
    case Some(list) => if r.lock in list then acc else Dict.Put(acc, r.target, list + [r.lock])
  }

  /** `Insert` is the create-then-push of the source. */
  lemma InsertPushes(acc: LockedGroups, target: string, lock: Lock, list: seq<Lock>)
    requires list == match Dict.Get(acc, target) case Some(l) => l case None => []
    ensures Insert(acc, Request(target, lock)) == if lock in list then acc else Dict.Put(acc, target, list + [lock])
  {
    if Dict.Get(acc, target).None? {
      assert list + [lock] == [lock];
    }
  }

  function Fold(acc: LockedGroups, rs: seq<Request>): LockedGroups {
    if rs == [] then acc else Insert(Fold(acc, rs[..|rs| - 1]), rs[|rs| - 1])
  }

  /** The lock table `applyLockedAssets` computes from a customization and the categories. */
  function LockedGroupsOf(c: Customization, cats: seq<Category>): LockedGroups {
    Fold([], Requests(c, cats))
  }

  lemma FoldSnoc(acc: LockedGroups, rs: seq<Request>, r: Request)
    ensures Fold(acc, rs + [r]) == Insert(Fold(acc, rs), r)
  {
    assert (rs + [r])[..|rs|] == rs;
  }

  lemma {:induction false} FoldAppend(acc: LockedGroups, rs: seq<Request>, ts: seq<Request>)
    ensures Fold(acc, rs + ts) == Fold(Fold(acc, rs), ts)
    decreases |ts|
  {
    if ts == [] {
      assert rs + ts == rs;
    } else {
      var last := ts[|ts| - 1];
      var init := ts[..|ts| - 1];
      assert ts == init + [last];
      assert rs + ts == (rs + init) + [last];
      FoldSnoc(acc, rs + init, last);
      FoldAppend(acc, rs, init);
      FoldSnoc(Fold(acc, rs), init, last);
    }
  }

  /**
   * `applyLockedAssets`: walk the customization entries in order and, for
   * each locked-group value of an asset, push a lock onto the target
   * category's list.
   */
  method ComputeLockedGroups(c: Customization, cats: seq<Category>) returns (locked: LockedGroups)
    ensures locked == LockedGroupsOf(c, cats)
  {
    locked := [];
    var i := 0;
    while i < |c|
      invariant 0 <= i <= |c|
      invariant locked == Fold([], Requests(c[..i], cats))
    {
      assert c[..i + 1][..i] == c[..i];
      var categoryName := c[i].0;
      var asset := c[i].1.asset;
      ghost var before := locked;
      if Truthy(Field(asset, "lockedGroups")) {
        var lockingName := LockingName(cats, categoryName, asset);
        locked := LockGroups(locked, cats, GroupEntries(asset), Field(asset, "name"), lockingName);
      }
      FoldAppend([], Requests(c[..i], cats), EntryRequests(cats, categoryName, c[i].1));
      i := i + 1;
    }
    assert c[..i] == c;
  }

  /** `groupEntries.forEach` for one asset: every locked-group value in order. */
  method LockGroups(start: LockedGroups, cats: seq<Category>, groups: seq<Json>, assetName: Json, lockingName: string)
    returns (locked: LockedGroups)
    ensures locked == Fold(start, GroupRequests(cats, groups, assetName, lockingName))
  {
    locked := start;
    var j := 0;
    ghost var done: seq<Request> := [];
    assert groups[..0] == [];
    while j < |groups|
      invariant 0 <= j <= |groups|
      invariant done == GroupRequests(cats, groups[..j], assetName, lockingName)
      invariant locked == Fold(start, done)
    {
      ghost var step := GroupRequest(cats, groups[j], assetName, lockingName);
      assert groups[..j + 1] == groups[..j] + [groups[j]];
      FilterMapSnoc(groups[..j], groups[j], RequestFor(cats, assetName, lockingName));
      locked := LockGroup(locked, cats, groups[j], assetName, lockingName);
      if step.Some? {
        FoldSnoc(start, done, step.value);
        done := done + [step.value];
      }
      j := j + 1;
    }
    assert groups[..j] == groups;
  }

  /** The `groupEntries.forEach` callback: record the lock one locked-group value asks for, if any. */
  method LockGroup(locked: LockedGroups, cats: seq<Category>, group: Json, assetName: Json, lockingName: string)
    returns (updated: LockedGroups)
    ensures updated == match GroupRequest(cats, group, assetName, lockingName)
      case None => locked
      case Some(r) => Insert(locked, r)
  {
    updated := locked;
    var identifier := ResolveGroupIdentifier(group);
    if identifier.None? {
      assert GroupRequest(cats, group, assetName, lockingName).None?;
      return;
    }
    var targetCategory := FindCategoryByIdentifier(cats, Str(identifier.value));
    if targetCategory.None? || targetCategory.value.name == lockingName {
      assert GroupRequest(cats, group, assetName, lockingName).None?;
      return;
    }
    assert GroupRequest(cats, group, assetName, lockingName) == Some(Request(targetCategory.value.name, Lock(assetName, lockingName)));
    updated := Push(locked, targetCategory.value.name, Lock(assetName, lockingName));
  }

  /** Creates the target's list when missing, then pushes the lock unless it is listed already. */
  method Push(locked: LockedGroups, targetName: string, lock: Lock) returns (updated: LockedGroups)
    ensures updated == Insert(locked, Request(targetName, lock))
  {
    var list: seq<Lock> := match Dict.Get(locked, targetName) case Some(l) => l case None => [];
    InsertPushes(locked, targetName, lock, list);
    var alreadyLocked := exists k | 0 <= k < |list| :: list[k].name == lock.name && list[k].categoryName == lock.categoryName;
    assert alreadyLocked <==> lock in list;
    updated := locked;
    if !alreadyLocked {
      updated := Dict.Put(locked, targetName, list + [lock]);
    }
  }

  // ---------------------------------------------------------------------------
  // Properties of the lock table
  // ---------------------------------------------------------------------------

  /** `lock` is listed under `target`. */
  predicate Holds(acc: LockedGroups, target: string, lock: Lock) {
    Dict.Get(acc, target).Some? && lock in Dict.Get(acc, target).value
  }

  /** Keys are distinct, every list is non-empty and lists no lock twice. */
  predicate WellFormed(acc: LockedGroups) {
    && Dict.DistinctKeys(acc)
    && forall i | 0 <= i < |acc| ::
         acc[i].1 != [] && forall p, q | 0 <= p < q < |acc[i].1| :: acc[i].1[p] != acc[i].1[q]
  }

  lemma InsertWellFormed(acc: LockedGroups, r: Request)
    requires WellFormed(acc)
    ensures WellFormed(Insert(acc, r))
  {
    var list := Dict.Get(acc, r.target);
    if list.None? {
      Dict.PutDistinct(acc, r.target, [r.lock]);
    } else if r.lock !in list.value {
      Dict.PutDistinct(acc, r.target, list.value + [r.lock]);
    }
  }

  lemma InsertHolds(acc: LockedGroups, r: Request)
    ensures forall t, l :: Holds(Insert(acc, r), t, l) <==> Holds(acc, t, l) || Request(t, l) == r
    ensures forall t :: Dict.Get(Insert(acc, r), t).Some? <==> Dict.Get(acc, t).Some? || t == r.target
  {
  }

  lemma {:induction false} FoldProperties(acc: LockedGroups, rs: seq<Request>)
    requires WellFormed(acc)
    ensures WellFormed(Fold(acc, rs))
    ensures forall t, l :: Holds(Fold(acc, rs), t, l) <==> Holds(acc, t, l) || Request(t, l) in rs
    ensures forall t :: Dict.Get(Fold(acc, rs), t).Some? <==> Dict.Get(acc, t).Some? || exists r | r in rs :: r.target == t
  {
    if rs != [] {
      var init := rs[..|rs| - 1];
      var last := rs[|rs| - 1];
      assert rs == init + [last];
      FoldProperties(acc, init);
      InsertWellFormed(Fold(acc, init), last);
      InsertHolds(Fold(acc, init), last);
      assert forall r | r in rs :: r in init || r == last;
    }
  }

  /**
   * The reference description of one lock: some entry's asset with truthy
   * `lockedGroups` has a locked-group value asking for it.
   */
  predicate Requested(c: Customization, cats: seq<Category>, target: string, lock: Lock) {
    exists i, g | 0 <= i < |c| && g in GroupEntries(c[i].1.asset) ::
      && Truthy(Field(c[i].1.asset, "lockedGroups"))
      && GroupRequest(cats, g, Field(c[i].1.asset, "name"), LockingName(cats, c[i].0, c[i].1.asset)) == Some(Request(target, lock))
  }

  lemma RequestsMembers(c: Customization, cats: seq<Category>, target: string, lock: Lock)
    ensures Request(target, lock) in Requests(c, cats) <==> Requested(c, cats, target, lock)
  {
    var r := Request(target, lock);
    var f := (e: (string, Entry)) => EntryRequests(cats, e.0, e.1);
    FlatMapMembers(c, f, r);
    forall i | 0 <= i < |c|
      ensures r in f(c[i]) <==> exists g | g in GroupEntries(c[i].1.asset) ::
        && Truthy(Field(c[i].1.asset, "lockedGroups"))
        && GroupRequest(cats, g, Field(c[i].1.asset, "name"), LockingName(cats, c[i].0, c[i].1.asset)) == Some(r)
    {
      var asset := c[i].1.asset;
      FilterMapMembers(GroupEntries(asset), RequestFor(cats, Field(asset, "name"), LockingName(cats, c[i].0, asset)), r);
    }
  }

  /**
   * The lock table lists exactly the requested locks: `lock` is under
   * `target` if and only if some equipped asset's locked-group value asks
   * for it; `target` has a list if and only if some lock is requested for it.
   */
  lemma LockedGroupsExact(c: Customization, cats: seq<Category>, target: string, lock: Lock)
    ensures Holds(LockedGroupsOf(c, cats), target, lock) <==> Requested(c, cats, target, lock)
    ensures Dict.Get(LockedGroupsOf(c, cats), target).Some? <==> exists r | r in Requests(c, cats) :: r.target == target
  {
    FoldProperties([], Requests(c, cats));
    RequestsMembers(c, cats, target, lock);
  }

  /** Each target's list is non-empty and never lists the same `(name, categoryName)` twice; keys are distinct. */
  lemma LockedGroupsWellFormed(c: Customization, cats: seq<Category>)
    ensures WellFormed(LockedGroupsOf(c, cats))
  {
    FoldProperties([], Requests(c, cats));
  }

  /** A category is never locked by itself, and only categories that exist are locked. */
  lemma LockedGroupsNoSelfLock(c: Customization, cats: seq<Category>, target: string, lock: Lock)
    requires Holds(LockedGroupsOf(c, cats), target, lock)
    ensures lock.categoryName != target
    ensures exists i | 0 <= i < |cats| :: cats[i].name == target
  {
    LockedGroupsExact(c, cats, target, lock);
  }

  /**
   * Locked-group values that are all blank, unresolvable, or resolve to an
   * identifier naming no category lock nothing.
   */
  lemma UnresolvableLocksNothing(c: Customization, cats: seq<Category>, target: string, lock: Lock)
    requires forall i, g | 0 <= i < |c| && g in GroupEntries(c[i].1.asset) ::
      ResolveGroupIdentifier(g).None? || FindCategoryByIdentifier(cats, Str(ResolveGroupIdentifier(g).value)).None?
    ensures !Holds(LockedGroupsOf(c, cats), target, lock)
  {
    LockedGroupsExact(c, cats, target, lock);
  }
}
