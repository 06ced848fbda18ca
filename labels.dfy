/**
 * Icon and label selection of utils/assets.js: `getValueAtPath`,
 * `pickFirstString`, `isAssetLocked`, `getAssetIcon` and `getAssetLabel`.
 * An explicit non-blank string on the asset wins; otherwise a locked asset
 * gets the locked default, any other the active or inactive default.
 */
module Labels {
  import opened Wrappers
  import opened Strings
  import opened ObjectGraph

  /** A candidate: a single key, or a path of keys through nested objects. */
  datatype Path = Key(key: string) | Segments(segments: seq<string>)

  const IconActiveCandidates: seq<Path> := [
    Segments(["icons", "active"]), Key("iconActive"), Key("activeIcon"), Key("icon_active"),
    Key("active_icon"), Key("iconActiveClass"), Key("activeIconClass")
  ]

  const IconInactiveCandidates: seq<Path> := [
    Segments(["icons", "inactive"]), Key("iconInactive"), Key("inactiveIcon"), Key("icon_inactive"),
    Key("inactive_icon"), Key("iconInactiveClass"), Key("inactiveIconClass")
  ]

  const LabelActiveCandidates: seq<Path> := [
    Segments(["labels", "active"]), Key("labelActive"), Key("activeLabel"), Key("label_active"), Key("active_label")
  ]

  const LabelInactiveCandidates: seq<Path> := [
    Segments(["labels", "inactive"]), Key("labelInactive"), Key("inactiveLabel"), Key("label_inactive"), Key("inactive_label")
  ]

  const LockedFlagFields: seq<string> := ["locked", "isLocked", "pinned", "isPinned", "bundled", "isBundled"]

  const DefaultActiveIcon: string := "bi-check2-circle"
  const DefaultInactiveIcon: string := "bi-plus-circle"
  const DefaultLockedIcon: string := "bi-pin-angle-fill"

  const DefaultActiveLabel: string := "Equipped"
  const DefaultInactiveLabel: string := "Tap to equip"
  const DefaultLockedLabel: string := "Bundled"

  /** An object, as `typeof current === "object"` with `current` truthy. */
  predicate IsObject(v: Value) {
    v.Ref?
  }

  /** Following `segments` from `current`, giving up at the first value that is not an object. */
  function Walk(h: Heap, current: Value, segments: seq<string>): Value
    decreases |segments|
  {
    if segments == [] then current
    else if !IsObject(current) then Undefined
    else Walk(h, Prop(h, current, segments[0]), segments[1..])
  }

  /** `getValueAtPath(source, path)`. */
  function ValueAt(h: Heap, source: Value, path: Path): Value {
    if !Truthy(source) then Undefined
    else match path
      case Key(k) => Prop(h, source, k)
      case Segments(ss) => Walk(h, source, ss)
  }

  method GetValueAtPath(h: Heap, source: Value, path: Path) returns (r: Value)
    ensures r == ValueAt(h, source, path)
  {
    if !Truthy(source) {
      return Undefined;
    }
    if path.Key? {
      return Prop(h, source, path.key);
    }
    var current := source;
    var k := 0;
    while k < |path.segments|
      invariant 0 <= k <= |path.segments|
      invariant Walk(h, current, path.segments[k..]) == ValueAt(h, source, path)
    {
      if !Truthy(current) || !current.Ref? {
        return Undefined;
      }
      assert path.segments[k..][1..] == path.segments[k + 1..];
      current := Prop(h, current, path.segments[k]);
      k := k + 1;
    }
    return current;
  }

  /** A walk along `a + b` is the walk along `a`, continued along `b`. */
  lemma {:induction false} WalkAppend(h: Heap, current: Value, a: seq<string>, b: seq<string>)
    ensures Walk(h, current, a + b) == Walk(h, Walk(h, current, a), b)
    decreases |a|
  {
    if a == [] {
      assert a + b == b;
    } else if IsObject(current) {
      assert (a + b)[1..] == a[1..] + b;
      WalkAppend(h, Prop(h, current, a[0]), a[1..], b);
    } else {
      assert (a + b)[0] == a[0];
      if b != [] { assert Walk(h, Undefined, b) == Undefined; }
    }
  }

  /** Once an intermediate value is not an object, any further segment gives `undefined`. */
  lemma NonObjectStops(h: Heap, source: Value, a: seq<string>, k: string, b: seq<string>)
    requires Truthy(source) && !IsObject(Walk(h, source, a))
    ensures ValueAt(h, source, Segments(a + [k] + b)) == Undefined
  {
    WalkAppend(h, source, a, [k] + b);
    assert a + [k] + b == a + ([k] + b);
  }

  /** A one-segment path reads the same property as the key itself. */
  lemma SingleSegment(h: Heap, source: Value, k: string)
    ensures ValueAt(h, source, Segments([k])) == ValueAt(h, source, Key(k))
  {
    if Truthy(source) {
      assert ValueAt(h, source, Segments([k])) == Walk(h, source, [k]);
      assert ValueAt(h, source, Key(k)) == Prop(h, source, k);
      assert [k][1..] == [] && [k][0] == k;
      if IsObject(source) {
        assert Walk(h, source, [k]) == Walk(h, Prop(h, source, k), []);
      } else {
        assert Walk(h, source, [k]) == Undefined;
        assert Prop(h, source, k) == Undefined;
      }
    }
  }

  /** `typeof value === "string" && value.trim()`: the trimmed string when it is not blank. */
  function NonBlank(v: Value): (r: Option<string>)
    ensures r.Some? <==> v.Str? && !IsBlank(v.s)
    ensures r.Some? ==> r.value == Trim(v.s) && r.value != [] && IsTrimmed(r.value)
  {
    if v.Str? && Trim(v.s) != [] then Some(Trim(v.s)) else None
  }

  /** The first candidate whose value is a non-blank string, trimmed. */
  function FirstString(h: Heap, source: Value, candidates: seq<Path>): (r: Option<string>)
    ensures r.Some? ==> r.value != [] && IsTrimmed(r.value)
    decreases |candidates|
  {
    if candidates == [] then None
    else
      var first := NonBlank(ValueAt(h, source, candidates[0]));
      if first.Some? then first else FirstString(h, source, candidates[1..])
  }

  /** `pickFirstString(source, candidates)`. */
  method PickFirstString(h: Heap, source: Value, candidates: seq<Path>) returns (r: Option<string>)
    ensures r == FirstString(h, source, candidates)
  {
    var k := 0;
    while k < |candidates|
      invariant 0 <= k <= |candidates|
      invariant FirstString(h, source, candidates[k..]) == FirstString(h, source, candidates)
    {
      var value := GetValueAtPath(h, source, candidates[k]);
      if value.Str? && Trim(value.s) != [] {
        return Some(Trim(value.s));
      }
      assert candidates[k..][1..] == candidates[k + 1..];
      k := k + 1;
    }
    return None;
  }

  /** The picked string is that of the first candidate holding a non-blank string, trimmed. */
  lemma {:induction false} FirstStringAt(h: Heap, source: Value, candidates: seq<Path>, i: nat)
    requires i < |candidates| && NonBlank(ValueAt(h, source, candidates[i])).Some?
    requires forall j | 0 <= j < i :: NonBlank(ValueAt(h, source, candidates[j])).None?
    ensures FirstString(h, source, candidates) == NonBlank(ValueAt(h, source, candidates[i]))
    decreases i
  {
    if i > 0 {
      var rest := candidates[1..];
      assert NonBlank(ValueAt(h, source, candidates[0])).None?;
      assert FirstString(h, source, candidates) == FirstString(h, source, rest);
      assert rest[i - 1] == candidates[i];
      forall j | 0 <= j < i - 1 ensures NonBlank(ValueAt(h, source, rest[j])).None? {
        assert rest[j] == candidates[j + 1];
      }
      FirstStringAt(h, source, rest, i - 1);
    }
  }

  /** Nothing is picked exactly when no candidate holds a non-blank string. */
  lemma {:induction false} FirstStringNone(h: Heap, source: Value, candidates: seq<Path>)
    requires forall i | 0 <= i < |candidates| :: NonBlank(ValueAt(h, source, candidates[i])).None?
    ensures FirstString(h, source, candidates) == None
    decreases |candidates|
  {
    if candidates != [] {
      var rest := candidates[1..];
      assert forall j | 0 <= j < |rest| :: rest[j] == candidates[j + 1];
      FirstStringNone(h, source, rest);
    }
  }

  /** `isAssetLocked(asset)`: some lock flag is truthy. */
  predicate IsAssetLocked(h: Heap, asset: Value) {
    exists i | 0 <= i < |LockedFlagFields| :: Truthy(ValueAt(h, asset, Key(LockedFlagFields[i])))
  }

  /** The explicit string if there is one, else the locked default, else the active or inactive default. */
  function Choose(explicit: Option<string>, locked: bool, active: bool, lockedDefault: string, activeDefault: string, inactiveDefault: string): string {
    if explicit.Some? then explicit.value
    else if locked then lockedDefault
    else if active then activeDefault
    else inactiveDefault
  }

  /** `getAssetIcon(asset, { active })`. */
  function AssetIcon(h: Heap, asset: Value, active: bool): (r: string)
    ensures r != []
  {
    var explicit := FirstString(h, asset, if active then IconActiveCandidates else IconInactiveCandidates);
    Choose(explicit, IsAssetLocked(h, asset), active, DefaultLockedIcon, DefaultActiveIcon, DefaultInactiveIcon)
  }

  /** `getAssetLabel(asset, { active })`. */
  function AssetLabel(h: Heap, asset: Value, active: bool): (r: string)
    ensures r != []
  {
    var explicit := FirstString(h, asset, if active then LabelActiveCandidates else LabelInactiveCandidates);
    Choose(explicit, IsAssetLocked(h, asset), active, DefaultLockedLabel, DefaultActiveLabel, DefaultInactiveLabel)
  }

  /** The icon is the first candidate for the state holding a non-blank string, trimmed. */
  lemma ExplicitIconWins(h: Heap, asset: Value, active: bool, i: nat)
    requires var candidates := if active then IconActiveCandidates else IconInactiveCandidates;
      && i < |candidates| && NonBlank(ValueAt(h, asset, candidates[i])).Some?
      && forall j | 0 <= j < i :: NonBlank(ValueAt(h, asset, candidates[j])).None?
    ensures var candidates := if active then IconActiveCandidates else IconInactiveCandidates;
      Some(AssetIcon(h, asset, active)) == NonBlank(ValueAt(h, asset, candidates[i]))
  {
    FirstStringAt(h, asset, if active then IconActiveCandidates else IconInactiveCandidates, i);
  }

  /** Without an explicit icon: the pin for a locked asset, else the check mark when active and the plus sign when not. */
  lemma DefaultIcon(h: Heap, asset: Value, active: bool)
    requires var candidates := if active then IconActiveCandidates else IconInactiveCandidates;
      forall i | 0 <= i < |candidates| :: NonBlank(ValueAt(h, asset, candidates[i])).None?
    ensures AssetIcon(h, asset, active) ==
      (if IsAssetLocked(h, asset) then DefaultLockedIcon else if active then DefaultActiveIcon else DefaultInactiveIcon)
  {
    FirstStringNone(h, asset, if active then IconActiveCandidates else IconInactiveCandidates);
  }

  /** The label is the first candidate for the state holding a non-blank string, trimmed. */
  lemma ExplicitLabelWins(h: Heap, asset: Value, active: bool, i: nat)
    requires var candidates := if active then LabelActiveCandidates else LabelInactiveCandidates;
      && i < |candidates| && NonBlank(ValueAt(h, asset, candidates[i])).Some?
      && forall j | 0 <= j < i :: NonBlank(ValueAt(h, asset, candidates[j])).None?
    ensures var candidates := if active then LabelActiveCandidates else LabelInactiveCandidates;
      Some(AssetLabel(h, asset, active)) == NonBlank(ValueAt(h, asset, candidates[i]))
  {
    FirstStringAt(h, asset, if active then LabelActiveCandidates else LabelInactiveCandidates, i);
  }

  /** Without an explicit label: "Bundled" for a locked asset, else "Equipped" when active and "Tap to equip" when not. */
  lemma DefaultLabel(h: Heap, asset: Value, active: bool)
    requires var candidates := if active then LabelActiveCandidates else LabelInactiveCandidates;
      forall i | 0 <= i < |candidates| :: NonBlank(ValueAt(h, asset, candidates[i])).None?
    ensures AssetLabel(h, asset, active) ==
      (if IsAssetLocked(h, asset) then DefaultLockedLabel else if active then DefaultActiveLabel else DefaultInactiveLabel)
  {
    FirstStringNone(h, asset, if active then LabelActiveCandidates else LabelInactiveCandidates);
  }

  /** A missing asset gets the plain defaults: no candidate and no lock flag can be read from it. */
  lemma NullishAssetDefaults(h: Heap, asset: Value, active: bool)
    requires IsNullish(asset)
    ensures AssetIcon(h, asset, active) == (if active then DefaultActiveIcon else DefaultInactiveIcon)
    ensures AssetLabel(h, asset, active) == (if active then DefaultActiveLabel else DefaultInactiveLabel)
  {
    assert !IsAssetLocked(h, asset);
    var icons := if active then IconActiveCandidates else IconInactiveCandidates;
    var labels := if active then LabelActiveCandidates else LabelInactiveCandidates;
    assert forall i | 0 <= i < |icons| :: ValueAt(h, asset, icons[i]) == Undefined;
    assert forall i | 0 <= i < |labels| :: ValueAt(h, asset, labels[i]) == Undefined;
    DefaultIcon(h, asset, active);
    DefaultLabel(h, asset, active);
  }
}
