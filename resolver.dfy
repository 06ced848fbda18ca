/**
 * `resolveFileReference` of utils/assets.js: a depth-first search through an
 * arbitrary value for the first string that names a file with an allowed
 * extension. Arrays are searched element by element; an object first by the
 * prioritised field keys it has, in their declared order, then by its other
 * entries in their own order. A `WeakSet` of the nodes already expanded makes
 * the search stop on shared and cyclic structure. Alongside the reference it
 * reports the innermost enclosing PocketBase record.
 */
module Resolver {
  import opened Wrappers
  import Dict
  import opened ObjectGraph
  import opened FileReference

  /**
   * How a string found by the search is classified: `createFileReference`
   * with the extensions of the call site.
   */
  type Classifier = string -> Option<FileRef>

  /** `(value) => createFileReference(value, extensions)`. */
  function ClassifierFor(ext: seq<string>): Classifier {
    (s: string) => CreateFileReference(Str(s), ext)
  }

  /** `{ reference, record }`: the reference and the record it belongs to, if any. */
  datatype Resolved = Resolved(reference: FileRef, record: Option<NodeId>)

  /**
   * What a search over a list of values comes to: what it found, the visited
   * set afterwards, the nodes it expanded in the order it expanded them and,
   * when it found a reference, the chain of nodes from the outermost one
   * down to the one holding the string (empty when the string was itself
   * one of the values searched).
   */
  datatype Search = Search(found: Option<Resolved>, visited: set<NodeId>, expanded: seq<NodeId>, trail: seq<NodeId>)

  /** `hasPocketBaseMetadata(context) ? context : null`. */
  function RecordOf(h: Heap, ctx: Value): (r: Option<NodeId>)
    ensures r.Some? <==> HasMetadata(h, ctx)
    ensures r.Some? ==> ctx == Ref(r.value) && IsRecord(h, r.value)
  {
    if HasMetadata(h, ctx) then Some(ctx.id) else None
  }

  /** `hasPocketBaseMetadata(value) ? value : contextRecord`: the context below node `id`. */
  function NextContext(h: Heap, id: NodeId, ctx: Value): Value {
    if IsRecord(h, id) then Ref(id) else ctx
  }

  /** `key in value ? value[key] : nothing`. */
  function Lookup(fields: Dict.Dict<Value>): string -> Option<Value> {
    (k: string) => Dict.Get(fields, k)
  }

  /** `value[key]` for every key of `keys` with `key in value`, in the order of `keys`. */
  function Prioritized(fields: Dict.Dict<Value>, keys: seq<string>): seq<Value> {
    FilterMap(keys, Lookup(fields))
  }

  /** The entries whose key is not in `keys`, in `Object.entries` order. */
  function Remaining(fields: Dict.Dict<Value>, keys: seq<string>): (r: seq<Value>)
    ensures |r| <= |fields|
  {
    if fields == [] then []
    else (if fields[0].0 in keys then [] else [fields[0].1]) + Remaining(fields[1..], keys)
  }

  /** The values searched below a node, in the order they are tried. */
  function Children(n: Node, keys: seq<string>): seq<Value> {
    match n
    case Array(items) => items
    case Object(fields) => Prioritized(fields, keys) + Remaining(fields, keys)
  }

  /** The nodes of a sequence, as a set. */
  function Elems(s: seq<NodeId>): (r: set<NodeId>)
    ensures forall x :: x in r <==> x in s
  {
    set x | x in s
  }

  predicate Distinct(s: seq<NodeId>) {
    forall i, j | 0 <= i < j < |s| :: s[i] != s[j]
  }

  /** Visiting one more node of the heap leaves fewer nodes to visit. */
  lemma UnvisitedShrinks(nodes: set<NodeId>, before: set<NodeId>, after: set<NodeId>, x: NodeId)
    requires before <= after && x in nodes && x !in before && x in after
    ensures |nodes - after| < |nodes - before|
  {
    var left, all := nodes - after, nodes - before;
    assert all == left + (all - left) && left * (all - left) == {};
    assert {x} <= all - left;
  }

  /**
   * The search over the values `vs` in order, starting from the visited set
   * `visited`, under the context record `ctx`. The first value that resolves
   * decides; a node is expanded only when it is in the heap and not yet
   * visited, so no node is expanded twice and the search terminates on any
   * heap, cyclic or not.
   */
  function ResolveAll(h: Heap, vs: seq<Value>, ctx: Value, visited: set<NodeId>, classify: Classifier, keys: seq<string>): (s: Search)
    ensures visited <= s.visited
    decreases |h.Keys - visited|, |vs|
  {
    if vs == [] then Search(None, visited, [], [])
    else
      var v := vs[0];
      if v.Str? then
        match classify(v.s)
        case Some(reference) => Search(Some(Resolved(reference, RecordOf(h, ctx))), visited, [], [])
        case None => ResolveAll(h, vs[1..], ctx, visited, classify, keys)
      else if v.Ref? && v.id in h && v.id !in visited then
        UnvisitedShrinks(h.Keys, visited, visited + {v.id}, v.id);
        var inner := ResolveAll(h, Children(h[v.id], keys), NextContext(h, v.id, ctx), visited + {v.id}, classify, keys);
        if inner.found.Some? then
          Search(inner.found, inner.visited, [v.id] + inner.expanded, [v.id] + inner.trail)
        else
          UnvisitedShrinks(h.Keys, visited, inner.visited, v.id);
          var rest := ResolveAll(h, vs[1..], ctx, inner.visited, classify, keys);
          Search(rest.found, rest.visited, [v.id] + inner.expanded + rest.expanded, rest.trail)
      else
        ResolveAll(h, vs[1..], ctx, visited, classify, keys)
  }

  // ---------------------------------------------------------------------------
  // Properties of the search
  // ---------------------------------------------------------------------------

  /**
   * What the search expanded: every node it expanded was in the heap and not
   * visited before, none twice, and the visited set grew by exactly those
   * nodes.
   */
  predicate Expansion(h: Heap, visited: set<NodeId>, s: Search) {
    && s.visited == visited + Elems(s.expanded)
    && (forall x | x in s.expanded :: x in h && x !in visited)
    && Distinct(s.expanded)
  }

  lemma {:induction false} ExpandsEachOnce(h: Heap, vs: seq<Value>, ctx: Value, visited: set<NodeId>, classify: Classifier, keys: seq<string>)
    ensures Expansion(h, visited, ResolveAll(h, vs, ctx, visited, classify, keys))
    decreases |h.Keys - visited|, |vs|, 1
  {
    if vs != [] {
      var v := vs[0];
      if v.Ref? && v.id in h && v.id !in visited {
        ExpandsNodeOnce(h, vs, ctx, visited, classify, keys);
      } else if !(v.Str? && classify(v.s).Some?) {
        ExpandsEachOnce(h, vs[1..], ctx, visited, classify, keys);
      }
    }
  }

  lemma {:induction false} ExpandsNodeOnce(h: Heap, vs: seq<Value>, ctx: Value, visited: set<NodeId>, classify: Classifier, keys: seq<string>)
    requires vs != [] && vs[0].Ref? && vs[0].id in h && vs[0].id !in visited
    ensures Expansion(h, visited, ResolveAll(h, vs, ctx, visited, classify, keys))
    decreases |h.Keys - visited|, |vs|, 0
  {
    var id := vs[0].id;
    UnvisitedShrinks(h.Keys, visited, visited + {id}, id);
    var inner := ResolveAll(h, Children(h[id], keys), NextContext(h, id, ctx), visited + {id}, classify, keys);
    ExpandsEachOnce(h, Children(h[id], keys), NextContext(h, id, ctx), visited + {id}, classify, keys);
    var s := ResolveAll(h, vs, ctx, visited, classify, keys);
    if inner.found.Some? {
      assert s.visited == inner.visited && s.expanded == [id] + inner.expanded;
      ExpansionCons(h, visited, id, inner.expanded, inner.visited, [], inner.visited);
      assert [id] + inner.expanded + [] == [id] + inner.expanded;
    } else {
      UnvisitedShrinks(h.Keys, visited, inner.visited, id);
      var rest := ResolveAll(h, vs[1..], ctx, inner.visited, classify, keys);
      assert s.visited == rest.visited && s.expanded == [id] + inner.expanded + rest.expanded;
      ExpandsEachOnce(h, vs[1..], ctx, inner.visited, classify, keys);
      ExpansionCons(h, visited, id, inner.expanded, inner.visited, rest.expanded, rest.visited);
    }
  }

  /** Expanding `id`, then `e1` below it, then `e2` after it, expands each node once. */
  lemma ExpansionCons(h: Heap, visited: set<NodeId>, id: NodeId, e1: seq<NodeId>, v1: set<NodeId>, e2: seq<NodeId>, v2: set<NodeId>)
    requires id in h && id !in visited
    requires v1 == visited + {id} + Elems(e1) && (forall x | x in e1 :: x in h && x !in visited + {id}) && Distinct(e1)
    requires v2 == v1 + Elems(e2) && (forall x | x in e2 :: x in h && x !in v1) && Distinct(e2)
    ensures v2 == visited + Elems([id] + e1 + e2)
    ensures forall x | x in [id] + e1 + e2 :: x in h && x !in visited
    ensures Distinct([id] + e1 + e2)
  {
    DistinctAppend([id], e1);
    forall x | x in [id] + e1 ensures x !in e2 {
      assert x == id || x in e1;
    }
    DistinctAppend([id] + e1, e2);
  }

  lemma DistinctAppend(a: seq<NodeId>, b: seq<NodeId>)
    requires Distinct(a) && Distinct(b) && forall x | x in a :: x !in b
    ensures Distinct(a + b)
  {
    forall i, j | 0 <= i < j < |a + b| ensures (a + b)[i] != (a + b)[j] {
      if j < |a| {
        assert (a + b)[i] == a[i] && (a + b)[j] == a[j];
      } else if i < |a| {
        assert (a + b)[i] == a[i] && (a + b)[j] == b[j - |a|];
        assert a[i] in a && b[j - |a|] in b;
      } else {
        assert (a + b)[i] == b[i - |a|] && (a + b)[j] == b[j - |a|];
      }
    }
  }

  /** A subset of a finite set is no larger. */
  lemma {:induction false} SubsetCard(a: set<NodeId>, b: set<NodeId>)
    requires a <= b
    ensures |a| <= |b|
    decreases |a|
  {
    if a != {} {
      var x :| x in a;
      SubsetCard(a - {x}, b - {x});
    }
  }

  /** One search expands each node of the heap at most once, so at most as many nodes as the heap holds. */
  lemma ExpandsAtMostHeap(h: Heap, vs: seq<Value>, ctx: Value, visited: set<NodeId>, classify: Classifier, keys: seq<string>)
    ensures |ResolveAll(h, vs, ctx, visited, classify, keys).expanded| <= |h.Keys - visited|
  {
    var e := ResolveAll(h, vs, ctx, visited, classify, keys).expanded;
    ExpandsEachOnce(h, vs, ctx, visited, classify, keys);
    var es := Elems(e);
    DistinctCard(e);
    SubsetCard(es, h.Keys - visited);
  }

  lemma {:induction false} DistinctCard(e: seq<NodeId>)
    requires Distinct(e)
    ensures |Elems(e)| == |e|
  {
    if e != [] {
      var init, last := e[..|e| - 1], e[|e| - 1];
      assert e == init + [last];
      DistinctCard(init);
      var si := Elems(init);
      assert last !in si;
      assert Elems(e) == si + {last};
      assert |si + {last}| == |si| + 1;
    }
  }

  /** `resolveFileReference(value, ...)` for one value is the search over `[value]`. A string resolves to its classification, with the context's record; nothing is expanded. */
  lemma ResolveString(h: Heap, str: string, ctx: Value, visited: set<NodeId>, classify: Classifier, keys: seq<string>)
    ensures var s := ResolveAll(h, [Str(str)], ctx, visited, classify, keys);
      && s.visited == visited && s.expanded == []
      && s.found == (if classify(str).Some? then Some(Resolved(classify(str).value, RecordOf(h, ctx))) else None)
  {
    assert [Str(str)][1..] == [];
  }

  /** Anything that is neither a string nor an unvisited node of the heap resolves to nothing and expands nothing. */
  lemma ResolveSkips(h: Heap, v: Value, ctx: Value, visited: set<NodeId>, classify: Classifier, keys: seq<string>)
    requires !v.Str? && !(v.Ref? && v.id in h && v.id !in visited)
    ensures ResolveAll(h, [v], ctx, visited, classify, keys) == Search(None, visited, [], [])
  {
    assert [v][1..] == [];
  }

  /** Nullish, boolean and numeric values resolve to nothing and expand nothing. */
  lemma ScalarResolvesNothing(h: Heap, v: Value, ctx: Value, visited: set<NodeId>, classify: Classifier, keys: seq<string>)
    requires IsNullish(v) || v.Bool? || v.Num?
    ensures ResolveAll(h, [v], ctx, visited, classify, keys) == Search(None, visited, [], [])
  {
    ResolveSkips(h, v, ctx, visited, classify, keys);
  }

  /** A node already visited resolves to nothing and is not expanded again. */
  lemma VisitedResolvesNothing(h: Heap, id: NodeId, ctx: Value, visited: set<NodeId>, classify: Classifier, keys: seq<string>)
    requires id in visited
    ensures ResolveAll(h, [Ref(id)], ctx, visited, classify, keys) == Search(None, visited, [], [])
  {
    ResolveSkips(h, Ref(id), ctx, visited, classify, keys);
  }

  /** An unvisited node is marked visited and its values are searched, under its own record if it is one. */
  lemma ResolveNode(h: Heap, id: NodeId, ctx: Value, visited: set<NodeId>, classify: Classifier, keys: seq<string>)
    requires id in h && id !in visited
    ensures
      var s := ResolveAll(h, [Ref(id)], ctx, visited, classify, keys);
      var inner := ResolveAll(h, Children(h[id], keys), NextContext(h, id, ctx), visited + {id}, classify, keys);
      s.found == inner.found && s.visited == inner.visited
  {
    assert [Ref(id)][1..] == [];
  }

  /**
   * The values are tried in order: a search over `a + b` is the search over
   * `a`, and only if that finds nothing, the search over `b` from the
   * visited set `a` left behind.
   */
  predicate SearchesInOrder(h: Heap, a: seq<Value>, b: seq<Value>, ctx: Value, visited: set<NodeId>, classify: Classifier, keys: seq<string>) {
    var sa := ResolveAll(h, a, ctx, visited, classify, keys);
    var sab := ResolveAll(h, a + b, ctx, visited, classify, keys);
    var sb := ResolveAll(h, b, ctx, sa.visited, classify, keys);
    && sab.found == (if sa.found.Some? then sa.found else sb.found)
    && sab.visited == (if sa.found.Some? then sa.visited else sb.visited)
  }

  lemma {:induction false} ResolveAllAppend(h: Heap, a: seq<Value>, b: seq<Value>, ctx: Value, visited: set<NodeId>, classify: Classifier, keys: seq<string>)
    ensures SearchesInOrder(h, a, b, ctx, visited, classify, keys)
    decreases |a|, 1
  {
    if a == [] {
      assert a + b == b;
    } else {
      var v := a[0];
      if v.Ref? && v.id in h && v.id !in visited {
        AppendExpanding(h, a, b, ctx, visited, classify, keys);
      } else if v.Str? && classify(v.s).Some? {
        AppendFound(h, a, b, ctx, visited, classify, keys);
      } else {
        AppendSkipping(h, a, b, ctx, visited, classify, keys);
      }
    }
  }

  lemma AppendFound(h: Heap, a: seq<Value>, b: seq<Value>, ctx: Value, visited: set<NodeId>, classify: Classifier, keys: seq<string>)
    requires a != [] && a[0].Str? && classify(a[0].s).Some?
    ensures SearchesInOrder(h, a, b, ctx, visited, classify, keys)
  {
    var found := Search(Some(Resolved(classify(a[0].s).value, RecordOf(h, ctx))), visited, [], []);
    assert ResolveAll(h, a, ctx, visited, classify, keys) == found;
    assert (a + b)[0] == a[0];
    assert ResolveAll(h, a + b, ctx, visited, classify, keys) == found;
  }

  lemma {:induction false} AppendSkipping(h: Heap, a: seq<Value>, b: seq<Value>, ctx: Value, visited: set<NodeId>, classify: Classifier, keys: seq<string>)
    requires a != []
    requires !(a[0].Ref? && a[0].id in h && a[0].id !in visited)
    requires !(a[0].Str? && classify(a[0].s).Some?)
    ensures SearchesInOrder(h, a, b, ctx, visited, classify, keys)
    decreases |a|, 0
  {
    assert (a + b)[0] == a[0] && (a + b)[1..] == a[1..] + b;
    ResolveAllAppend(h, a[1..], b, ctx, visited, classify, keys);
  }

  lemma {:induction false} AppendExpanding(h: Heap, a: seq<Value>, b: seq<Value>, ctx: Value, visited: set<NodeId>, classify: Classifier, keys: seq<string>)
    requires a != [] && a[0].Ref? && a[0].id in h && a[0].id !in visited
    ensures SearchesInOrder(h, a, b, ctx, visited, classify, keys)
    decreases |a|, 0
  {
    var id := a[0].id;
    assert (a + b)[0] == a[0] && (a + b)[1..] == a[1..] + b;
    var inner := ResolveAll(h, Children(h[id], keys), NextContext(h, id, ctx), visited + {id}, classify, keys);
    if inner.found.None? {
      ResolveAllAppend(h, a[1..], b, ctx, inner.visited, classify, keys);
    }
  }

  /** One step of the search through a list: the value at `k`, then, if it found nothing, the rest. */
  lemma SearchStep(h: Heap, cs: seq<Value>, k: nat, ctx: Value, visited: set<NodeId>, classify: Classifier, keys: seq<string>)
    requires k < |cs|
    ensures
      var one := ResolveAll(h, [cs[k]], ctx, visited, classify, keys);
      var here := ResolveAll(h, cs[k..], ctx, visited, classify, keys);
      var rest := ResolveAll(h, cs[k + 1..], ctx, one.visited, classify, keys);
      && (one.found.Some? ==> here.found == one.found && here.visited == one.visited)
      && (one.found.None? ==> here.found == rest.found && here.visited == rest.visited)
  {
    assert cs[k..] == [cs[k]] + cs[k + 1..];
    ResolveAllAppend(h, [cs[k]], cs[k + 1..], ctx, visited, classify, keys);
  }

  /** An array is searched through its elements in order, with the array marked visited. */
  lemma ExpandArray(h: Heap, id: NodeId, ctx: Value, visited: set<NodeId>, classify: Classifier, keys: seq<string>)
    requires id in h && h[id].Array? && id !in visited
    ensures
      var s := ResolveAll(h, [Ref(id)], ctx, visited, classify, keys);
      var inner := ResolveAll(h, h[id].items, ctx, visited + {id}, classify, keys);
      s.found == inner.found && s.visited == inner.visited
  {
    ResolveNode(h, id, ctx, visited, classify, keys);
  }

  /**
   * An object is searched first through the values of the prioritised keys
   * it has, in the order of `keys`; only when none of them resolves, through
   * its other entries, in their own order. Below an object that is a record,
   * that record is the context.
   */
  lemma ExpandObject(h: Heap, id: NodeId, ctx: Value, visited: set<NodeId>, classify: Classifier, keys: seq<string>)
    requires id in h && h[id].Object? && id !in visited
    ensures
      var fields := h[id].fields;
      var next := NextContext(h, id, ctx);
      var s := ResolveAll(h, [Ref(id)], ctx, visited, classify, keys);
      var first := ResolveAll(h, Prioritized(fields, keys), next, visited + {id}, classify, keys);
      var second := ResolveAll(h, Remaining(fields, keys), next, first.visited, classify, keys);
      && s.found == (if first.found.Some? then first.found else second.found)
      && s.visited == (if first.found.Some? then first.visited else second.visited)
  {
    var fields := h[id].fields;
    ResolveNode(h, id, ctx, visited, classify, keys);
    ResolveAllAppend(h, Prioritized(fields, keys), Remaining(fields, keys), NextContext(h, id, ctx), visited + {id}, classify, keys);
  }

  /** The prioritised values are those of the listed keys the object has, in the order of the list. */
  lemma {:induction false} PrioritizedOrder(fields: Dict.Dict<Value>, keys: seq<string>, k: string)
    ensures Prioritized(fields, keys + [k]) ==
      Prioritized(fields, keys) + (if Dict.HasKey(fields, k) then [Dict.Get(fields, k).value] else [])
  {
    FilterMapSnoc(keys, k, Lookup(fields));
  }

  /** The other entries are exactly those whose key is not listed, in their own order. */
  lemma {:induction false} RemainingMembers(fields: Dict.Dict<Value>, keys: seq<string>, v: Value)
    ensures v in Remaining(fields, keys) <==> exists i | 0 <= i < |fields| :: fields[i].0 !in keys && fields[i].1 == v
  {
    if fields != [] {
      RemainingMembers(fields[1..], keys, v);
      assert forall i | 1 <= i < |fields| :: fields[1..][i - 1] == fields[i];
    }
  }

  /**
   * A node whose only children are references to itself (an object whose
   * values all point back to it, or such an array) is expanded once and the
   * search stops with nothing found.
   */
  lemma SelfCycle(h: Heap, id: NodeId, ctx: Value, visited: set<NodeId>, classify: Classifier, keys: seq<string>)
    requires id in h && id !in visited
    requires forall v | v in Children(h[id], keys) :: v == Ref(id)
    ensures ResolveAll(h, [Ref(id)], ctx, visited, classify, keys) == Search(None, visited + {id}, [id], [])
  {
    var cs := Children(h[id], keys);
    AllVisited(h, cs, NextContext(h, id, ctx), visited + {id}, classify, keys);
    assert [Ref(id)][1..] == [];
    assert [id] + [] + [] == [id];
  }

  /** The smallest such cycle: one object whose one property refers to itself. */
  lemma SelfReferenceExample(classify: Classifier, keys: seq<string>)
    ensures
      var h := map[0 := Object([("self", Ref(0))])];
      ResolveAll(h, [Ref(0)], Null, {}, classify, keys) == Search(None, {0}, [0], [])
  {
    var h := map[0 := Object([("self", Ref(0))])];
    forall v | v in Children(h[0], keys) ensures v == Ref(0) {
      if v !in Remaining(h[0].fields, keys) {
        FilterMapMembers(keys, Lookup(h[0].fields), v);
      }
    }
    var none: set<NodeId> := {};
    SelfCycle(h, 0, Null, none, classify, keys);
    assert none + {0} == {0};
  }

  /** Values that are all visited nodes resolve to nothing. */
  lemma {:induction false} AllVisited(h: Heap, vs: seq<Value>, ctx: Value, visited: set<NodeId>, classify: Classifier, keys: seq<string>)
    requires forall v | v in vs :: v.Ref? && v.id in visited
    ensures ResolveAll(h, vs, ctx, visited, classify, keys) == Search(None, visited, [], [])
    decreases |vs|
  {
    if vs != [] {
      assert vs[0] in vs;
      assert ResolveAll(h, vs, ctx, visited, classify, keys) == ResolveAll(h, vs[1..], ctx, visited, classify, keys);
      assert forall v | v in vs[1..] :: v in vs;
      AllVisited(h, vs[1..], ctx, visited, classify, keys);
    }
  }

  /** Two key lists that give every node of the heap the same children give the same search. */
  lemma {:induction false} SameChildrenSameSearch(h: Heap, vs: seq<Value>, ctx: Value, visited: set<NodeId>, classify: Classifier, k1: seq<string>, k2: seq<string>)
    requires forall id | id in h :: Children(h[id], k1) == Children(h[id], k2)
    ensures ResolveAll(h, vs, ctx, visited, classify, k1) == ResolveAll(h, vs, ctx, visited, classify, k2)
    decreases |h.Keys - visited|, |vs|, 1
  {
    if vs != [] {
      var v := vs[0];
      if v.Ref? && v.id in h && v.id !in visited {
        SameChildrenNode(h, vs, ctx, visited, classify, k1, k2);
      } else if !(v.Str? && classify(v.s).Some?) {
        SameChildrenSameSearch(h, vs[1..], ctx, visited, classify, k1, k2);
      }
    }
  }

  lemma {:induction false} SameChildrenNode(h: Heap, vs: seq<Value>, ctx: Value, visited: set<NodeId>, classify: Classifier, k1: seq<string>, k2: seq<string>)
    requires forall id | id in h :: Children(h[id], k1) == Children(h[id], k2)
    requires vs != [] && vs[0].Ref? && vs[0].id in h && vs[0].id !in visited
    ensures ResolveAll(h, vs, ctx, visited, classify, k1) == ResolveAll(h, vs, ctx, visited, classify, k2)
    decreases |h.Keys - visited|, |vs|, 0
  {
    var id := vs[0].id;
    var next := NextContext(h, id, ctx);
    UnvisitedShrinks(h.Keys, visited, visited + {id}, id);
    assert Children(h[id], k1) == Children(h[id], k2);
    SameChildrenSameSearch(h, Children(h[id], k1), next, visited + {id}, classify, k1, k2);
    var inner := ResolveAll(h, Children(h[id], k1), next, visited + {id}, classify, k1);
    if inner.found.None? {
      UnvisitedShrinks(h.Keys, visited, inner.visited, id);
      SameChildrenSameSearch(h, vs[1..], ctx, inner.visited, classify, k1, k2);
    }
  }

  /** The other entries depend only on which of the object's own keys are listed. */
  lemma {:induction false} RemainingSameKeys(fields: Dict.Dict<Value>, k1: seq<string>, k2: seq<string>)
    requires forall i | 0 <= i < |fields| :: fields[i].0 in k1 <==> fields[i].0 in k2
    ensures Remaining(fields, k1) == Remaining(fields, k2)
  {
    if fields != [] {
      assert forall i | 0 <= i < |fields| - 1 :: fields[1..][i] == fields[i + 1];
      RemainingSameKeys(fields[1..], k1, k2);
    }
  }

  // ---------------------------------------------------------------------------
  // Where the reference was found, and which record it belongs to
  // ---------------------------------------------------------------------------

  /**
   * The record of a reference found below the nodes `trail` (outermost
   * first): the innermost record among them, else the starting context when
   * that is a record.
   */
  function Nearest(h: Heap, trail: seq<NodeId>, ctx: Value): Option<NodeId> {
    if trail == [] then RecordOf(h, ctx)
    else if IsRecord(h, trail[|trail| - 1]) then Some(trail[|trail| - 1])
    else Nearest(h, trail[..|trail| - 1], ctx)
  }

  lemma {:induction false} NearestCons(h: Heap, id: NodeId, t: seq<NodeId>, ctx: Value)
    ensures Nearest(h, [id] + t, ctx) == Nearest(h, t, NextContext(h, id, ctx))
    decreases |t|
  {
    if t != [] {
      assert ([id] + t)[..|t|] == [id] + t[..|t| - 1];
      NearestCons(h, id, t[..|t| - 1], ctx);
    } else {
      assert ([id] + t)[..0] == [];
    }
  }

  /** Each node of the chain is a value searched below the one before. */
  predicate Chain(h: Heap, keys: seq<string>, trail: seq<NodeId>) {
    && (forall i | 0 <= i < |trail| :: trail[i] in h)
    && (forall i | 0 <= i < |trail| - 1 :: Ref(trail[i + 1]) in Children(h[trail[i]], keys))
  }

  /** The values the reference was found among: those searched, or those below the last node of the chain. */
  function Holder(h: Heap, keys: seq<string>, vs: seq<Value>, trail: seq<NodeId>): seq<Value>
    requires Chain(h, keys, trail)
  {
    if trail == [] then vs else Children(h[trail[|trail| - 1]], keys)
  }

  /**
   * A found reference comes from a string among the values below the last
   * node of a chain of expanded nodes that starts at one of the searched
   * values; its record is the innermost record of that chain, or the
   * starting context when none of them is one.
   */
  lemma {:induction false} FoundBelowChain(h: Heap, vs: seq<Value>, ctx: Value, visited: set<NodeId>, classify: Classifier, keys: seq<string>)
    ensures
      var s := ResolveAll(h, vs, ctx, visited, classify, keys);
      s.found.Some? ==> FoundBelow(h, keys, vs, ctx, classify, s)
    decreases |h.Keys - visited|, |vs|, 1
  {
    var s := ResolveAll(h, vs, ctx, visited, classify, keys);
    if vs != [] && s.found.Some? {
      var v := vs[0];
      if v.Str? && classify(v.s).Some? {
        assert Str(v.s) in Holder(h, keys, vs, s.trail);
      } else if v.Ref? && v.id in h && v.id !in visited {
        FoundExpanding(h, vs, ctx, visited, classify, keys);
      } else {
        FoundSkipping(h, vs, ctx, visited, classify, keys);
      }
    }
  }

  /** What `FoundBelowChain` promises of the search result `s` from `vs` under `ctx`. */
  ghost predicate FoundBelow(h: Heap, keys: seq<string>, vs: seq<Value>, ctx: Value, classify: Classifier, s: Search)
    requires s.found.Some?
  {
    && Chain(h, keys, s.trail)
    && (s.trail != [] ==> Ref(s.trail[0]) in vs)
    && (forall x | x in s.trail :: x in s.expanded)
    && (exists str | Str(str) in Holder(h, keys, vs, s.trail) :: classify(str) == Some(s.found.value.reference))
    && s.found.value.record == Nearest(h, s.trail, ctx)
  }

  /** `FoundBelowChain` when the first value is skipped. */
  lemma {:induction false} FoundSkipping(h: Heap, vs: seq<Value>, ctx: Value, visited: set<NodeId>, classify: Classifier, keys: seq<string>)
    requires vs != []
    requires !(vs[0].Str? && classify(vs[0].s).Some?) && !(vs[0].Ref? && vs[0].id in h && vs[0].id !in visited)
    ensures
      var s := ResolveAll(h, vs, ctx, visited, classify, keys);
      s.found.Some? ==> FoundBelow(h, keys, vs, ctx, classify, s)
    decreases |h.Keys - visited|, |vs|, 0
  {
    var s := ResolveAll(h, vs, ctx, visited, classify, keys);
    var rest := ResolveAll(h, vs[1..], ctx, visited, classify, keys);
    assert s == rest;
    FoundBelowChain(h, vs[1..], ctx, visited, classify, keys);
    if s.found.Some? {
      TailChain(h, keys, vs, s.trail);
    }
  }

  /** `FoundBelowChain` when the first value is a node the search expands. */
  lemma {:induction false} FoundExpanding(h: Heap, vs: seq<Value>, ctx: Value, visited: set<NodeId>, classify: Classifier, keys: seq<string>)
    requires vs != [] && vs[0].Ref? && vs[0].id in h && vs[0].id !in visited
    ensures
      var s := ResolveAll(h, vs, ctx, visited, classify, keys);
      s.found.Some? ==> FoundBelow(h, keys, vs, ctx, classify, s)
    decreases |h.Keys - visited|, |vs|, 0
  {
    var s := ResolveAll(h, vs, ctx, visited, classify, keys);
    var id := vs[0].id;
    UnvisitedShrinks(h.Keys, visited, visited + {id}, id);
    var next := NextContext(h, id, ctx);
    var cs := Children(h[id], keys);
    var inner := ResolveAll(h, cs, next, visited + {id}, classify, keys);
    if inner.found.Some? {
      assert s == Search(inner.found, inner.visited, [id] + inner.expanded, [id] + inner.trail);
      FoundBelowChain(h, cs, next, visited + {id}, classify, keys);
      NearestCons(h, id, inner.trail, ctx);
      ConsChain(h, keys, id, inner.trail);
      assert Holder(h, keys, vs, s.trail) == Holder(h, keys, cs, inner.trail);
    } else {
      UnvisitedShrinks(h.Keys, visited, inner.visited, id);
      var rest := ResolveAll(h, vs[1..], ctx, inner.visited, classify, keys);
      assert s == Search(rest.found, rest.visited, [id] + inner.expanded + rest.expanded, rest.trail);
      FoundBelowChain(h, vs[1..], ctx, inner.visited, classify, keys);
      if s.found.Some? {
        TailChain(h, keys, vs, s.trail);
      }
    }
  }

  lemma ConsChain(h: Heap, keys: seq<string>, id: NodeId, t: seq<NodeId>)
    requires id in h && Chain(h, keys, t)
    requires t != [] ==> Ref(t[0]) in Children(h[id], keys)
    ensures Chain(h, keys, [id] + t)
    ensures [id] + t != [] && ([id] + t)[0] == id
    ensures t != [] ==> Holder(h, keys, [], [id] + t) == Holder(h, keys, [], t)
  {
    var u := [id] + t;
    forall i | 0 <= i < |u| - 1 ensures Ref(u[i + 1]) in Children(h[u[i]], keys) {
      if i > 0 { assert u[i] == t[i - 1] && u[i + 1] == t[i]; }
    }
  }

  lemma TailChain(h: Heap, keys: seq<string>, vs: seq<Value>, t: seq<NodeId>)
    requires vs != [] && Chain(h, keys, t)
    ensures t != [] && Ref(t[0]) in vs[1..] ==> Ref(t[0]) in vs
    ensures forall v | v in Holder(h, keys, vs[1..], t) :: v in Holder(h, keys, vs, t)
  {
  }

  // ---------------------------------------------------------------------------
  // The search as the source runs it
  // ---------------------------------------------------------------------------

  /** The `WeakSet` of expanded nodes, shared by every call of one search. */
  class WeakSet {
    var members: set<NodeId>

    constructor()
      ensures members == {}
    {
      members := {};
    }

    predicate Has(id: NodeId)
      reads this
    {
      id in members
    }

    method Add(id: NodeId)
      modifies this
      ensures members == old(members) + {id}
    {
      members := members + {id};
    }
  }

  /**
   * `resolveFileReference(value, contextRecord, visited, extensions, fieldKeys)`:
   * a string is classified; a node already in `visited` (or a value that is
   * not an object) gives nothing; any other node is added to `visited` and
   * its values are searched in order until one resolves.
   */
  method ResolveFileReference(h: Heap, v: Value, ctx: Value, visited: WeakSet, ext: seq<string>, keys: seq<string>)
    returns (r: Option<Resolved>)
    modifies visited
    ensures var s := ResolveAll(h, [v], ctx, old(visited.members), ClassifierFor(ext), keys);
      r == s.found && visited.members == s.visited
    decreases |h.Keys - visited.members|, 1
  {
    ghost var classify := ClassifierFor(ext);
    if IsNullish(v) {
      ResolveSkips(h, v, ctx, visited.members, classify, keys);
      return None;
    }
    if v.Str? {
      ResolveString(h, v.s, ctx, visited.members, classify, keys);
      var reference := CreateFileReference(v, ext);
      if reference.None? {
        return None;
      }
      return Some(Resolved(reference.value, RecordOf(h, ctx)));
    }
    if !v.Ref? || v.id !in h || visited.Has(v.id) {
      ResolveSkips(h, v, ctx, visited.members, classify, keys);
      return None;
    }
    ResolveNode(h, v.id, ctx, visited.members, classify, keys);
    r := ExpandNode(h, v.id, ctx, visited, ext, keys);
  }

  /**
   * The part of `resolveFileReference` for an object or array not yet
   * visited: mark it, then try its values in order until one resolves.
   */
  method ExpandNode(h: Heap, id: NodeId, ctx: Value, visited: WeakSet, ext: seq<string>, keys: seq<string>)
    returns (r: Option<Resolved>)
    requires id in h && id !in visited.members
    modifies visited
    ensures var s := ResolveAll(h, Children(h[id], keys), NextContext(h, id, ctx), old(visited.members) + {id}, ClassifierFor(ext), keys);
      r == s.found && visited.members == s.visited
    decreases |h.Keys - visited.members|, 0
  {
    ghost var classify := ClassifierFor(ext);
    ghost var start := visited.members;
    visited.Add(id);
    var next := NextContext(h, id, ctx);
    var cs := Children(h[id], keys);
    ghost var whole := ResolveAll(h, cs, next, start + {id}, classify, keys);
    var k := 0;
    while k < |cs|
      invariant 0 <= k <= |cs|
      invariant start + {id} <= visited.members
      invariant whole.found == ResolveAll(h, cs[k..], next, visited.members, classify, keys).found
      invariant whole.visited == ResolveAll(h, cs[k..], next, visited.members, classify, keys).visited
      decreases |cs| - k
    {
      ghost var before := visited.members;
      UnvisitedShrinks(h.Keys, start, before, id);
      var resolved := ResolveFileReference(h, cs[k], next, visited, ext, keys);
      SearchStep(h, cs, k, next, before, classify, keys);
      if resolved.Some? {
        return resolved;
      }
      k := k + 1;
    }
    return None;
  }
}
