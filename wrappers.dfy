/** The optional value used wherever the source returns `null` or `undefined` for "nothing". */
module Wrappers {

  datatype Option<+T> = None | Some(value: T)

  /** `Array.prototype.find`: the first element satisfying `p`, if any. */
  function FindFirst<T>(s: seq<T>, p: T -> bool): (r: Option<T>)
    ensures r.Some? <==> exists i | 0 <= i < |s| :: p(s[i])
    ensures r.Some? ==> exists i | 0 <= i < |s| :: s[i] == r.value && p(s[i]) && forall k | 0 <= k < i :: !p(s[k])
  {
    if s == [] then None
    else if p(s[0]) then Some(s[0])
    else
      var r := FindFirst(s[1..], p);
      assert forall i | 1 <= i < |s| :: s[i] == s[1..][i - 1];
      r
  }

  /** The first element satisfying `p` is unique: any witness with no earlier match is it. */
  lemma {:induction false} FindFirstAt<T>(s: seq<T>, p: T -> bool, i: nat)
    requires i < |s| && p(s[i])
    requires forall k | 0 <= k < i :: !p(s[k])
    ensures FindFirst(s, p) == Some(s[i])
  {
    if i > 0 {
      assert !p(s[0]);
      assert forall k | 0 <= k < i - 1 :: s[1..][k] == s[k + 1];
      FindFirstAt(s[1..], p, i - 1);
    }
  }

  /** The values `f` gives, in order, dropping `None`s. */
  function FilterMap<A, B>(s: seq<A>, f: A -> Option<B>): seq<B> {
    if s == [] then []
    else
      var rest := FilterMap(s[..|s| - 1], f);
      match f(s[|s| - 1])
      case Some(b) => rest + [b]
      case None => rest
  }

  lemma FilterMapSnoc<A, B>(s: seq<A>, a: A, f: A -> Option<B>)
    ensures FilterMap(s + [a], f) == FilterMap(s, f) + (if f(a).Some? then [f(a).value] else [])
  {
    assert (s + [a])[..|s|] == s;
  }

  lemma {:induction false} FilterMapAppend<A, B>(s: seq<A>, t: seq<A>, f: A -> Option<B>)
    ensures FilterMap(s + t, f) == FilterMap(s, f) + FilterMap(t, f)
    decreases |t|
  {
    if t == [] {
      assert s + t == s;
    } else {
      var init := t[..|t| - 1];
      assert s + t == (s + init) + [t[|t| - 1]] && t == init + [t[|t| - 1]];
      FilterMapAppend(s, init, f);
      FilterMapSnoc(s + init, t[|t| - 1], f);
      FilterMapSnoc(init, t[|t| - 1], f);
    }
  }

  lemma {:induction false} FilterMapMembers<A, B>(s: seq<A>, f: A -> Option<B>, b: B)
    ensures b in FilterMap(s, f) <==> exists a | a in s :: f(a) == Some(b)
  {
    if s != [] {
      var init := s[..|s| - 1];
      FilterMapMembers(init, f, b);
      assert s == init + [s[|s| - 1]];
      assert forall a | a in s :: a in init || a == s[|s| - 1];
    }
  }

  /** `s.flatMap(f)`: the sequences `f` gives, concatenated in order. */
  function FlatMap<A, B>(s: seq<A>, f: A -> seq<B>): seq<B> {
    if s == [] then [] else FlatMap(s[..|s| - 1], f) + f(s[|s| - 1])
  }

  lemma FlatMapSnoc<A, B>(s: seq<A>, a: A, f: A -> seq<B>)
    ensures FlatMap(s + [a], f) == FlatMap(s, f) + f(a)
  {
    assert (s + [a])[..|s|] == s;
  }

  lemma {:induction false} FlatMapMembers<A, B>(s: seq<A>, f: A -> seq<B>, b: B)
    ensures b in FlatMap(s, f) <==> exists i | 0 <= i < |s| :: b in f(s[i])
  {
    if s != [] {
      var n := |s| - 1;
      assert FlatMap(s, f) == FlatMap(s[..n], f) + f(s[n]);
      FlatMapMembers(s[..n], f, b);
      if b in FlatMap(s[..n], f) {
        var i :| 0 <= i < n && b in f(s[..n][i]);
        assert s[..n][i] == s[i];
      } else if b !in f(s[n]) {
        assert forall i | 0 <= i < n :: s[..n][i] == s[i];
      }
    }
  }
}

