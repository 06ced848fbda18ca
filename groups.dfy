/** Group identifiers: how an asset names a category it belongs to or locks (store.js). */
module Groups {
  import opened Wrappers
  import opened Strings
  import opened Json
  import opened Catalog

  /**
   * `resolveGroupIdentifier`: a trimmed, non-blank string naming a group, or
   * `None`. Strings are trimmed, numbers written in decimal, and a record is
   * asked for its `id`, else `group`, else `name`, else `slug` (the first
   * truthy one decides, even when it then resolves to nothing).
   */
  function ResolveGroupIdentifier(v: Json): (r: Option<string>)
    ensures r.Some? ==> r.value != [] && IsTrimmed(r.value)
    ensures IsNullish(v) || v.Bool? || v.Arr? ==> r.None?
    ensures v.Str? ==> r == if IsBlank(v.s) then None else Some(Trim(v.s))
    ensures v.Num? ==> r == Some(IntToString(v.n))
  {
    match v
    case Str(s) =>
      var t := Trim(s);
      if t == [] then None else Some(t)
    case Num(n) =>
      Some(IntToString(n))
    case Obj(_) =>
      if Truthy(Field(v, "id")) then ResolveGroupIdentifier(Field(v, "id"))
      else if Truthy(Field(v, "group")) then ResolveGroupIdentifier(Field(v, "group"))
      else if Truthy(Field(v, "name")) then ResolveGroupIdentifier(Field(v, "name"))
      else if Truthy(Field(v, "slug")) then ResolveGroupIdentifier(Field(v, "slug"))
      else None
    case _ => None
  }

  /** A record's truthy `id` decides even when `group`, `name` or `slug` would resolve. */
  lemma RecordIdFirst(v: Json)
    requires v.Obj? && Truthy(Field(v, "id"))
    ensures ResolveGroupIdentifier(v) == ResolveGroupIdentifier(Field(v, "id"))
  {
  }

  /** Without a truthy `id`, a truthy `group` decides, then `name`, then `slug`. */
  lemma RecordFallbackOrder(v: Json)
    requires v.Obj? && !Truthy(Field(v, "id"))
    ensures Truthy(Field(v, "group")) ==> ResolveGroupIdentifier(v) == ResolveGroupIdentifier(Field(v, "group"))
    ensures !Truthy(Field(v, "group")) && Truthy(Field(v, "name")) ==>
      ResolveGroupIdentifier(v) == ResolveGroupIdentifier(Field(v, "name"))
    ensures !Truthy(Field(v, "group")) && !Truthy(Field(v, "name")) && Truthy(Field(v, "slug")) ==>
      ResolveGroupIdentifier(v) == ResolveGroupIdentifier(Field(v, "slug"))
    ensures !Truthy(Field(v, "group")) && !Truthy(Field(v, "name")) && !Truthy(Field(v, "slug")) ==>
      ResolveGroupIdentifier(v).None?
  {
  }

  /** The identifier a category is looked up by: strings as they are, anything else through `String`. */
  function Normalize(identifier: Json): string {
    if identifier.Str? then identifier.s else ToJsString(identifier)
  }

  predicate IdIs(n: string, c: Category) { c.id == n }
  predicate NameIs(n: string, c: Category) { c.name == n }
  predicate SlugIs(n: string, c: Category) { c.slug == Some(n) }

  /**
   * `findCategoryByIdentifier`: the first category whose id matches, else the
   * first whose name matches, else the first whose slug matches; nothing for
   * a null or undefined identifier.
   */
  function FindCategoryByIdentifier(cats: seq<Category>, identifier: Json): (r: Option<Category>)
    ensures IsNullish(identifier) ==> r.None?
    ensures r.Some? ==> r.value in cats
    ensures !IsNullish(identifier) ==>
      var n := Normalize(identifier);
      && ((exists c | c in cats :: IdIs(n, c)) ==> r == FindFirst(cats, c => IdIs(n, c)))
      && ((forall c | c in cats :: !IdIs(n, c)) && (exists c | c in cats :: NameIs(n, c)) ==>
            r == FindFirst(cats, c => NameIs(n, c)))
      && ((forall c | c in cats :: !IdIs(n, c) && !NameIs(n, c)) && (exists c | c in cats :: SlugIs(n, c)) ==>
            r == FindFirst(cats, c => SlugIs(n, c)))
      && ((forall c | c in cats :: !IdIs(n, c) && !NameIs(n, c) && !SlugIs(n, c)) <==> r.None?)
  {
    if IsNullish(identifier) then None
    else
      var n := Normalize(identifier);
      match FindFirst(cats, c => IdIs(n, c))
      case Some(c) => Some(c)
      case None =>
        match FindFirst(cats, c => NameIs(n, c))
        case Some(c) => Some(c)
        case None => FindFirst(cats, c => SlugIs(n, c))
  }

  /** A category is found by its own id whenever ids are unique. */
  lemma {:induction false} FindsByOwnId(cats: seq<Category>, i: nat)
    requires i < |cats|
    requires forall j | 0 <= j < |cats| && j != i :: cats[j].id != cats[i].id
    ensures FindCategoryByIdentifier(cats, Str(cats[i].id)) == Some(cats[i])
  {
    var n := cats[i].id;
    FindFirstAt(cats, c => IdIs(n, c), i);
  }
}
