/** The entities on the board and the list updates the board applies to them.
    Players and elements live in two ordered lists; each entity is addressed
    by its id. The updates are the array expressions of the board component:
    `filter` by id, `map` replacing the entities with an id, `find` by id,
    written once over a key function so that both lists share them. */
module Entities {

  import opened Geometry
  import opened Options

  type Id = string

  /** A numbered, coloured token. A player without a name shows a default one. */
  datatype Player = Player(id: Id, number: int, color: string, position: Point, name: Option<string>)

  /** The one kind of element the board offers. */
  datatype ElementKind = Volleyball

  /** A marker on the board (the ball). */
  datatype Element = Element(id: Id, kind: ElementKind, position: Point)

  /** The arguments a token passes to the board's drag handler when it is dropped. */
  datatype Move = Move(id: Id, position: Point)

  function PlayerId(p: Player): Id { p.id }

  function ElementId(e: Element): Id { e.id }

  /** Some entity of xs has the given id. */
  predicate HasId<T>(xs: seq<T>, id: Id, key: T -> Id)
  {
    exists i :: 0 <= i < |xs| && key(xs[i]) == id
  }

  /** No two entities of xs share an id. */
  predicate UniqueIds<T>(xs: seq<T>, key: T -> Id)
  {
    forall i, j :: 0 <= i < j < |xs| ==> key(xs[i]) != key(xs[j])
  }

  /** `xs.filter(x => x.id !== id)`: every entity with the id goes, every other
      entity stays, each as often as it was there; without the id nothing changes. */
  function RemoveById<T(!new)>(xs: seq<T>, id: Id, key: T -> Id): (r: seq<T>)
    ensures |r| <= |xs|
    ensures !HasId(r, id, key)
    ensures forall i :: 0 <= i < |xs| && key(xs[i]) != id ==> xs[i] in r
    ensures !HasId(xs, id, key) ==> r == xs
  {
    if xs == [] then []
    else
      assert xs == [xs[0]] + xs[1..];
      var rest := RemoveById(xs[1..], id, key);
      if key(xs[0]) == id then rest else [xs[0]] + rest
  }

  /** `xs.map(x => x.id === id ? f(x) : x)`: the entities with the id are
      replaced by their image under f, in place; all others stay as they are. */
  function ReplaceById<T>(xs: seq<T>, id: Id, key: T -> Id, f: T -> T): (r: seq<T>)
    ensures |r| == |xs|
    ensures forall i :: 0 <= i < |xs| ==> r[i] == if key(xs[i]) == id then f(xs[i]) else xs[i]
  {
    if xs == [] then []
    else [if key(xs[0]) == id then f(xs[0]) else xs[0]] + ReplaceById(xs[1..], id, key, f)
  }

  /** `xs.find(x => x.id === id)`: the first entity with the id, if any. */
  function Find<T>(xs: seq<T>, id: Id, key: T -> Id): (r: Option<T>)
    ensures r.None? <==> !HasId(xs, id, key)
    ensures r.Some? ==> exists i :: 0 <= i < |xs| && xs[i] == r.value && key(xs[i]) == id
                                    && forall j :: 0 <= j < i ==> key(xs[j]) != id
  {
    if xs == [] then None
    else if key(xs[0]) == id then Some(xs[0])
    else
      var r := Find(xs[1..], id, key);
      assert forall j :: 1 <= j < |xs| ==> xs[j] == xs[1..][j - 1];
      r
  }

  /** The filter keeps every entity without the id exactly as often as it
      occurs, and no entity with the id. */
  lemma {:induction false} RemoveByIdMultiplicity<T(!new)>(xs: seq<T>, id: Id, key: T -> Id, x: T)
    ensures multiset(RemoveById(xs, id, key))[x] == if key(x) == id then 0 else multiset(xs)[x]
  {
    if xs != [] {
      assert xs == [xs[0]] + xs[1..];
      RemoveByIdMultiplicity(xs[1..], id, key, x);
    }
  }

  /** Filtering distributes over concatenation. */
  lemma {:induction false} RemoveByIdAppend<T(!new)>(a: seq<T>, b: seq<T>, id: Id, key: T -> Id)
    ensures RemoveById(a + b, id, key) == RemoveById(a, id, key) + RemoveById(b, id, key)
  {
    if a != [] {
      assert (a + b)[0] == a[0];
      assert (a + b)[1..] == a[1..] + b;
      RemoveByIdAppend(a[1..], b, id, key);
    } else {
      assert a + b == b;
    }
  }

  /** Removing the id of an entity just appended to a list that did not hold
      that id gives the list back: adding and then removing a fresh entity
      restores the list exactly. */
  lemma RemoveFreshAppended<T(!new)>(xs: seq<T>, x: T, key: T -> Id)
    requires !HasId(xs, key(x), key)
    ensures RemoveById(xs + [x], key(x), key) == xs
  {
    RemoveByIdAppend(xs, [x], key(x), key);
    assert RemoveById([x], key(x), key) == [];
  }

  /** Removing the entity with an id and then appending what `find` returned
      for that id gives back the same entities, provided ids are unique:
      delete-then-undo loses and duplicates nothing, though it reorders. */
  lemma {:induction false} RemoveThenAppendFound<T(!new)>(xs: seq<T>, id: Id, key: T -> Id)
    requires UniqueIds(xs, key)
    requires Find(xs, id, key).Some?
    ensures multiset(RemoveById(xs, id, key) + [Find(xs, id, key).value]) == multiset(xs)
  {
    assert xs == [xs[0]] + xs[1..];
    if key(xs[0]) == id {
      assert !HasId(xs[1..], id, key) by {
        forall j | 0 <= j < |xs[1..]|
          ensures key(xs[1..][j]) != id
        {
          assert xs[1..][j] == xs[j + 1];
        }
      }
    } else {
      assert UniqueIds(xs[1..], key) by {
        forall i, j | 0 <= i < j < |xs[1..]|
          ensures key(xs[1..][i]) != key(xs[1..][j])
        {
          assert xs[1..][i] == xs[i + 1] && xs[1..][j] == xs[j + 1];
        }
      }
      RemoveThenAppendFound(xs[1..], id, key);
    }
  }

  /** The re-appended entity lands at the end, not where it was: from [a, b],
      removing a and appending it again gives [b, a]. */
  lemma ReappendMovesToEnd<T(!new)>(a: T, b: T, key: T -> Id)
    requires key(a) != key(b)
    ensures RemoveById([a, b], key(a), key) + [a] == [b, a]
    ensures [b, a] != [a, b]
  {
  }

  /** A replacement that keeps ids keeps every entity's id, so the set of ids
      on the board and their order are unchanged. */
  lemma ReplaceByIdKeepsIds<T>(xs: seq<T>, id: Id, key: T -> Id, f: T -> T)
    requires forall x :: key(f(x)) == key(x)
    ensures forall i :: 0 <= i < |xs| ==> key(ReplaceById(xs, id, key, f)[i]) == key(xs[i])
  {
  }

  /** A replacement for an id no entity has changes nothing. */
  lemma ReplaceMissingIdIsIdentity<T>(xs: seq<T>, id: Id, key: T -> Id, f: T -> T)
    requires !HasId(xs, id, key)
    ensures ReplaceById(xs, id, key, f) == xs
  {
  }
}
