/**
  `BrandRepository`, as the service uses it: a key-value store of brands
  keyed by their own id. The repository's implementation is not part of
  this model; its four operations are given map semantics.
*/
module BrandRepository {
  import opened Model

  /** Every stored brand sits under its own id. */
  predicate KeyedById(m: map<Uuid, Brand>) {
    forall k :: k in m ==> m[k].id == Some(k)
  }

  /** The repository's contents. */
  type Store = m: map<Uuid, Brand> | KeyedById(m) witness map[]

  /** `save`: insert-or-replace under the entity's own id, returning the
      entity as stored. Every other entry is left as it was. */
  function Save(store: Store, b: Brand): (r: (Brand, Store))
    requires b.id.Some?
    ensures r.0 == b
    ensures r.1.Keys == store.Keys + {b.id.value}
    ensures r.1[b.id.value] == b
    ensures forall k :: k in store && k != b.id.value ==> r.1[k] == store[k]
  {
    (b, store[b.id.value := b])
  }

  /** `findById`: the brand stored under `id`, or nothing. */
  function FindById(store: Store, id: Uuid): (r: Option<Brand>)
    ensures r.Some? <==> id in store
    ensures r.Some? ==> r.value == store[id] && r.value.id == Some(id)
  {
    if id in store then Some(store[id]) else None
  }

  /** `deleteById`: drops the entry under `id`, if any, and nothing else. */
  function DeleteById(store: Store, id: Uuid): (r: Store)
    ensures r.Keys == store.Keys - {id}
    ensures forall k :: k in r ==> r[k] == store[k]
  {
    store - {id}
  }

  /** `findAll`: every stored brand exactly once, in no promised order. */
  method FindAll(store: Store) returns (r: seq<Brand>)
    ensures |r| == |store|
    ensures forall i :: 0 <= i < |r| ==> r[i] in store.Values
    ensures forall k :: k in store ==> store[k] in r
    ensures forall i, j :: 0 <= i < j < |r| ==> r[i] != r[j]
  {
    var rest := store.Keys;
    r := [];
    while rest != {}
      invariant rest <= store.Keys
      invariant |r| + |rest| == |store|
      invariant forall i :: 0 <= i < |r| ==> r[i].id.Some? && r[i].id.value in store && r[i].id.value !in rest
      invariant forall i :: 0 <= i < |r| ==> r[i] == store[r[i].id.value]
      invariant forall k :: k in store && k !in rest ==> store[k] in r
      invariant forall i, j :: 0 <= i < j < |r| ==> r[i] != r[j]
      decreases rest
    {
      var k :| k in rest;
      r := r + [store[k]];
      rest := rest - {k};
    }
  }
}
