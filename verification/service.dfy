/**
  `BrandService`: the brand lifecycle over the repository. Every operation
  is a function from the current store (and the inputs the Java code draws
  from `UUID.randomUUID()` and `Instant.now()`) to its result and the new
  store. A brand id moves from absent to live on create, stays live through
  updates and becomes absent on delete.
*/
module BrandService {
  import opened Model
  import opened Dto
  import opened Errors
  import opened JavaString
  import opened BrandRepository
  import BrandMapper

  /** `createBrand`: the mapped entity gets the fresh id and the two clock
      readings and is saved. The store gains exactly the new id and keeps
      every other entry. */
  function CreateBrand(store: Store, request: BrandRequest, freshId: Uuid,
                       createdAt: Instant, updatedAt: Instant): (r: (Brand, Store))
    requires freshId !in store
    ensures r.0.id == Some(freshId) && r.0.name == Trim(request.name)
    ensures r.0.createdAt == Some(createdAt) && r.0.updatedAt == Some(updatedAt)
    ensures r.1.Keys == store.Keys + {freshId}
    ensures r.1[freshId] == r.0
    ensures forall k :: k in store ==> r.1[k] == store[k]
  {
    var brand := BrandMapper.ToEntity(request).(
      id := Some(freshId), createdAt := Some(createdAt), updatedAt := Some(updatedAt));
    Save(store, brand)
  }

  /** `getBrandById`: the stored brand unchanged, or not-found carrying the
      id that was asked for. */
  function GetBrandById(store: Store, id: Uuid): (r: Result<Brand>)
    ensures r.Ok? <==> id in store
    ensures r.Ok? ==> r.value == store[id]
    ensures r.Err? ==> r.error == BrandNotFound(id)
  {
    match FindById(store, id)
    case Some(b) => Ok(b)
    case None => Err(BrandNotFound(id))
  }

  /** `getAllBrands`: every stored brand exactly once, in no promised order. */
  method GetAllBrands(store: Store) returns (r: seq<Brand>)
    ensures |r| == |store|
    ensures forall i :: 0 <= i < |r| ==> r[i] in store.Values
    ensures forall b :: b in store.Values ==> b in r
    ensures forall i, j :: 0 <= i < j < |r| ==> r[i] != r[j]
  {
    r := FindAll(store);
  }

  /** `updateBrand`: not-found with the store untouched, or the stored brand
      with its name replaced by the trimmed request name and `updatedAt` set
      to the clock reading; id, `createdAt` and all other entries stay. */
  function UpdateBrand(store: Store, id: Uuid, request: BrandRequest, now: Instant)
    : (r: Result<(Brand, Store)>)
    ensures r.Err? <==> id !in store
    ensures r.Err? ==> r.error == BrandNotFound(id)
    ensures r.Ok? ==>
      var (b, s) := r.value;
      && b.id == Some(id) && b.createdAt == store[id].createdAt
      && b.name == Trim(request.name) && b.updatedAt == Some(now)
      && s.Keys == store.Keys && s[id] == b
      && forall k :: k in store && k != id ==> s[k] == store[k]
  {
    match GetBrandById(store, id)
    case Err(e) => Err(e)
    case Ok(existing) =>
      var changed := existing.(name := Trim(request.name), updatedAt := Some(now));
      Ok(Save(store, changed))
  }

  /** `deletebrand`: not-found with the store untouched, or the store with
      exactly that id removed. */
  function DeleteBrand(store: Store, id: Uuid): (r: Result<Store>)
    ensures r.Err? <==> id !in store
    ensures r.Err? ==> r.error == BrandNotFound(id)
    ensures r.Ok? ==> r.value.Keys == store.Keys - {id}
    ensures r.Ok? ==> forall k :: k in r.value ==> r.value[k] == store[k]
  {
    if FindById(store, id).None? then Err(BrandNotFound(id))
    else Ok(DeleteById(store, id))
  }

  // ---------------------------------------------------------------------
  // The invariant a store keeps under the service's operations.

  /** A brand as the service stores it: both timestamps assigned and in
      order, the name trimmed and of a length a valid request allows. The
      name clauses are the entity's own `@NotBlank @Size(min = 1, max = 120)`
      annotations; the repository is not assumed to check them, so the
      lemmas below derive them from the service's code and request
      validation alone. */
  predicate Persisted(b: Brand) {
    && b.createdAt.Some? && b.updatedAt.Some?
    && b.createdAt.value <= b.updatedAt.value
    && IsTrimmed(b.name) && 1 <= |b.name| <= MaxNameLength
  }

  predicate WellFormed(store: Store) {
    forall k :: k in store ==> Persisted(store[k])
  }

  /** Every stored `updatedAt` is at or before `now`. */
  predicate StampedBy(store: Store, now: Instant) {
    forall k :: k in store ==> store[k].updatedAt.Some? && store[k].updatedAt.value <= now
  }

  /** Create keeps the store well formed when the request passed validation
      and the second clock reading is not before the first. */
  lemma CreatePreservesWellFormed(store: Store, request: BrandRequest, freshId: Uuid,
                                  createdAt: Instant, updatedAt: Instant)
    requires freshId !in store && WellFormed(store)
    requires ValidRequest(request) && createdAt <= updatedAt
    ensures WellFormed(CreateBrand(store, request, freshId, createdAt, updatedAt).1)
    ensures Persisted(CreateBrand(store, request, freshId, createdAt, updatedAt).0)
  {
  }

  /** Update keeps the store well formed when the request passed validation
      and the clock has not gone back past the brand's last update. */
  lemma UpdatePreservesWellFormed(store: Store, id: Uuid, request: BrandRequest, now: Instant)
    requires WellFormed(store) && StampedBy(store, now) && ValidRequest(request)
    ensures match UpdateBrand(store, id, request, now)
            case Ok((b, s)) => WellFormed(s) && Persisted(b)
            case Err(_) => true
  {
  }

  /** Delete keeps the store well formed. */
  lemma DeletePreservesWellFormed(store: Store, id: Uuid)
    requires WellFormed(store)
    ensures DeleteBrand(store, id).Ok? ==> WellFormed(DeleteBrand(store, id).value)
  {
  }

  // ---------------------------------------------------------------------
  // How the operations follow one another.

  /** Create adds exactly one brand to the store. */
  lemma CreateAddsOne(store: Store, request: BrandRequest, freshId: Uuid,
                      createdAt: Instant, updatedAt: Instant)
    requires freshId !in store
    ensures |CreateBrand(store, request, freshId, createdAt, updatedAt).1| == |store| + 1
  {
  }

  /** A successful delete removes exactly one brand from the store. */
  lemma DeleteRemovesOne(store: Store, id: Uuid)
    requires id in store
    ensures DeleteBrand(store, id).Ok?
    ensures |DeleteBrand(store, id).value| == |store| - 1
  {
  }

  /** A created brand reads back as returned. */
  lemma CreateThenGet(store: Store, request: BrandRequest, freshId: Uuid,
                      createdAt: Instant, updatedAt: Instant)
    requires freshId !in store
    ensures var (b, s) := CreateBrand(store, request, freshId, createdAt, updatedAt);
            GetBrandById(s, freshId) == Ok(b)
  {
  }

  /** An updated brand reads back with the trimmed name, the new stamp and
      its original id and `createdAt`. */
  lemma UpdateThenGet(store: Store, id: Uuid, request: BrandRequest, now: Instant)
    requires id in store
    ensures UpdateBrand(store, id, request, now).Ok?
    ensures var (b, s) := UpdateBrand(store, id, request, now).value;
            && GetBrandById(s, id) == Ok(b)
            && b == store[id].(name := Trim(request.name), updatedAt := Some(now))
  {
  }

  /** Once deleted, the id is not found by get, update or delete. */
  lemma DeleteThenNotFound(store: Store, id: Uuid, request: BrandRequest, now: Instant)
    requires DeleteBrand(store, id).Ok?
    ensures var s := DeleteBrand(store, id).value;
            && GetBrandById(s, id) == Err(BrandNotFound(id))
            && UpdateBrand(s, id, request, now) == Err(BrandNotFound(id))
            && DeleteBrand(s, id) == Err(BrandNotFound(id))
  {
  }

  /** Deleting one of three ids leaves exactly the other two brands. */
  lemma DeleteOneOfThree(s: Store, a: Uuid, b: Uuid, c: Uuid)
    requires s.Keys == {a, b, c} && a != b && b != c && a != c
    ensures DeleteBrand(s, b).Ok?
    ensures DeleteBrand(s, b).value.Keys == {a, c}
    ensures DeleteBrand(s, b).value.Values == {s[a], s[c]}
  {
  }

  /** Creating brands A, B and C in an empty store and then deleting B
      leaves exactly A and C, stored as create returned them. */
  lemma CreateThreeDeleteOne(ra: BrandRequest, rb: BrandRequest, rc: BrandRequest,
                             a: Uuid, b: Uuid, c: Uuid, ta: Instant, tb: Instant, tc: Instant)
    requires a != b && b != c && a != c
    ensures var pa := CreateBrand(map[], ra, a, ta, ta);
            var pb := CreateBrand(pa.1, rb, b, tb, tb);
            var pc := CreateBrand(pb.1, rc, c, tc, tc);
            var r := DeleteBrand(pc.1, b);
            r.Ok? && r.value.Keys == {a, c} && r.value[a] == pa.0 && r.value[c] == pc.0
  {
  }

  /** `getAllBrands` on a store holding two brands returns exactly those
      two, once each. */
  method GetAllOfTwo(s: Store, a: Uuid, c: Uuid) returns (all: seq<Brand>)
    requires s.Keys == {a, c} && a != c
    ensures |all| == 2
    ensures forall x :: x in all <==> x == s[a] || x == s[c]
  {
    assert |s| == |s.Keys| == 2;
    all := GetAllBrands(s);
    assert s[a] in s.Values && s[c] in s.Values;
    forall x | x in all
      ensures x == s[a] || x == s[c]
    {
      var k :| k in s && s[k] == x;
    }
  }

  /** The same scenario as the service's caller sees it: after creating A, B
      and C and deleting B, `getAllBrands` returns exactly the brands created
      for A and C, once each. */
  method CreateThreeDeleteOneThenGetAll(ra: BrandRequest, rb: BrandRequest, rc: BrandRequest,
                                        a: Uuid, b: Uuid, c: Uuid,
                                        ta: Instant, tb: Instant, tc: Instant)
    returns (all: seq<Brand>)
    requires a != b && b != c && a != c
    ensures var pa := CreateBrand(map[], ra, a, ta, ta);
            var pb := CreateBrand(pa.1, rb, b, tb, tb);
            var pc := CreateBrand(pb.1, rc, c, tc, tc);
            && |all| == 2
            && (forall x :: x in all <==> x == pa.0 || x == pc.0)
  {
    var pa := CreateBrand(map[], ra, a, ta, ta);
    var pb := CreateBrand(pa.1, rb, b, tb, tb);
    var pc := CreateBrand(pb.1, rc, c, tc, tc);
    CreateThreeDeleteOne(ra, rb, rc, a, b, c, ta, tb, tc);
    all := GetAllOfTwo(DeleteBrand(pc.1, b).value, a, c);
  }
}
