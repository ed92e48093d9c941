/**
  The brand lifecycle over whole runs of the service: a history records the
  store, every id `UUID.randomUUID()` has handed out so far, and the last
  clock reading. Runs in which ids never repeat and the clock never goes
  back keep every stored brand well formed, and a deleted id never comes
  back.
*/
module Lifecycle {
  import opened Model
  import opened Dto
  import opened Errors
  import opened BrandRepository
  import opened BrandService

  /** A call that can change the store. The fresh id and clock readings are
      the values the Java code obtains from `UUID.randomUUID()` and
      `Instant.now()`. */
  datatype Call =
    | Create(request: BrandRequest, freshId: Uuid, createdAt: Instant, updatedAt: Instant)
    | Update(id: Uuid, request: BrandRequest, now: Instant)
    | Delete(id: Uuid)

  /** The store, the ids issued so far, and the latest clock reading. */
  datatype History = History(store: Store, issued: set<Uuid>, clock: Instant)

  /** What a run assumes of its environment: the request passed bean
      validation, a new UUID was never issued before, and the clock does
      not run backwards. */
  predicate Admissible(h: History, c: Call) {
    match c
    case Create(request, freshId, createdAt, updatedAt) =>
      && ValidRequest(request) && freshId !in h.issued
      && h.clock <= createdAt <= updatedAt
    case Update(_, request, now) => ValidRequest(request) && h.clock <= now
    case Delete(_) => true
  }

  /** What every reachable history satisfies. */
  predicate Good(h: History) {
    && h.store.Keys <= h.issued
    && WellFormed(h.store)
    && StampedBy(h.store, h.clock)
  }

  /** One call. A failed update or delete changes nothing, not even the
      clock, since the Java code throws before reading it. */
  function Step(h: History, c: Call): (h': History)
    requires Admissible(h, c) && h.store.Keys <= h.issued
    ensures h.issued <= h'.issued && h.clock <= h'.clock
    ensures h'.store.Keys <= h'.issued
    ensures forall k :: k in h'.store && k !in h.store ==> c.Create? && k == c.freshId
    ensures c.Delete? ==> c.id !in h'.store
  {
    match c
    case Create(request, freshId, createdAt, updatedAt) =>
      var (_, s) := CreateBrand(h.store, request, freshId, createdAt, updatedAt);
      History(s, h.issued + {freshId}, updatedAt)
    case Update(id, request, now) =>
      (match UpdateBrand(h.store, id, request, now)
       case Ok((_, s)) => h.(store := s, clock := now)
       case Err(_) => h)
    case Delete(id) =>
      (match DeleteBrand(h.store, id)
       case Ok(s) => h.(store := s)
       case Err(_) => h)
  }

  /** Every call of `calls` is admissible where it happens. */
  predicate ValidRun(h: History, calls: seq<Call>)
    decreases |calls|
  {
    |calls| == 0 ||
    (&& Admissible(h, calls[0]) && h.store.Keys <= h.issued
     && ValidRun(Step(h, calls[0]), calls[1..]))
  }

  /** The history after a run. */
  function Run(h: History, calls: seq<Call>): (h': History)
    requires ValidRun(h, calls)
    ensures h.issued <= h'.issued && h.clock <= h'.clock
    decreases |calls|
  {
    if |calls| == 0 then h else Run(Step(h, calls[0]), calls[1..])
  }

  /** One admissible call keeps a history good. */
  lemma StepKeepsGood(h: History, c: Call)
    requires Good(h) && Admissible(h, c)
    ensures Good(Step(h, c))
  {
    match c
    case Create(request, freshId, createdAt, updatedAt) =>
      CreateKeepsGood(h, request, freshId, createdAt, updatedAt);
    case Update(id, request, now) =>
      UpdateKeepsGood(h, id, request, now);
    case Delete(id) =>
      DeletePreservesWellFormed(h.store, id);
  }

  /** A create stamps the new brand with the latest clock reading. */
  lemma CreateKeepsGood(h: History, request: BrandRequest, freshId: Uuid,
                        createdAt: Instant, updatedAt: Instant)
    requires Good(h) && Admissible(h, Create(request, freshId, createdAt, updatedAt))
    ensures Good(Step(h, Create(request, freshId, createdAt, updatedAt)))
  {
  }

  /** An update stamps the brand with the latest clock reading. */
  lemma UpdateKeepsGood(h: History, id: Uuid, request: BrandRequest, now: Instant)
    requires Good(h) && Admissible(h, Update(id, request, now))
    ensures Good(Step(h, Update(id, request, now)))
  {
  }

  /** A whole admissible run keeps a history good: every stored brand keeps
      a trimmed name of 1 to 120 chars and `createdAt <= updatedAt`. */
  lemma {:induction false} RunKeepsGood(h: History, calls: seq<Call>)
    requires Good(h) && ValidRun(h, calls)
    ensures Good(Run(h, calls))
    decreases |calls|
  {
    if |calls| > 0 {
      StepKeepsGood(h, calls[0]);
      RunKeepsGood(Step(h, calls[0]), calls[1..]);
    }
  }

  /** An id that was issued and is no longer stored stays absent for the
      rest of any admissible run: nothing brings a deleted brand back. */
  lemma {:induction false} NoResurrection(h: History, calls: seq<Call>, id: Uuid)
    requires ValidRun(h, calls)
    requires id in h.issued && id !in h.store
    ensures id !in Run(h, calls).store
    decreases |calls|
  {
    if |calls| > 0 {
      NoResurrection(Step(h, calls[0]), calls[1..], id);
    }
  }

  /** After a successful delete, get, update and delete of that id report
      not-found, however many admissible calls come in between. */
  lemma DeletedStaysNotFound(h: History, id: Uuid, calls: seq<Call>,
                             request: BrandRequest, now: Instant)
    requires h.store.Keys <= h.issued && id in h.store
    requires ValidRun(Step(h, Delete(id)), calls)
    ensures var s := Run(Step(h, Delete(id)), calls).store;
            && GetBrandById(s, id) == Err(BrandNotFound(id))
            && UpdateBrand(s, id, request, now) == Err(BrandNotFound(id))
            && DeleteBrand(s, id) == Err(BrandNotFound(id))
  {
    NoResurrection(Step(h, Delete(id)), calls, id);
  }
}
