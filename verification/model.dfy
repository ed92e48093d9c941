/**
  The entity of the catalog (`model/Brand.java`) and the values it is built
  from: identifiers, instants and Java's nullable references.
*/
module Model {

  /** A Java reference that may be null. */
  datatype Option<+T> = None | Some(value: T)

  /** `java.util.UUID`: two 64-bit halves. The model never computes on them;
      it only compares identifiers for equality. */
  datatype Uuid = Uuid(mostSigBits: bv64, leastSigBits: bv64)

  /** `java.time.Instant`, as nanoseconds since the epoch. Only the order of
      instants matters to the service. */
  type Instant = int

  /** `Brand`: a mutable Java bean whose id and timestamps stay null until the
      service assigns them; the name is set by the mapper. */
  datatype Brand = Brand(
    id: Option<Uuid>,
    name: string,
    createdAt: Option<Instant>,
    updatedAt: Option<Instant>)
}

/** The request and response payloads (`model/dto`). */
module Dto {
  import opened Model
  import opened JavaString

  /** The `@Size(max = 120)` bound on a brand name. */
  const MaxNameLength: nat := 120

  /** `BrandRequest`: the only input field is the name. A Dafny string is
      never null, so the Java request with a null name, which
      `@NotBlank` rejects, has no counterpart. */
  datatype BrandRequest = BrandRequest(name: string)

  /** `BrandResponse`: what callers see of a brand, its id and name only. */
  datatype BrandResponse = BrandResponse(id: Option<Uuid>, name: string)

  /** A request that passed bean validation: `@Size(min = 1, max = 120)` on
      the name as sent, and `@NotBlank` taken as "something is left after
      trimming". */
  predicate ValidRequest(request: BrandRequest) {
    && 1 <= |request.name| <= MaxNameLength
    && Trim(request.name) != []
  }
}

/** `BrandNotFoundException` and the outcome of the operations that raise it. */
module Errors {
  import opened Model

  /** The exception carries the id that was looked up. */
  datatype BrandNotFound = BrandNotFound(id: Uuid)

  /** A value, or the not-found failure the service throws. */
  datatype Result<+T> = Ok(value: T) | Err(error: BrandNotFound)
}
