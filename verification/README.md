# Brand catalog service: a Dafny model of the brand lifecycle

This project models the core of a small Spring Boot service that manages
one resource, the *Brand* (an id, a name, and creation/update instants).
The core is `BrandService`, which creates, reads, lists, updates and
deletes brands through a repository, and `BrandMapper`, which trims the
request name on the way in and projects a brand to its id and name on the
way out.

The model is functional. The repository is a `map<Uuid, Brand>` whose
entries sit under their own id. Each service operation is a function from
that store, plus the values the Java code draws from `UUID.randomUUID()`
and `Instant.now()`, to its result and the new store. `BrandNotFoundException`
becomes the `Err(BrandNotFound(id))` case of a `Result`. Java's
`String.trim()` is modelled exactly: it strips leading and trailing chars
whose code is at most U+0020.

Files and modules:

- `java_string.dfy` (`JavaString`): `String.trim()`. Its two scans are
  recursive functions and the JDK's loop is a method. `Margins` is an
  independent description of the result, and `TrimUnique` proves that it
  agrees with `Trim`.
- `model.dfy` (`Model`, `Dto`, `Errors`): `Brand`, `Uuid`, `Instant`,
  nullable references, the request and response payloads, the validated
  request predicate, the not-found error and `Result`.
- `mapper.dfy` (`BrandMapper`): `toEntity` and `toResponse`.
- `repository.dfy` (`BrandRepository`): map semantics for `save`,
  `findById`, `findAll` and `deleteById`, as the service uses them.
- `service.dfy` (`BrandService`): the five operations, the invariant a
  store keeps, and how the operations compose.
- `lifecycle.dfy` (`Lifecycle`): whole runs of calls. It shows that valid
  runs keep every stored brand well formed, and that a deleted id never
  comes back.

Modelling decisions:

- `UUID.randomUUID()` is a `freshId` argument. `CreateBrand` requires the id
  to be absent from the store. A run requires it never to have been issued
  before.
- `Instant.now()` is a clock-reading argument. `createBrand` reads the clock
  twice, so it takes two readings. A run requires readings never to go
  back in time.
- `Instant` is an integer count of nanoseconds. `Uuid` is a pair of 64-bit
  halves that are only compared for equality.
- The Java entity is a mutable bean with nullable fields. Here it is an
  immutable `Brand` whose id and timestamps are `Option`s: `toEntity`
  leaves them `None` and the service fills them in.
- `updateBrand` saves the entity under the entity's own id, not under the
  argument id. The model does the same: `Save` keys by `b.id`, and the
  `Store` subset type records that every entry sits under its own id.
- Bean validation (`@NotBlank`, `@Size(min = 1, max = 120)`) runs in the
  controller before the service. It is the predicate `ValidRequest`, used
  as a precondition where the invariant needs it. `@NotBlank` is taken to
  mean "the trimmed name is non-empty". Beyond a non-null name, the
  service itself does not need the request to be valid.
- `Brand.java` puts `@NotBlank @Size(min = 1, max = 120)` on the entity's
  own `name` as well. The predicate `Persisted` states those annotations
  (plus a trimmed name and ordered timestamps), and `RunKeepsGood` proves
  that every stored brand meets them after any admissible run. The
  repository is not assumed to enforce them: the proof rests on the
  service's own code and on request validation alone.

## Model

| member | source | states |
|---|---|---|
| JavaString.FirstKept | src/main/java/pt/ulusofona/cd/brand/mapper/BrandMapper.java:11 | the forward scan of `trim` stops at the first char above U+0020 at or after `i`, every char it passes is at most U+0020, and it stays within the string |
| JavaString.EndKept | src/main/java/pt/ulusofona/cd/brand/mapper/BrandMapper.java:11 | the backward scan of `trim` stops just past the last char above U+0020, never before the forward scan, and every char it passes is at most U+0020 |
| JavaString.Trim | src/main/java/pt/ulusofona/cd/brand/mapper/BrandMapper.java:11 | the trimmed name is never longer than the input, has no char at or below U+0020 at either end, and is empty exactly when every input char is at or below U+0020 |
| JavaString.TrimIsMiddle | src/main/java/pt/ulusofona/cd/brand/mapper/BrandMapper.java:11 | the trimmed name is the middle of the input: everything before and after it is strippable, and it starts and ends with a kept char |
| JavaString.TrimUnique | src/main/java/pt/ulusofona/cd/brand/mapper/BrandMapper.java:11 | any split into strippable margins around a middle that starts and ends with a kept char gives exactly the trimmed name, so the `Margins` description determines `trim` |
| JavaString.TrimFixpoint | src/main/java/pt/ulusofona/cd/brand/mapper/BrandMapper.java:11 | `trim` leaves a string unchanged if and only if it has no strippable char at either end |
| JavaString.TrimIdempotent | src/main/java/pt/ulusofona/cd/brand/mapper/BrandMapper.java:11 | trimming an already trimmed name changes nothing |
| JavaString.TrimScan | src/main/java/pt/ulusofona/cd/brand/mapper/BrandMapper.java:11 | the JDK's two-loop `trim` returns exactly `Trim(s)` |
| BrandMapper.ToEntity | src/main/java/pt/ulusofona/cd/brand/mapper/BrandMapper.java:9-13 | the new entity carries the trimmed request name and leaves id, `createdAt` and `updatedAt` null |
| BrandMapper.ToEntityNameFits | src/main/java/pt/ulusofona/cd/brand/model/dto/BrandRequest.java:10-12 | the mapped name is trimmed and never longer than the request name, so a validated request gives a stored name of 1 to 120 chars |
| BrandMapper.ToResponse | src/main/java/pt/ulusofona/cd/brand/mapper/BrandMapper.java:15-20 | the response copies the entity's id and name exactly |
| BrandMapper.ToResponseIsProjection | src/main/java/pt/ulusofona/cd/brand/model/dto/BrandResponse.java:9-12 | two entities give the same response if and only if they agree on id and name, so no timestamp is exposed |
| BrandRepository.Save | src/main/java/pt/ulusofona/cd/brand/service/BrandService.java:27 | save inserts or replaces the entity under its own id, returns it, and leaves every other entry unchanged |
| BrandRepository.FindById | src/main/java/pt/ulusofona/cd/brand/service/BrandService.java:31 | the lookup finds something exactly when the id is stored, and then returns the stored entity, whose id is the id asked for |
| BrandRepository.DeleteById | src/main/java/pt/ulusofona/cd/brand/service/BrandService.java:52 | the delete removes exactly the given key and leaves every other entry unchanged |
| BrandRepository.FindAll | src/main/java/pt/ulusofona/cd/brand/service/BrandService.java:36 | findAll lists every stored entity exactly once, with no duplicates and nothing that is not stored, in no promised order |
| BrandService.CreateBrand | src/main/java/pt/ulusofona/cd/brand/service/BrandService.java:20-28 | create returns a brand with the fresh id, the trimmed name and the two clock readings; the store gains exactly that id and every earlier entry is unchanged |
| BrandService.GetBrandById | src/main/java/pt/ulusofona/cd/brand/service/BrandService.java:30-33 | get succeeds exactly when the id is stored and then returns the stored brand unchanged; otherwise it fails with not-found carrying that id |
| BrandService.GetAllBrands | src/main/java/pt/ulusofona/cd/brand/service/BrandService.java:35-37 | getAll returns exactly the stored brands, one per stored id, in no promised order |
| BrandService.UpdateBrand | src/main/java/pt/ulusofona/cd/brand/service/BrandService.java:39-46 | update fails with not-found carrying the id exactly when it is absent; otherwise the brand gets the trimmed name and the new `updatedAt`, keeps its id and `createdAt`, and every other entry is unchanged |
| BrandService.DeleteBrand | src/main/java/pt/ulusofona/cd/brand/service/BrandService.java:48-53 | delete fails with not-found carrying the id exactly when it is absent; otherwise exactly that id is removed and every other entry is unchanged |
| BrandService.CreatePreservesWellFormed | src/main/java/pt/ulusofona/cd/brand/service/BrandService.java:20-27 | from a validated request and non-decreasing clock readings, create stores a brand with a trimmed name of 1 to 120 chars and `createdAt <= updatedAt`, keeping the whole store well formed |
| BrandService.UpdatePreservesWellFormed | src/main/java/pt/ulusofona/cd/brand/service/BrandService.java:39-46 | a validated update with a clock reading not before the stored stamps keeps every brand well formed, `createdAt <= updatedAt` included |
| BrandService.DeletePreservesWellFormed | src/main/java/pt/ulusofona/cd/brand/service/BrandService.java:48-53 | delete keeps a well-formed store well formed |
| BrandService.CreateAddsOne | src/main/java/pt/ulusofona/cd/brand/service/BrandService.java:23-27 | create with a fresh id makes the store exactly one brand larger |
| BrandService.DeleteRemovesOne | src/main/java/pt/ulusofona/cd/brand/service/BrandService.java:48-53 | deleting a stored id succeeds and makes the store exactly one brand smaller |
| BrandService.CreateThenGet | src/main/java/pt/ulusofona/cd/brand/service/BrandService.java:20-33 | a created brand reads back exactly as create returned it |
| BrandService.UpdateThenGet | src/main/java/pt/ulusofona/cd/brand/service/BrandService.java:30-46 | updating a stored id succeeds and reads back as the old brand with only the name and `updatedAt` replaced |
| BrandService.DeleteThenNotFound | src/main/java/pt/ulusofona/cd/brand/service/BrandService.java:30-53 | after a successful delete, get, update and delete of that id all fail with not-found carrying the id |
| BrandService.DeleteOneOfThree | src/main/java/pt/ulusofona/cd/brand/service/BrandService.java:48-53 | deleting one of three stored ids leaves exactly the other two brands |
| BrandService.CreateThreeDeleteOne | src/main/java/pt/ulusofona/cd/brand/service/BrandService.java:20-53 | creating A, B and C in an empty store, from any three requests at any three instants, and deleting B leaves exactly the keys A and C, holding the brands that create returned for them |
| BrandService.GetAllOfTwo | src/main/java/pt/ulusofona/cd/brand/service/BrandService.java:35-37 | getAll on a store of two brands returns a list of length two holding exactly those two brands |
| BrandService.CreateThreeDeleteOneThenGetAll | src/main/java/pt/ulusofona/cd/brand/service/BrandService.java:20-53 | after creating A, B and C and deleting B, getAll returns exactly the brands create returned for A and C, once each |
| Lifecycle.Step | src/main/java/pt/ulusofona/cd/brand/service/BrandService.java:20-53 | a single call never forgets an issued id and never moves the clock back; only a create with its fresh id adds a key, and a delete always leaves its id absent |
| Lifecycle.Run | src/main/java/pt/ulusofona/cd/brand/service/BrandService.java:20-53 | over a run, the issued ids only grow and the clock never goes back |
| Lifecycle.StepKeepsGood | src/main/java/pt/ulusofona/cd/brand/service/BrandService.java:20-53 | every admissible call keeps the stored brands well formed and stamped no later than the clock |
| Lifecycle.CreateKeepsGood | src/main/java/pt/ulusofona/cd/brand/service/BrandService.java:20-28 | an admissible create keeps the history good: the new brand's stamps are the latest clock readings |
| Lifecycle.UpdateKeepsGood | src/main/java/pt/ulusofona/cd/brand/service/BrandService.java:39-46 | an admissible update keeps the history good: the refreshed `updatedAt` is the latest clock reading |
| Lifecycle.RunKeepsGood | src/main/java/pt/ulusofona/cd/brand/service/BrandService.java:20-53 | every admissible run keeps names trimmed and 1 to 120 chars long, and keeps `createdAt <= updatedAt` |
| Lifecycle.NoResurrection | src/main/java/pt/ulusofona/cd/brand/service/BrandService.java:20-53 | an id that was issued and is no longer stored stays absent for the rest of any admissible run |
| Lifecycle.DeletedStaysNotFound | src/main/java/pt/ulusofona/cd/brand/service/BrandService.java:30-53 | after a successful delete and any admissible calls after it, get, update and delete of that id fail with not-found |

## Left out

- `BrandController`: HTTP routing and the status codes 201, 200 and 204. It only forwards calls and maps results through `toResponse`.
- `GlobalExceptionHandler`: mapping exceptions to HTTP error bodies with `Instant.now()` timestamps. This is presentation only.
- The bean validation engine (`@Valid`, `@NotBlank`, `@Size`). Its effect is the `ValidRequest` precondition, and "trimmed name non-empty" is stated there directly. Hibernate's own blank test is not modelled, so a request that the validator judges differently from `trim` is outside the model. An invalid request is rejected before the service runs, so the service has no invalid-input error path here.
- A null request name. `BrandRequest.name` is a `string`, which has no null. In Java a null name makes `getName().trim()` throw a `NullPointerException` in both `toEntity` and `updateBrand`; `@NotBlank` rejects such a request before the service runs.
- ValidRequest: `@Size` counts UTF-16 code units, while a Dafny `char` is a Unicode scalar value. A name with characters outside the Basic Multilingual Plane is therefore counted shorter here than by Java. `trim` strips the same chars either way, because every surrogate is above U+0020.
- The message text of `BrandNotFoundException` (`"Brand not found with id: "` followed by the UUID's string form). The error carries the id, and the text is not modelled.
- The randomness of `UUID.randomUUID()` and real wall-clock time. They are supplied as arguments. UUID uniqueness and a non-decreasing clock are assumptions of a run, not something the model proves.
- The `BrandRepository` implementation and any storage failure. The repository is given map semantics, and the opaque storage-failure error has no counterpart.
- The check-then-act race between `findById` and `save`/`deleteById` under concurrent callers. Every call here is atomic.
- Lombok-generated getters and setters, and the nanosecond/second structure of `java.time.Instant`.
