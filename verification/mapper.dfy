/** `BrandMapper`: conversions between the payloads and the entity. */
module BrandMapper {
  import opened Model
  import opened Dto
  import opened JavaString

  /** `toEntity`: a fresh bean holding only the trimmed request name; the
      id and both timestamps are left null for the service to fill in. */
  function ToEntity(request: BrandRequest): (b: Brand)
    ensures b.id == None && b.createdAt == None && b.updatedAt == None
    ensures b.name == Trim(request.name)
  {
    Brand(None, Trim(request.name), None, None)
  }

  /** The mapped name never starts or ends with a strippable char and is no
      longer than the request name, so a validated request yields a name of
      1 to 120 chars. */
  lemma ToEntityNameFits(request: BrandRequest)
    ensures IsTrimmed(ToEntity(request).name)
    ensures |ToEntity(request).name| <= |request.name|
    ensures ValidRequest(request) ==> 1 <= |ToEntity(request).name| <= MaxNameLength
  {
  }

  /** `toResponse`: copies the id and the name and nothing else. */
  function ToResponse(b: Brand): (r: BrandResponse)
    ensures r.id == b.id && r.name == b.name
  {
    BrandResponse(b.id, b.name)
  }

  /** The response exposes no timestamps: two brands that agree on id and
      name give the same response however their timestamps differ, and
      brands that differ in id or name give different responses. */
  lemma ToResponseIsProjection(a: Brand, b: Brand)
    ensures ToResponse(a) == ToResponse(b) <==> (a.id == b.id && a.name == b.name)
  {
  }
}
