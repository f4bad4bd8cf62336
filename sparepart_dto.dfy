/** Validation rules of CreateSparepartDto. */
module SparepartDto {
  import opened Validators

  const NAME_MIN_LENGTH: nat := 3
  const NAME_MAX_LENGTH: nat := 200
  const SKU_MIN_LENGTH: nat := 2
  const SKU_MAX_LENGTH: nat := 50

  datatype CreateSparepartDto = CreateSparepartDto(name: string, sku: string)

  function NameViolations(name: string): seq<Violation>
  {
    Check("name", IsNotEmpty, NotEmpty(name))
    + Check("name", MinLength, AtLeast(name, NAME_MIN_LENGTH))
    + Check("name", MaxLength, AtMost(name, NAME_MAX_LENGTH))
  }

  function SkuViolations(sku: string): seq<Violation>
  {
    Check("sku", IsNotEmpty, NotEmpty(sku))
    + Check("sku", MinLength, AtLeast(sku, SKU_MIN_LENGTH))
    + Check("sku", MaxLength, AtMost(sku, SKU_MAX_LENGTH))
    + Check("sku", Matches, MatchesCodePattern(sku))
  }

  function Validate(dto: CreateSparepartDto): seq<Violation>
  {
    NameViolations(dto.name) + SkuViolations(dto.sku)
  }

  /**
   * A request is accepted exactly when the name has 3..200 characters and
   * the SKU has 2..50 characters, all of them upper-case letters, digits
   * or '-'.
   */
  lemma ValidateAccepts(dto: CreateSparepartDto)
    ensures Validate(dto) == [] <==>
      && 3 <= |dto.name| <= 200
      && 2 <= |dto.sku| <= 50
      && forall i :: 0 <= i < |dto.sku| ==> CodeChar(dto.sku[i])
  {
    MatchesCodePatternIff(dto.sku);
  }

  lemma LowercaseSkuRejected(dto: CreateSparepartDto, i: nat)
    requires i < |dto.sku| && 'a' <= dto.sku[i] <= 'z'
    ensures Violation("sku", Matches) in Validate(dto)
  {
    LowercaseRejected(dto.sku, i);
  }
}
