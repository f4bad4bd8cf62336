/** Validation rules of CreateWarehouseDto. */
module WarehouseDto {
  import opened Validators

  const NAME_MIN_LENGTH: nat := 3
  const NAME_MAX_LENGTH: nat := 100
  const CODE_MIN_LENGTH: nat := 2
  const CODE_MAX_LENGTH: nat := 20

  datatype CreateWarehouseDto = CreateWarehouseDto(name: string, code: string)

  /** Decorators on `name`, in declaration order. */
  function NameViolations(name: string): seq<Violation>
  {
    Check("name", IsNotEmpty, NotEmpty(name))
    + Check("name", MinLength, AtLeast(name, NAME_MIN_LENGTH))
    + Check("name", MaxLength, AtMost(name, NAME_MAX_LENGTH))
  }

  /** Decorators on `code`, in declaration order. */
  function CodeViolations(code: string): seq<Violation>
  {
    Check("code", IsNotEmpty, NotEmpty(code))
    + Check("code", MinLength, AtLeast(code, CODE_MIN_LENGTH))
    + Check("code", MaxLength, AtMost(code, CODE_MAX_LENGTH))
    + Check("code", Matches, MatchesCodePattern(code))
  }

  function Validate(dto: CreateWarehouseDto): seq<Violation>
  {
    NameViolations(dto.name) + CodeViolations(dto.code)
  }

  /**
   * A request is accepted exactly when the name has 3..100 characters and
   * the code has 2..20 characters, all of them upper-case letters, digits
   * or '-'.
   */
  lemma ValidateAccepts(dto: CreateWarehouseDto)
    ensures Validate(dto) == [] <==>
      && 3 <= |dto.name| <= 100
      && 2 <= |dto.code| <= 20
      && forall i :: 0 <= i < |dto.code| ==> CodeChar(dto.code[i])
  {
    MatchesCodePatternIff(dto.code);
  }

  /** A code with a lower-case letter is reported as a `code` pattern violation. */
  lemma LowercaseCodeRejected(dto: CreateWarehouseDto, i: nat)
    requires i < |dto.code| && 'a' <= dto.code[i] <= 'z'
    ensures Violation("code", Matches) in Validate(dto)
  {
    LowercaseRejected(dto.code, i);
  }
}
