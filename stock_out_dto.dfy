/** Validation rules of StockOutDto; `quantity` is the JSON number as sent. */
module StockOutDto {
  import opened Validators
  import opened Common
  import StockEngine

  const MIN_QUANTITY: int := 1
  const MAX_QUANTITY: int := 999999

  datatype StockOutDto = StockOutDto(warehouseId: string, sparepartId: string, quantity: real)

  /**
   * Decorators in declaration order. @IsString is implied by the field
   * types, and @IsNotEmpty on a number never fails, so neither contributes.
   */
  function Validate(dto: StockOutDto): seq<Violation>
  {
    Check("warehouseId", IsNotEmpty, NotEmpty(dto.warehouseId))
    + Check("sparepartId", IsNotEmpty, NotEmpty(dto.sparepartId))
    + Check("quantity", IsInt, Integral(dto.quantity))
    + Check("quantity", Min, dto.quantity >= MIN_QUANTITY as real)
    + Check("quantity", Max, dto.quantity <= MAX_QUANTITY as real)
  }

  /**
   * A request is accepted exactly when both ids are non-empty and the
   * quantity is a whole number between 1 and 999999.
   */
  lemma ValidateAccepts(dto: StockOutDto)
    ensures Validate(dto) == [] <==>
      && dto.warehouseId != "" && dto.sparepartId != ""
      && dto.quantity == dto.quantity.Floor as real
      && 1 <= dto.quantity.Floor <= 999999
  {
  }

  /** The integer quantity an accepted request carries to the service. */
  function Quantity(dto: StockOutDto): (q: int)
    requires Validate(dto) == []
    ensures q as real == dto.quantity
    ensures MIN_QUANTITY <= q <= MAX_QUANTITY
  {
    dto.quantity.Floor
  }

  /**
   * An accepted request never reaches the service's quantity check as an
   * error: the only errors stockOut can still give it are about the ids and
   * the stock.
   */
  lemma AcceptedQuantityPassesPrecheck(dto: StockOutDto, cat: StockEngine.Catalog)
    requires Validate(dto) == []
    ensures StockEngine.Precheck(cat, dto.warehouseId, dto.sparepartId, Quantity(dto))
            != Some(StockEngine.InvalidQuantity)
  {
  }
}
