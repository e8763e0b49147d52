/** The loosely typed syntax tree the definition parser produces. Literals
    are kept as their text; identifiers as their name. */
module ParseTypes {
  import opened Wrappers
  import E = Expression

  datatype Prefix = PrefixIdent(ident: string) | PrefixLit(lit: string)

  /** `ident: value`, the value a literal. */
  datatype DimensionEntry = DimensionEntry(ident: string, value: string)

  datatype Dimensions = Dimensions(fields: seq<DimensionEntry>)

  datatype UnitFactor = UnitOrQuantity(ident: string) | Number(lit: string)

  type UnitExpression = E.Expr<UnitFactor>

  type QuantityExpression = E.Expr<string>

  datatype QuantityDefinition = DimensionsDef(dimensions: Dimensions) | ExpressionDef(expr: QuantityExpression)

  /** A unit entry; the symbol is a literal. */
  datatype UnitEntry = UnitEntry(name: string, symbol: Option<string>, prefixes: seq<Prefix>, rhs: UnitExpression)

  datatype QuantityEntry = QuantityEntry(name: string, rhs: QuantityDefinition)

  datatype ConstantEntry = ConstantEntry(name: string, rhs: UnitExpression)

  datatype Entry = Quantity(quantity: QuantityEntry) | Unit(unit: UnitEntry) | Constant(constant: ConstantEntry)

  /** The whole definition: the two type names, then the entries sorted by kind. */
  datatype Defs = Defs(
    dimensionType: string,
    quantityType: string,
    quantities: seq<QuantityEntry>,
    units: seq<UnitEntry>,
    constants: seq<ConstantEntry>)
}
