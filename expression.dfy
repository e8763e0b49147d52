/** The shape of the product/quotient expressions the core builds and reads.
    Only the forms the core itself constructs are modelled: a leaf value and a
    left-nested binary node `lhs op rhs` whose right operand is a factor. */
module Expression {

  datatype Operator = Mul | Div

  /** A factor of an expression: a leaf holding a value of the factor type. */
  datatype Factor<F> = Value(value: F)

  datatype Expr<F> =
    | Value(factor: Factor<F>)
    | Binary(lhs: Expr<F>, rhs: Factor<F>, operator: Operator)
}
