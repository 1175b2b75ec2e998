/**
 * Failure-carrying values shared by every component: the source reports
 * failures by throwing, the model returns them.
 */
module Errors {

  datatype Option<+T> = None | Some(value: T)

  /** Every way the engine can fail; each names the exception the source throws. */
  datatype Error =
    // Schema::getColumn: columnIndex.at(name) throws std::out_of_range
    | UnknownColumn(name: string)
    // ColumnRefExpression: tuple[index] past the end of a short tuple (unchecked in the source)
    | TupleIndexOutOfRange(name: string)
    // BinaryExpression: arithmetic on a non-numeric operand
    | NonNumericArithmetic(op: string)
    // BinaryExpression: DIV by a zero denominator
    | DivisionByZero
    // BinaryExpression: GT/GTE/LT/LTE on a non-numeric operand
    | NonNumericComparison(op: string)
    // BinaryExpression: an operator tag outside the ten known ones
    | UnsupportedOperator(op: string)
    // std::get<bool> on a non-bool value (NOT, predicates, join conditions)
    | NotABool
    // ScanOperator: std::stoi / std::stof throw std::out_of_range (not caught)
    | FieldOutOfRange(field: string)
    // Catalog::getSchema: schemas_.at(table) throws std::out_of_range
    | UnknownTable(table: string)
    // stringToType: "Unknown data type"
    | UnknownDataType(name: string)
    // parseExpression: "Invalid expression JSON format"
    | InvalidExpressionFormat
    // parsePlan: "Unsupported operator in plan"
    | UnsupportedPlanOperator(op: string)
    // a JSON field that is missing or of the wrong JSON type
    | BadJson(key: string)

  datatype Result<+T> = Ok(value: T) | Err(error: Error) {
    predicate IsFailure() { Err? }
    function PropagateFailure<U>(): Result<U> requires Err? { Err(error) }
    function Extract(): T requires Ok? { value }
  }
}
