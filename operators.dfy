/** DiceOperator: the `+` and `-` that combine operands of a dice expression. */
module Operators {

  /** An operator as the tokenizer captures it; only `+` and `-` are valid. */
  datatype DiceOperator = DiceOperator(symbol: string)

  const Plus := DiceOperator("+")
  const Minus := DiceOperator("-")

  predicate IsValid(o: DiceOperator) {
    o.symbol == "+" || o.symbol == "-"
  }

  function Addition(left: int, right: int): int {
    left + right
  }

  /** Subtraction that saturates at zero. */
  function Subtraction(left: int, right: int): int {
    var diff := left - right;
    if diff > 0 then diff else 0
  }

  /**
   * The operator's delegate applied to the running total and an operand:
   * subtraction for a valid `-`, addition in every other case (an invalid
   * symbol keeps the default delegate).
   */
  function Apply(o: DiceOperator, left: int, right: int): (r: int)
    ensures o.symbol == "-" ==> r >= 0 && (left >= right ==> r == left - right) && (left <= right ==> r == 0)
    ensures o.symbol != "-" ==> r - right == left
  {
    if IsValid(o) && o.symbol == "-" then Subtraction(left, right) else Addition(left, right)
  }

  /** ` + ` or ` - `: the symbol with a space on each side. */
  function Render(o: DiceOperator): string {
    " " + o.symbol + " "
  }

  /** Subtracting what was just added gives back any non-negative running total. */
  lemma SubtractionUndoesAddition(total: nat, operand: int)
    ensures Apply(Minus, Apply(Plus, total, operand), operand) == total
  {
  }
}
