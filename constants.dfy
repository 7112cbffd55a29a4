/** DiceConstant: a literal integer operand. */
module Constants {
  import opened Wrappers
  import opened Text

  datatype DiceConstant = DiceConstant(total: int, valid: bool)

  /** Parses the token with parseInt(val, 10); NaN leaves the total at 0 and the constant invalid. */
  function NewConstant(val: string): (c: DiceConstant)
    ensures c.valid <==> ParseInt(val).Some?
    ensures c.valid ==> c.total == ParseInt(val).value
    ensures !c.valid ==> c.total == 0
  {
    match ParseInt(val)
    case None => DiceConstant(0, false)
    case Some(n) => DiceConstant(n, true)
  }

  /** The total in decimal. */
  function Render(c: DiceConstant): string {
    IntToString(c.total)
  }

  /** Every constant renders as text that parses back to the same total. */
  lemma RenderRoundTrip(c: DiceConstant)
    ensures NewConstant(Render(c)) == c.(valid := true)
  {
    IntToStringParses(c.total);
  }

  /** The tokenizer only hands over runs of digits: those always make a valid constant of their decimal value. */
  lemma DigitsMakeValidConstant(digits: string)
    requires digits != [] && AllDigits(digits)
    ensures NewConstant(digits) == DiceConstant(DigitsValue(digits), true)
  {
  }
}
