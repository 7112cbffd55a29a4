/** Whole commands worked through end to end, with the die results given as draws. */
module Scenarios {
  import opened Wrappers
  import opened Text
  import opened Operators
  import opened Constants
  import opened Options
  import opened Rolls
  import opened Expressions

  const NoSpecials: map<string, string> := map[]

  lemma Numerals()
    ensures IntToString(0) == "0" && IntToString(1) == "1" && IntToString(2) == "2" && IntToString(3) == "3"
    ensures IntToString(4) == "4" && IntToString(5) == "5" && IntToString(6) == "6"
    ensures IntToString(10) == "10" && IntToString(15) == "15" && IntToString(17) == "17"
  {
    assert NatToString(1) == "1";
    assert NatToString(10) == NatToString(1) + [DigitChar(0)];
    assert NatToString(15) == NatToString(1) + [DigitChar(5)];
    assert NatToString(17) == NatToString(1) + [DigitChar(7)];
  }

  /** The empty option text parses to no modifiers at all. */
  lemma NoOptions()
    ensures OptionsOf("") == Initial()
  {
    assert Tokens("") == [];
  }

  /** `3d6` as the tokenizer builds it. */
  lemma ThreeDSix()
    ensures var r := RollOf("3", "6", OptionsOf(""));
      && r.valid && !r.niceTry && r.numberOfDice == Some(3) && r.numberOfFaces == Sides(6)
      && r.rollOptions == Initial() && Wanted(r) == 3
  {
    NoOptions();
    assert DigitsValue("3") == 3 && DigitsValue("6") == 6;
  }

  lemma MatchThreeDSix(s: string)
    requires s == "3d6+2"
    ensures MatchDice(s) == Some(DiceMatch("", "3", "6", "", 3))
  {
    assert RunEnd(s, 0, Space) == 0;
    assert RunEnd(s, 0, Digit) == 1;
    assert RunEnd(s, 2, Digit) == 3;
    assert RunEnd(s, 3, ModifierChar) == 3;
    assert s[0..1] == "3" && s[2..3] == "6" && s[3..3] == "";
  }

  lemma ResiduePlusTwo(rest: string)
    requires rest == "+2"
    ensures MatchDice(rest) == None
    ensures ConstantOps(rest) == [Operator(Plus), Constant(DiceConstant(2, true))]
    ensures FindLabel(rest, 0) == None
  {
    assert RunEnd(rest, 0, Space) == 0;
    assert RunEnd(rest, 1, Space) == 1;
    assert RunEnd(rest, 1, Digit) == 2;
    assert rest[0..1] == "+" && rest[1..2] == "2";
    assert ConstantAt(rest, 0) == Some(ConstantMatch("+", "2"));
    assert DigitsValue("2") == 2;
    assert FindLabel(rest, 1) == None;
  }

  lemma TokenizeThreeDSixPlusTwo(s: string)
    requires s == "3d6+2"
    ensures TokenizeFrom(s) == Tokenized(
      [Roll(RollOf("3", "6", OptionsOf(""))), Operator(Plus), Constant(DiceConstant(2, true))], None)
  {
    MatchThreeDSix(s);
    var rest := s[3..];
    assert rest == "+2";
    ResiduePlusTwo(rest);
    assert TokenizeFrom(rest) == Tokenized([Operator(Plus), Constant(DiceConstant(2, true))], None);
    assert DiceOps(DiceMatch("", "3", "6", "", 3)) == [Roll(RollOf("3", "6", OptionsOf("")))];
  }

  /** An operator then a constant, with nothing pending: the operator applies to the running total. */
  lemma RunOperatorThenConstant(o: DiceOperator, n: int, draws: seq<int>, total: int)
    ensures var c := Constant(DiceConstant(n, true));
      RunFrom([Operator(o), c], draws, FoldState(total, None)) == Evaluated([Operator(o), c], Apply(o, total, n), 0)
  {
    var c := Constant(DiceConstant(n, true));
    assert RunFrom([c], draws, FoldState(total, Some(o))) == Evaluated([c], Apply(o, total, n), 0) by {
      assert [c][1..] == [];
      assert RunFrom([], draws, FoldState(Apply(o, total, n), None)) == Evaluated([], Apply(o, total, n), 0);
      assert [c] + [] == [c];
    }
    assert [Operator(o), c][1..] == [c];
    assert [Operator(o)] + [c] == [Operator(o), c];
  }

  /** A plain roll, executed on exactly as many draws as it wants, takes them all and totals them. */
  lemma RunPlainRoll(r: DiceRoll, draws: seq<int>)
    requires r.valid && r.rollOptions.reroll == [] && !Active(r.rollOptions.keep) && !Active(r.rollOptions.drop)
    requires Wanted(r) == |draws| && r.raw == []
    ensures Run(Roll(r), draws) == Drawn(Roll(r.(raw := draws, kept := draws, total := Sum(draws))), |draws|)
  {
    PlainRollTakesAll(r, draws);
  }

  lemma PlainRollTakesAll(r: DiceRoll, draws: seq<int>)
    requires r.valid && r.rollOptions.reroll == [] && !Active(r.rollOptions.keep) && !Active(r.rollOptions.drop)
    requires Wanted(r) == |draws| && r.raw == []
    ensures ExecutedRoll(r, draws) == Drawn(r.(raw := draws, kept := draws, total := Sum(draws)), |draws|)
  {
    var w := Wanted(r);
    PlainRollTakesDraws(r, draws);
    assert draws[..w] == draws;
    assert r.raw + draws[..w] == draws;
    assert r.(raw := r.raw + draws[..w], kept := draws[..w], total := Sum(draws[..w]))
        == r.(raw := draws, kept := draws, total := Sum(draws));
  }

  /** The first step of the execution loop, on a list given as head and tail. */
  lemma RunFromFirst(x: Operation, rest: seq<Operation>, draws: seq<int>, y: Operation, k: nat, s: FoldState, s': FoldState)
    requires Run(x, draws) == Drawn(y, k)
    requires Fold(s, y) == Some(s')
    ensures RunFrom([x] + rest, draws, s) == Shift([y], k, RunFrom(rest, draws[k..], s'))
  {
    assert ([x] + rest)[0] == x && ([x] + rest)[1..] == rest;
  }

  /** The plain roll in front takes all the draws and leaves its total as the running total. */
  lemma RollFirst(r: DiceRoll, tail: seq<Operation>, draws: seq<int>)
    requires r.valid && r.rollOptions.reroll == [] && !Active(r.rollOptions.keep) && !Active(r.rollOptions.drop)
    requires Wanted(r) == |draws| && r.raw == []
    ensures var r' := r.(raw := draws, kept := draws, total := Sum(draws));
      RunFrom([Roll(r)] + tail, draws, FoldState(0, None))
        == Shift([Roll(r')], |draws|, RunFrom(tail, [], FoldState(Sum(draws), None)))
  {
    var r' := r.(raw := draws, kept := draws, total := Sum(draws));
    RunPlainRoll(r, draws);
    assert Fold(FoldState(0, None), Roll(r')) == Some(FoldState(Sum(draws), None));
    RunFromFirst(Roll(r), tail, draws, Roll(r'), |draws|, FoldState(0, None), FoldState(Sum(draws), None));
    assert draws[|draws|..] == [];
  }

  /** A plain roll followed by an operator and a constant: the roll takes all the draws, then the operator applies. */
  lemma RunRollThenConstant(r: DiceRoll, o: DiceOperator, n: int, draws: seq<int>)
    requires r.valid && r.rollOptions.reroll == [] && !Active(r.rollOptions.keep) && !Active(r.rollOptions.drop)
    requires Wanted(r) == |draws| && r.raw == []
    ensures var r' := r.(raw := draws, kept := draws, total := Sum(draws));
      var tail := [Operator(o), Constant(DiceConstant(n, true))];
      RunFrom([Roll(r)] + tail, draws, FoldState(0, None))
        == Evaluated([Roll(r')] + tail, Apply(o, Sum(draws), n), |draws|)
  {
    var tail := [Operator(o), Constant(DiceConstant(n, true))];
    RollFirst(r, tail, draws);
    RunOperatorThenConstant(o, n, [], Sum(draws));
  }

  lemma DetailsOfThree(ops: seq<Operation>)
    requires |ops| == 3
    ensures Details(ops) == RenderOp(ops[0]) + RenderOp(ops[1]) + RenderOp(ops[2])
  {
    var p2 := ops[..2];
    var p1 := p2[..1];
    DetailsLast(ops);
    DetailsLast(p2);
    DetailsLast(p1);
    assert p1[..0] == [];
    assert p2[1] == ops[1] && p1[0] == ops[0];
    assert "" + RenderOp(ops[0]) == RenderOp(ops[0]);
  }

  lemma JoinFourFiveSix()
    ensures Join([4, 5, 6], "+") == "4+5+6"
  {
    Numerals();
    assert [4, 5, 6][1..] == [5, 6] && [5, 6][1..] == [6];
    assert Join([6], "+") == "6";
    assert Join([5, 6], "+") == "5" + "+" + "6";
  }

  lemma JoinRoll(count: string, faces: string, total: string, kept: string)
    requires count == "3" && faces == "6" && total == "15" && kept == "4+5+6"
    ensures "" + count + "d" + faces + "" + "(" + total + "=" + kept + ")" == "3d6(15=4+5+6)"
  {
  }

  /** `3d6` after the draws 4, 5, 6 renders as `3d6(15=4+5+6)`. */
  lemma RenderThreeDSix(r: DiceRoll)
    requires !r.niceTry && r.numberOfDice == Some(3) && r.numberOfFaces == Sides(6) && r.rollOptions.text == ""
    requires r.total == 15 && r.kept == [4, 5, 6]
    ensures RenderRoll(r) == "3d6(15=4+5+6)"
  {
    assert CountText(r.numberOfDice) == "3" && FacesText(r.numberOfFaces) == "6" && IntToString(r.total) == "15" by {
      Numerals();
    }
    assert Join(r.kept, "+") == "4+5+6" by {
      JoinFourFiveSix();
    }
    JoinRoll(CountText(r.numberOfDice), FacesText(r.numberOfFaces), IntToString(r.total), Join(r.kept, "+"));
  }

  lemma JoinDetails(a: string, b: string, c: string)
    requires a == "3d6(15=4+5+6)" && b == " + " && c == "2"
    ensures a + b + c == "3d6(15=4+5+6) + 2"
  {
  }

  /** The details of `3d6+2` after the draws 4, 5, 6. */
  lemma DetailsThreeDSixPlusTwo(r: DiceRoll)
    requires !r.niceTry && r.numberOfDice == Some(3) && r.numberOfFaces == Sides(6) && r.rollOptions.text == ""
    requires r.total == 15 && r.kept == [4, 5, 6]
    ensures Details([Roll(r)] + [Operator(Plus), Constant(DiceConstant(2, true))]) == "3d6(15=4+5+6) + 2"
  {
    var two := Constant(DiceConstant(2, true));
    var ops := [Roll(r)] + [Operator(Plus), two];
    assert |ops| == 3 && ops[0] == Roll(r) && ops[1] == Operator(Plus) && ops[2] == two;
    DetailsOfThree(ops);
    assert RenderOp(Roll(r)) == "3d6(15=4+5+6)" by {
      RenderThreeDSix(r);
    }
    assert RenderOp(Operator(Plus)) == " + " by {
      assert Operators.Render(Plus) == " " + "+" + " ";
    }
    assert RenderOp(two) == "2" by {
      Numerals();
    }
    JoinDetails(RenderOp(Roll(r)), RenderOp(Operator(Plus)), RenderOp(two));
  }

  lemma RenderSeventeen(e: DiceExpression)
    requires e.special == None && e.valid && e.labelText == None
    requires e.result == 17 && e.details == "3d6(15=4+5+6) + 2"
    ensures RenderExpression(e) == "17 rolls: 3d6(15=4+5+6) + 2"
  {
    assert RenderExpression(e) == IntToString(e.result) + " rolls: " + e.details;
    Numerals();
    JoinRendered(IntToString(e.result), " rolls: ", e.details);
  }

  lemma JoinRendered(a: string, b: string, c: string)
    requires a == "17" && b == " rolls: " && c == "3d6(15=4+5+6) + 2"
    ensures a + b + c == "17 rolls: 3d6(15=4+5+6) + 2"
  {
  }

  /** What the constructor builds once the pieces are known. */
  lemma ConstructEvaluated(specials: map<string, string>, expr: string, draws: seq<int>,
                           ops: seq<Operation>, labelText: Option<string>, done: seq<Operation>, v: int, u: nat)
    requires GetSpecial(specials, expr).None?
    requires TokenizeFrom(expr) == Tokenized(ops, labelText)
    requires Validate(ops)
    requires RunFrom(ops, draws, FoldState(0, None)) == Evaluated(done, v, u)
    ensures Construct(specials, expr, draws) == Constructed(DiceExpression(done, None, labelText, true, v, Details(done)), u)
  {
  }

  /** A valid roll, an operator and a constant form a valid expression. */
  lemma RollThenConstantValid(r: DiceRoll, o: DiceOperator, n: int)
    requires r.valid && IsValid(o)
    ensures Validate([Roll(r)] + [Operator(o), Constant(DiceConstant(n, true))])
  {
    var ops := [Roll(r)] + [Operator(o), Constant(DiceConstant(n, true))];
    assert ops[0].Roll? && ops[2].Constant?;
  }

  /** A roll of `3d6` as the tokenizer leaves it: valid, without modifiers and not yet executed. */
  predicate PlainThreeDSix(r: DiceRoll) {
    && r.valid && !r.niceTry && r.numberOfDice == Some(3) && r.numberOfFaces == Sides(6)
    && r.rollOptions == Initial() && r.raw == [] && Wanted(r) == 3
  }

  lemma TokensOfThreeDSixPlusTwo(expr: string)
    requires expr == "3d6+2"
    ensures var t := TokenizeFrom(expr);
      && t.labelText == None && |t.operations| == 3 && t.operations[0].Roll? && PlainThreeDSix(t.operations[0].roll)
      && t.operations == [t.operations[0], Operator(Plus), Constant(DiceConstant(2, true))]
  {
    TokenizeThreeDSixPlusTwo(expr);
    ThreeDSix();
    assert RollOf("3", "6", OptionsOf("")).raw == [];
  }

  /**
   * A command that tokenizes to a plain roll, an operator and a constant
   * builds a valid expression whose roll takes all the draws and whose
   * result is the operator applied to their sum and the constant.
   */
  lemma ConstructRollThenConstant(specials: map<string, string>, expr: string, draws: seq<int>,
                                  r: DiceRoll, o: DiceOperator, n: int)
    requires GetSpecial(specials, expr).None?
    requires TokenizeFrom(expr) == Tokenized([Roll(r)] + [Operator(o), Constant(DiceConstant(n, true))], None)
    requires r.valid && r.rollOptions.reroll == [] && !Active(r.rollOptions.keep) && !Active(r.rollOptions.drop)
    requires Wanted(r) == |draws| && r.raw == [] && IsValid(o)
    ensures var done := [Roll(r.(raw := draws, kept := draws, total := Sum(draws)))] + [Operator(o), Constant(DiceConstant(n, true))];
      Construct(specials, expr, draws)
        == Constructed(DiceExpression(done, None, None, true, Apply(o, Sum(draws), n), Details(done)), |draws|)
  {
    var done := [Roll(r.(raw := draws, kept := draws, total := Sum(draws)))] + [Operator(o), Constant(DiceConstant(n, true))];
    RollThenConstantValid(r, o, n);
    RunRollThenConstant(r, o, n, draws);
    ConstructEvaluated(specials, expr, draws, [Roll(r)] + [Operator(o), Constant(DiceConstant(n, true))], None,
      done, Apply(o, Sum(draws), n), |draws|);
  }

  /**
   * The command `3d6+2`, when it is not a special command, with draws 4, 5, 6:
   * result 17, details `3d6(15=4+5+6) + 2`.
   */
  lemma ThreeDSixPlusTwo(specials: map<string, string>, expr: string, draws: seq<int>)
    requires expr == "3d6+2" && expr !in specials && draws == [4, 5, 6]
    ensures var c := Construct(specials, expr, draws);
      && c.Constructed? && c.used == 3
      && c.expression.valid && c.expression.result == 17
      && c.expression.details == "3d6(15=4+5+6) + 2"
      && RenderExpression(c.expression) == "17 rolls: 3d6(15=4+5+6) + 2"
  {
    TokensOfThreeDSixPlusTwo(expr);
    var r := TokenizeFrom(expr).operations[0].roll;
    var tail := [Operator(Plus), Constant(DiceConstant(2, true))];
    assert TokenizeFrom(expr).operations == [Roll(r)] + tail;
    assert Sum(draws) == 15 by {
      assert Sum([4, 5, 6]) == 15;
    }
    ConstructRollThenConstant(specials, expr, draws, r, Plus, 2);
    var r' := r.(raw := draws, kept := draws, total := 15);
    DetailsThreeDSixPlusTwo(r');
    RenderSeventeen(DiceExpression([Roll(r')] + tail, None, None, true, 17, Details([Roll(r')] + tail)));
  }

  lemma MatchOneDSix(s: string)
    requires s == "1d6-10"
    ensures MatchDice(s) == Some(DiceMatch("", "1", "6", "", 3))
  {
    assert RunEnd(s, 0, Space) == 0;
    assert RunEnd(s, 0, Digit) == 1;
    assert RunEnd(s, 2, Digit) == 3;
    assert RunEnd(s, 3, ModifierChar) == 3;
    assert s[0..1] == "1" && s[2..3] == "6" && s[3..3] == "";
  }

  lemma ResidueMinusTen(rest: string)
    requires rest == "-10"
    ensures MatchDice(rest) == None
    ensures ConstantOps(rest) == [Operator(Minus), Constant(DiceConstant(10, true))]
    ensures FindLabel(rest, 0) == None
  {
    assert RunEnd(rest, 0, Space) == 0;
    assert RunEnd(rest, 1, Space) == 1;
    assert RunEnd(rest, 1, Digit) == 3;
    assert rest[0..1] == "-" && rest[1..3] == "10";
    assert ConstantAt(rest, 0) == Some(ConstantMatch("-", "10"));
    assert DigitsValue("10") == 10;
    assert FindLabel(rest, 2) == None;
    assert FindLabel(rest, 1) == None;
  }

  /** A single die without modifiers, not yet executed. */
  predicate PlainOneDie(r: DiceRoll) {
    r.valid && r.rollOptions == Initial() && r.raw == [] && Wanted(r) == 1
  }

  lemma SumOfOne(xs: seq<int>)
    requires |xs| == 1
    ensures Sum(xs) == xs[0]
  {
    assert xs[1..] == [];
  }

  lemma TokensOfOneDSixMinusTen(expr: string)
    requires expr == "1d6-10"
    ensures var t := TokenizeFrom(expr);
      && t.labelText == None && |t.operations| == 3 && t.operations[0].Roll? && PlainOneDie(t.operations[0].roll)
      && t.operations == [t.operations[0], Operator(Minus), Constant(DiceConstant(10, true))]
  {
    MatchOneDSix(expr);
    var rest := expr[3..];
    assert rest == "-10";
    ResidueMinusTen(rest);
    assert TokenizeFrom(rest) == Tokenized([Operator(Minus), Constant(DiceConstant(10, true))], None);
    NoOptions();
    assert DigitsValue("1") == 1 && DigitsValue("6") == 6;
    assert DiceOps(DiceMatch("", "1", "6", "", 3)) == [Roll(RollOf("1", "6", OptionsOf("")))];
  }

  /** A command that tokenizes to one plain die, `-` and 10, with the draw 3. */
  lemma OneDieMinusTen(specials: map<string, string>, expr: string, draws: seq<int>, r: DiceRoll)
    requires GetSpecial(specials, expr).None?
    requires TokenizeFrom(expr) == Tokenized([Roll(r)] + [Operator(Minus), Constant(DiceConstant(10, true))], None)
    requires PlainOneDie(r) && |draws| == 1 && draws[0] == 3
    ensures var c := Construct(specials, expr, draws);
      c.Constructed? && c.used == 1 && c.expression.valid && c.expression.result == 0
  {
    ConstructRollThenConstant(specials, expr, draws, r, Minus, 10);
    SumOfOne(draws);
  }

  /** The command `1d6-10`, when it is not a special command, with the draw 3: subtraction stops at 0. */
  lemma OneDSixMinusTen(specials: map<string, string>, expr: string, draws: seq<int>)
    requires expr == "1d6-10" && expr !in specials && |draws| == 1 && draws[0] == 3
    ensures var c := Construct(specials, expr, draws);
      c.Constructed? && c.used == 1 && c.expression.valid && c.expression.result == 0
  {
    TokensOfOneDSixMinusTen(expr);
    var ops := TokenizeFrom(expr).operations;
    assert ops == [Roll(ops[0].roll)] + [Operator(Minus), Constant(DiceConstant(10, true))];
    OneDieMinusTen(specials, expr, draws, ops[0].roll);
  }

  // ---------------------------------------------------------------------------
  // `+3`: a constant with no dice group

  lemma ResiduePlusThree(s: string)
    requires s == "+3"
    ensures MatchDice(s) == None
    ensures ConstantOps(s) == [Operator(Plus), Constant(DiceConstant(3, true))]
    ensures FindLabel(s, 0) == None
  {
    assert RunEnd(s, 0, Space) == 0;
    assert RunEnd(s, 1, Space) == 1;
    assert RunEnd(s, 1, Digit) == 2;
    assert s[0..1] == "+" && s[1..2] == "3";
    assert ConstantAt(s, 0) == Some(ConstantMatch("+", "3"));
    assert DigitsValue("3") == 3;
    assert FindLabel(s, 1) == None;
  }

  /**
   * The command `+3`, when it is not a special command: an operator and a
   * constant but no dice group, so validation fails, nothing is drawn and the
   * command renders as `invalid dice roll`.
   */
  lemma PlusThree(specials: map<string, string>, expr: string, draws: seq<int>)
    requires expr == "+3" && expr !in specials
    ensures var c := Construct(specials, expr, draws);
      && c == Constructed(DiceExpression([Operator(Plus), Constant(DiceConstant(3, true))], None, None, false, 0, ""), 0)
      && RenderExpression(c.expression) == "invalid dice roll"
  {
    ResiduePlusThree(expr);
    assert TokenizeFrom(expr) == Tokenized([Operator(Plus), Constant(DiceConstant(3, true))], None);
  }

  // ---------------------------------------------------------------------------
  // `1d6 for hit`: a roll with a label

  lemma MatchOneDSixLabelled(s: string)
    requires s == "1d6 for hit"
    ensures MatchDice(s) == Some(DiceMatch("", "1", "6", "", 3))
  {
    assert RunEnd(s, 0, Space) == 0;
    assert RunEnd(s, 0, Digit) == 1;
    assert RunEnd(s, 2, Digit) == 3;
    assert RunEnd(s, 3, ModifierChar) == 3;
    assert s[0..1] == "1" && s[2..3] == "6" && s[3..3] == "";
  }

  /** Text without a sign holds no constant, from any position on. */
  lemma {:induction false} NoConstantWithoutSign(s: string, p: nat)
    requires p <= |s|
    requires forall i | p <= i < |s| :: s[i] != '+' && s[i] != '-'
    ensures FindConstant(s, p) == None
    decreases |s| - p
  {
    if p < |s| {
      NoConstantWithoutSign(s, p + 1);
    }
  }

  lemma ResidueForHit(s: string)
    requires s == " for hit"
    ensures MatchDice(s) == None
    ensures ConstantOps(s) == []
    ensures FindLabel(s, 0) == Some("hit")
  {
    assert RunEnd(s, 0, Space) == 1;
    assert RunEnd(s, 1, Digit) == 1;
    NoConstantWithoutSign(s, 0);
    assert s[0..3] == " fo" && s[1..4] == "for";
    assert RunEnd(s, 4, Space) == 5;
    assert RunEnd(s, 5, NotLineTerminator) == 8;
    assert s[5..8] == "hit";
  }

  lemma TokensOfOneDSixForHit(expr: string)
    requires expr == "1d6 for hit"
    ensures var t := TokenizeFrom(expr);
      && t.labelText == Some("hit") && |t.operations| == 1 && t.operations[0].Roll?
      && PlainOneDie(t.operations[0].roll) && !t.operations[0].roll.niceTry
      && t.operations[0].roll.numberOfDice == Some(1) && t.operations[0].roll.numberOfFaces == Sides(6)
  {
    MatchOneDSixLabelled(expr);
    var rest := expr[3..];
    assert rest == " for hit";
    ResidueForHit(rest);
    assert TokenizeFrom(rest) == Tokenized([], Some("hit"));
    NoOptions();
    assert DigitsValue("1") == 1 && DigitsValue("6") == 6;
    assert DiceOps(DiceMatch("", "1", "6", "", 3)) == [Roll(RollOf("1", "6", OptionsOf("")))];
  }

  /** A lone plain roll takes all the draws; its total is the result. */
  lemma RunLoneRoll(r: DiceRoll, draws: seq<int>)
    requires r.valid && r.rollOptions.reroll == [] && !Active(r.rollOptions.keep) && !Active(r.rollOptions.drop)
    requires Wanted(r) == |draws| && r.raw == []
    ensures var r' := r.(raw := draws, kept := draws, total := Sum(draws));
      RunFrom([Roll(r)], draws, FoldState(0, None)) == Evaluated([Roll(r')], Sum(draws), |draws|)
  {
    RollFirst(r, [], draws);
    assert [Roll(r)] + [] == [Roll(r)];
    var r' := r.(raw := draws, kept := draws, total := Sum(draws));
    assert [Roll(r')] + [] == [Roll(r')];
  }

  /** `1d6` after the draw 4 renders as `1d6(4=4)`. */
  lemma RenderOneDSix(r: DiceRoll)
    requires !r.niceTry && r.numberOfDice == Some(1) && r.numberOfFaces == Sides(6) && r.rollOptions.text == ""
    requires r.total == 4 && r.kept == [4]
    ensures Details([Roll(r)]) == "1d6(4=4)"
  {
    Numerals();
    assert Join(r.kept, "+") == "4";
    DetailsLast([Roll(r)]);
    assert [Roll(r)][..0] == [];
    JoinLoneRoll(CountText(r.numberOfDice), FacesText(r.numberOfFaces), IntToString(r.total), Join(r.kept, "+"));
  }

  lemma JoinLoneRoll(count: string, faces: string, total: string, kept: string)
    requires count == "1" && faces == "6" && total == "4" && kept == "4"
    ensures "" + ("" + count + "d" + faces + "" + "(" + total + "=" + kept + ")") == "1d6(4=4)"
  {
  }

  lemma RenderHit(e: DiceExpression)
    requires e.special == None && e.valid && e.labelText == Some("hit")
    requires e.result == 4 && e.details == "1d6(4=4)"
    ensures RenderExpression(e) == "hit: 4 rolls: 1d6(4=4)"
  {
    Numerals();
    JoinLabelled(LabelPrefix(e.labelText), IntToString(e.result), e.details);
  }

  lemma JoinLabelled(prefix: string, result: string, details: string)
    requires prefix == "hit: " && result == "4" && details == "1d6(4=4)"
    ensures prefix + result + " rolls: " + details == "hit: 4 rolls: 1d6(4=4)"
  {
  }

  /**
   * The command `1d6 for hit`, when it is not a special command, with the
   * draw 4: the label is `hit`, the result 4, and the text
   * `hit: 4 rolls: 1d6(4=4)`.
   */
  lemma OneDSixForHit(specials: map<string, string>, expr: string, draws: seq<int>)
    requires expr == "1d6 for hit" && expr !in specials && draws == [4]
    ensures var c := Construct(specials, expr, draws);
      && c.Constructed? && c.used == 1
      && c.expression.valid && c.expression.labelText == Some("hit") && c.expression.result == 4
      && RenderExpression(c.expression) == "hit: 4 rolls: 1d6(4=4)"
  {
    TokensOfOneDSixForHit(expr);
    var r := TokenizeFrom(expr).operations[0].roll;
    assert TokenizeFrom(expr).operations == [Roll(r)];
    SumOfOne(draws);
    RunLoneRoll(r, draws);
    var r' := r.(raw := draws, kept := draws, total := 4);
    assert Validate([Roll(r)]);
    ConstructEvaluated(specials, expr, draws, [Roll(r)], Some("hit"), [Roll(r')], 4, 1);
    RenderOneDSix(r');
    RenderHit(DiceExpression([Roll(r')], None, Some("hit"), true, 4, Details([Roll(r')])));
  }
}
