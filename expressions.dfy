/**
 * DiceExpression: a whole command such as `3d6+2 for damage`. The text is
 * split into operations (operators, constants and dice groups), checked for
 * shape, evaluated left to right with a one-slot pending operator, and
 * rendered. A special command (`help`, ...) short-circuits all of it.
 */
module Expressions {
  import opened Wrappers
  import opened Text
  import opened Operators
  import opened Constants
  import opened Options
  import opened Rolls

  datatype Operation = Operator(op: DiceOperator) | Constant(constant: DiceConstant) | Roll(roll: DiceRoll)

  predicate OpValid(x: Operation) {
    match x
    case Operator(o) => IsValid(o)
    case Constant(c) => c.valid
    case Roll(r) => r.valid
  }

  /** results.total of an operand. */
  function OpTotal(x: Operation): int
    requires !x.Operator?
  {
    if x.Constant? then x.constant.total else x.roll.total
  }

  /** toString of one operation. */
  function RenderOp(x: Operation): string {
    match x
    case Operator(o) => Operators.Render(o)
    case Constant(c) => Constants.Render(c)
    case Roll(r) => RenderRoll(r)
  }

  // ---------------------------------------------------------------------------
  // validate()

  function HasRoll(ops: seq<Operation>): (b: bool)
    ensures b <==> exists i | 0 <= i < |ops| :: ops[i].Roll?
    decreases |ops|
  {
    if ops == [] then false
    else
      assert forall i | 0 <= i < |ops| - 1 :: ops[1..][i] == ops[i + 1];
      ops[0].Roll? || HasRoll(ops[1..])
  }

  function AllValid(ops: seq<Operation>): (b: bool)
    ensures b <==> forall i | 0 <= i < |ops| :: OpValid(ops[i])
    decreases |ops|
  {
    if ops == [] then true
    else
      assert forall i | 0 <= i < |ops| - 1 :: ops[1..][i] == ops[i + 1];
      OpValid(ops[0]) && AllValid(ops[1..])
  }

  /**
   * validate(): the operations are non-empty, include a dice group, are each
   * valid, and neither start nor end with an operator.
   */
  function Validate(ops: seq<Operation>): (v: bool)
    ensures v <==>
      && ops != []
      && (exists i | 0 <= i < |ops| :: ops[i].Roll?)
      && (forall i | 0 <= i < |ops| :: OpValid(ops[i]))
      && !ops[0].Operator? && !ops[|ops| - 1].Operator?
  {
    if ops == [] then false
    else
      var hasRolls := HasRoll(ops);
      var operationsValid := AllValid(ops);
      var validStart := hasRolls && !ops[0].Operator?;
      var validEnd := hasRolls && !ops[|ops| - 1].Operator?;
      hasRolls && operationsValid && validStart && validEnd
  }

  // ---------------------------------------------------------------------------
  // The dice-group pattern /^\s*([+-])?\s*(\d*)d(\d+|f)([^\s+-]*)/i

  datatype DiceMatch = DiceMatch(sign: string, numDice: string, numFaces: string, options: string, length: nat)

  /**
   * The anchored match, if any. Each part is greedy and no later part can
   * succeed by giving characters back, so the first attempt decides.
   */
  function MatchDice(s: string): (m: Option<DiceMatch>)
    ensures m.Some? ==> 2 <= m.value.length <= |s|
    ensures m.Some? ==> m.value.sign in {"", "+", "-"} && AllDigits(m.value.numDice)
    ensures m.Some? ==> m.value.numFaces in {"f", "F"} || (m.value.numFaces != [] && AllDigits(m.value.numFaces))
  {
    var a := RunEnd(s, 0, Space);
    var hasSign := a < |s| && (s[a] == '+' || s[a] == '-');
    var b := if hasSign then a + 1 else a;
    var c := RunEnd(s, b, Space);
    var d := RunEnd(s, c, Digit);
    var sign := if hasSign then s[a..a + 1] else "";
    assert hasSign ==> sign == [s[a]];
    DigitsSlice(s, c, d);
    if d < |s| && (s[d] == 'd' || s[d] == 'D') then
      var e := d + 1;
      var f := RunEnd(s, e, Digit);
      if f > e then
        var g := RunEnd(s, f, ModifierChar);
        DigitsSlice(s, e, f);
        Some(DiceMatch(sign, s[c..d], s[e..f], s[f..g], g))
      else if e < |s| && (s[e] == 'f' || s[e] == 'F') then
        var g := RunEnd(s, e + 1, ModifierChar);
        var faces := if s[e] == 'f' then "f" else "F";
        Some(DiceMatch(sign, s[c..d], faces, s[e + 1..g], g))
      else None
    else None
  }

  /** The operations one dice-group match pushes: its sign, when present, then the roll. */
  function DiceOps(m: DiceMatch): seq<Operation> {
    (if m.sign != "" then [Operator(DiceOperator(m.sign))] else [])
    + [Roll(RollOf(m.numDice, m.numFaces, OptionsOf(m.options)))]
  }

  // ---------------------------------------------------------------------------
  // The constant pattern /\s*([+-])\s*([0-9]+)/, unanchored

  datatype ConstantMatch = ConstantMatch(sign: string, digits: string)

  function ConstantAt(s: string, p: nat): (m: Option<ConstantMatch>)
    requires p <= |s|
    ensures m.Some? ==> m.value.sign in {"+", "-"} && m.value.digits != [] && AllDigits(m.value.digits)
  {
    if p < |s| && (s[p] == '+' || s[p] == '-') then
      var w := RunEnd(s, p + 1, Space);
      if w < |s| && IsDigit(s[w]) then
        assert s[p..p + 1] == [s[p]];
        DigitsSlice(s, w, RunEnd(s, w, Digit));
        Some(ConstantMatch(s[p..p + 1], s[w..RunEnd(s, w, Digit)]))
      else None
    else None
  }

  /**
   * The leftmost match at or after p. The leftmost start of the pattern (which
   * may sit on leading blanks) always belongs to the leftmost sign that is
   * followed by blanks and a digit, so searching signs gives the same groups.
   */
  function FindConstant(s: string, p: nat): (m: Option<ConstantMatch>)
    requires p <= |s|
    ensures m.Some? ==> m.value.sign in {"+", "-"} && m.value.digits != [] && AllDigits(m.value.digits)
    decreases |s| - p
  {
    if p == |s| then None
    else if ConstantAt(s, p).Some? then ConstantAt(s, p)
    else FindConstant(s, p + 1)
  }

  /** The operations the residue step pushes: an operator and a constant, or nothing. */
  function ConstantOps(s: string): seq<Operation> {
    match FindConstant(s, 0)
    case None => []
    case Some(m) => [Operator(DiceOperator(m.sign)), Constant(NewConstant(m.digits))]
  }

  // ---------------------------------------------------------------------------
  // The label pattern /for\s+(.*)/

  /** `for`, at least one blank, then (after all the blanks) everything up to the end of the line. */
  function LabelAt(s: string, p: nat): Option<string>
    requires p <= |s|
  {
    if p + 3 < |s| && s[p..p + 3] == "for" && IsSpace(s[p + 3]) then
      var q := RunEnd(s, p + 3, Space);
      Some(s[q..RunEnd(s, q, NotLineTerminator)])
    else None
  }

  function FindLabel(s: string, p: nat): (l: Option<string>)
    requires p <= |s|
    ensures l.Some? ==> forall i | 0 <= i < |l.value| :: !IsLineTerminator(l.value[i])
    decreases |s| - p
  {
    if p == |s| then None
    else if LabelAt(s, p).Some? then LabelAt(s, p)
    else FindLabel(s, p + 1)
  }

  // ---------------------------------------------------------------------------
  // The tokenizer loop

  datatype Tokenized = Tokenized(operations: seq<Operation>, labelText: Option<string>)

  /**
   * What the `while (srcString)` loop produces from the remaining text: one
   * dice group per pass; the first pass that matches none looks once for a
   * constant and a label in the remainder and ends the loop.
   */
  function TokenizeFrom(s: string): Tokenized
    decreases |s|
  {
    if s == "" then Tokenized([], None)
    else match MatchDice(s)
      case Some(m) =>
        var rest := TokenizeFrom(s[m.length..]);
        Tokenized(DiceOps(m) + rest.operations, rest.labelText)
      case None =>
        Tokenized(ConstantOps(s), FindLabel(s, 0))
  }

  /** What the tokenizer loop keeps: the operations so far, then those of the unscanned text, are those of the whole. */
  ghost predicate TokenizeInvariant(expr: string, operations: seq<Operation>, labelText: Option<string>, src: string) {
    && TokenizeFrom(expr) ==
      Tokenized(operations + TokenizeFrom(src).operations, if src == "" then labelText else TokenizeFrom(src).labelText)
    && (src != "" ==> labelText == None)
  }

  /** The tokenizer loop of the DiceExpression constructor. */
  method Tokenize(expr: string) returns (operations: seq<Operation>, labelText: Option<string>)
    ensures Tokenized(operations, labelText) == TokenizeFrom(expr)
  {
    operations := [];
    labelText := None;
    var srcString := expr;
    TokenizeStart(expr);
    while srcString != ""
      invariant TokenizeInvariant(expr, operations, labelText, srcString)
      decreases |srcString|
    {
      operations, labelText, srcString := TokenizePass(expr, operations, labelText, srcString);
    }
    TokenizeEnd(expr, operations, labelText);
  }

  lemma TokenizeStart(expr: string)
    ensures TokenizeInvariant(expr, [], None, expr)
  {
    assert [] + TokenizeFrom(expr).operations == TokenizeFrom(expr).operations;
  }

  lemma TokenizeEnd(expr: string, operations: seq<Operation>, labelText: Option<string>)
    requires TokenizeInvariant(expr, operations, labelText, "")
    ensures Tokenized(operations, labelText) == TokenizeFrom(expr)
  {
    assert TokenizeFrom("") == Tokenized([], None);
    assert operations + [] == operations;
  }

  /**
   * One pass of the tokenizer loop: a dice group at the front is pushed and
   * cut off; otherwise the constant and the label are looked for in what is
   * left, and the loop ends.
   */
  method TokenizePass(ghost expr: string, operations: seq<Operation>, labelText: Option<string>, srcString: string)
    returns (operations': seq<Operation>, labelText': Option<string>, srcString': string)
    requires srcString != "" && TokenizeInvariant(expr, operations, labelText, srcString)
    ensures TokenizeInvariant(expr, operations', labelText', srcString') && |srcString'| < |srcString|
  {
    var found := MatchDice(srcString);
    if found.Some? {
      var m := found.value;
      var pushed := PushDiceGroup(m);
      TokenizeDiceStep(expr, operations, labelText, srcString);
      operations' := operations + pushed;
      labelText' := labelText;
      srcString' := if |srcString| > m.length then srcString[m.length..] else "";
    } else {
      var pushed, labelMatch := ScanResidue(srcString);
      TokenizeResidueStep(expr, operations, labelText, srcString);
      operations' := operations + pushed;
      labelText' := labelText;
      if labelMatch.Some? {
        labelText' := labelMatch;
      }
      srcString' := "";
    }
  }

  /** A dice-group match pushes a DiceOperator for its sign, when it has one, then a new DiceRoll. */
  method PushDiceGroup(m: DiceMatch) returns (pushed: seq<Operation>)
    ensures pushed == DiceOps(m)
  {
    pushed := [];
    if m.sign != "" {
      pushed := pushed + [Operator(DiceOperator(m.sign))];
    }
    var roll := NewRoll(m.numDice, m.numFaces, m.options);
    pushed := pushed + [Roll(roll)];
  }

  /** The residue step: the constant pattern, then the label pattern, each searched once. */
  method ScanResidue(src: string) returns (pushed: seq<Operation>, labelMatch: Option<string>)
    ensures pushed == ConstantOps(src) && labelMatch == FindLabel(src, 0)
  {
    pushed := [];
    var constant := FindConstant(src, 0);
    if constant.Some? {
      var c := constant.value;
      pushed := [Operator(DiceOperator(c.sign)), Constant(NewConstant(c.digits))];
    }
    labelMatch := FindLabel(src, 0);
  }

  /** A dice group at the front of the unscanned text moves its operations into the scanned part. */
  lemma TokenizeDiceStep(expr: string, operations: seq<Operation>, labelText: Option<string>, s: string)
    requires TokenizeInvariant(expr, operations, labelText, s)
    requires s != "" && MatchDice(s).Some?
    ensures var m := MatchDice(s).value;
      TokenizeInvariant(expr, operations + DiceOps(m), labelText, if |s| > m.length then s[m.length..] else "")
  {
    var m := MatchDice(s).value;
    var rest := TokenizeFrom(s[m.length..]);
    assert TokenizeFrom(s) == Tokenized(DiceOps(m) + rest.operations, rest.labelText);
    assert operations + (DiceOps(m) + rest.operations) == operations + DiceOps(m) + rest.operations;
    if |s| == m.length {
      assert s[m.length..] == "";
    }
  }

  /** Text with no dice group at its front is scanned once for a constant and a label, ending the loop. */
  lemma TokenizeResidueStep(expr: string, operations: seq<Operation>, labelText: Option<string>, s: string)
    requires TokenizeInvariant(expr, operations, labelText, s)
    requires s != "" && MatchDice(s).None?
    ensures TokenizeFrom(expr) == Tokenized(operations + ConstantOps(s), FindLabel(s, 0))
    ensures labelText == None
  {
  }

  /** Every operator is directly followed by an operand. */
  predicate OperatorsFollowed(ops: seq<Operation>) {
    forall i | 0 <= i < |ops| && ops[i].Operator? :: i + 1 < |ops| && !ops[i + 1].Operator?
  }

  lemma OperatorsFollowedAppend(a: seq<Operation>, b: seq<Operation>)
    requires OperatorsFollowed(a) && OperatorsFollowed(b)
    ensures OperatorsFollowed(a + b)
  {
    var ab := a + b;
    forall i | 0 <= i < |ab| && ab[i].Operator?
      ensures i + 1 < |ab| && !ab[i + 1].Operator?
    {
      if i < |a| {
        assert a[i].Operator?;
      } else {
        assert b[i - |a|].Operator?;
      }
    }
  }

  /** A constant can only be the last operation. */
  predicate ConstantLast(ops: seq<Operation>) {
    forall i | 0 <= i < |ops| && ops[i].Constant? :: i == |ops| - 1
  }

  lemma ConstantLastAppend(a: seq<Operation>, b: seq<Operation>)
    requires forall i | 0 <= i < |a| :: !a[i].Constant?
    requires ConstantLast(b)
    ensures ConstantLast(a + b)
  {
    var ab := a + b;
    forall i | 0 <= i < |ab| && ab[i].Constant?
      ensures i == |ab| - 1
    {
      if i < |a| {
        assert false;
      } else {
        assert b[i - |a|].Constant?;
      }
    }
  }

  lemma DiceOpsShape(m: DiceMatch)
    ensures OperatorsFollowed(DiceOps(m))
    ensures forall i | 0 <= i < |DiceOps(m)| :: !DiceOps(m)[i].Constant?
  {
  }

  lemma ConstantOpsShape(s: string)
    ensures OperatorsFollowed(ConstantOps(s)) && ConstantLast(ConstantOps(s))
  {
  }

  /**
   * The tokenizer pushes every operator together with the operand after it, so
   * no two operators are adjacent and the last operation is never an operator;
   * a constant can only be the very last operation (the residue is searched once).
   */
  lemma {:induction false} TokenizedShape(s: string)
    ensures OperatorsFollowed(TokenizeFrom(s).operations)
    ensures ConstantLast(TokenizeFrom(s).operations)
    decreases |s|
  {
    if s != "" {
      match MatchDice(s)
      case Some(m) =>
        var rest := TokenizeFrom(s[m.length..]).operations;
        TokenizedShape(s[m.length..]);
        assert TokenizeFrom(s).operations == DiceOps(m) + rest;
        DiceOpsShape(m);
        OperatorsFollowedAppend(DiceOps(m), rest);
        ConstantLastAppend(DiceOps(m), rest);
      case None =>
        ConstantOpsShape(s);
    }
  }

  /** A remainder without `+` or `-` adds no constant: a constant needs an explicit sign. */
  lemma {:induction false} ConstantNeedsSign(s: string, p: nat)
    requires p <= |s|
    requires forall i | 0 <= i < |s| :: s[i] != '+' && s[i] != '-'
    ensures FindConstant(s, p) == None
    decreases |s| - p
  {
    if p < |s| {
      ConstantNeedsSign(s, p + 1);
    }
  }

  // ---------------------------------------------------------------------------
  // execute()

  /** The running total and the pending operator slot. */
  datatype FoldState = FoldState(total: int, pending: Option<DiceOperator>)

  /**
   * One pass of the fold: an operator fills the empty slot (a full slot
   * throws, None here); an operand combines with the pending operator and
   * clears the slot, or with no operator pending replaces the total.
   */
  function Fold(s: FoldState, x: Operation): Option<FoldState> {
    if x.Operator? then
      if s.pending.None? then Some(FoldState(s.total, Some(x.op))) else None
    else if s.pending.Some? then Some(FoldState(Apply(s.pending.value, s.total, OpTotal(x)), None))
    else Some(FoldState(OpTotal(x), None))
  }

  function FoldAll(ops: seq<Operation>, s: FoldState): Option<FoldState>
    decreases |ops|
  {
    if ops == [] then Some(s)
    else match Fold(s, ops[0])
      case None => None
      case Some(s') => FoldAll(ops[1..], s')
  }

  /** operation.execute() on a dice group; other operations are left as they are. */
  function Run(x: Operation, draws: seq<int>): (d: Drawn<Operation>)
    ensures d.Drawn? ==> d.used <= |draws| && d.value.Operator? == x.Operator? && d.value.Roll? == x.Roll?
    ensures d.Drawn? && !x.Roll? ==> d.value == x && d.used == 0
  {
    if x.Roll? then
      match ExecutedRoll(x.roll, draws)
      case Exhausted => Exhausted
      case Drawn(r, k) => Drawn(Roll(r), k)
    else Drawn(x, 0)
  }

  datatype Evaluation = Evaluated(operations: seq<Operation>, result: int, used: nat) | OutOfDraws | PreexistingOperator

  /** Puts already executed operations and their draws in front of an evaluation of the rest. */
  function Shift(done: seq<Operation>, used: nat, e: Evaluation): Evaluation {
    match e
    case Evaluated(rest, result, k) => Evaluated(done + rest, result, used + k)
    case _ => e
  }

  /** The loop of execute(), from some state on: each operation is executed, then folded in. */
  function RunFrom(ops: seq<Operation>, draws: seq<int>, s: FoldState): Evaluation
    decreases |ops|
  {
    if ops == [] then Evaluated([], s.total, 0)
    else match Run(ops[0], draws)
      case Exhausted => OutOfDraws
      case Drawn(x, k) =>
        match Fold(s, x)
        case None => PreexistingOperator
        case Some(s') => Shift([x], k, RunFrom(ops[1..], draws[k..], s'))
  }

  /** execute(): the `for (opIndex in operations)` loop with currentTotal and operatorBuffer. */
  method Execute(ops: seq<Operation>, draws: seq<int>) returns (e: Evaluation)
    ensures e == RunFrom(ops, draws, FoldState(0, None))
  {
    var currentTotal := 0;
    var operatorBuffer: Option<DiceOperator> := None;
    var executed: seq<Operation> := [];
    var used: nat := 0;
    for opIndex := 0 to |ops|
      invariant used <= |draws|
      invariant RunFrom(ops, draws, FoldState(0, None))
        == Shift(executed, used, RunFrom(ops[opIndex..], draws[used..], FoldState(currentTotal, operatorBuffer)))
    {
      ghost var before := FoldState(currentTotal, operatorBuffer);
      var d := ExecuteOperation(ops[opIndex], draws[used..]);
      if d.Exhausted? {
        RunFromStops(ops, opIndex, draws, used, before);
        return OutOfDraws;
      }
      var next := Combine(currentTotal, operatorBuffer, d.value);
      if next.None? {
        RunFromStops(ops, opIndex, draws, used, before);
        return PreexistingOperator;
      }
      ExecuteStep(ops, opIndex, draws, executed, used, before, d, next.value);
      executed := executed + [d.value];
      used := used + d.used;
      currentTotal := next.value.total;
      operatorBuffer := next.value.pending;
      assert next.value == FoldState(currentTotal, operatorBuffer);
      assert RunFrom(ops, draws, FoldState(0, None))
        == Shift(executed, used, RunFrom(ops[opIndex + 1..], draws[used..], FoldState(currentTotal, operatorBuffer)));
    }
    assert ops[|ops|..] == [];
    e := Evaluated(executed, currentTotal, used);
  }

  /** operation.execute(): a dice group rolls; operators and constants are left as they are. */
  method ExecuteOperation(x: Operation, draws: seq<int>) returns (d: Drawn<Operation>)
    ensures d == Run(x, draws)
  {
    d := Drawn(x, 0);
    if x.Roll? {
      var executed := ExecuteRoll(x.roll, draws);
      if executed.Exhausted? {
        d := Exhausted;
      } else {
        d := Drawn(Roll(executed.value), executed.used);
      }
    }
  }

  /**
   * The body of execute()'s loop after the operation has run: an operator
   * fills the empty buffer (a full one throws, None here); an operand
   * combines with the buffered operator and clears it, or replaces the total.
   */
  method Combine(currentTotal: int, operatorBuffer: Option<DiceOperator>, operation: Operation) returns (next: Option<FoldState>)
    ensures next == Fold(FoldState(currentTotal, operatorBuffer), operation)
  {
    if operation.Operator? {
      if operatorBuffer.None? {
        next := Some(FoldState(currentTotal, Some(operation.op)));
      } else {
        next := None;
      }
    } else if operatorBuffer.Some? {
      next := Some(FoldState(Apply(operatorBuffer.value, currentTotal, OpTotal(operation)), None));
    } else {
      next := Some(FoldState(OpTotal(operation), None));
    }
  }

  /** A pass of the loop that runs out of draws or finds an operator already pending ends the run there. */
  lemma RunFromStops(ops: seq<Operation>, i: nat, draws: seq<int>, used: nat, s: FoldState)
    requires i < |ops| && used <= |draws|
    ensures Run(ops[i], draws[used..]).Exhausted? ==> RunFrom(ops[i..], draws[used..], s) == OutOfDraws
    ensures Run(ops[i], draws[used..]).Drawn? && Fold(s, Run(ops[i], draws[used..]).value).None? ==>
      RunFrom(ops[i..], draws[used..], s) == PreexistingOperator
  {
    assert ops[i..][0] == ops[i];
  }

  /** One pass of the loop keeps the loop invariant of Execute. */
  lemma ExecuteStep(ops: seq<Operation>, i: nat, draws: seq<int>, executed: seq<Operation>, used: nat,
                    s: FoldState, d: Drawn<Operation>, s': FoldState)
    requires i < |ops| && used <= |draws|
    requires RunFrom(ops, draws, FoldState(0, None)) == Shift(executed, used, RunFrom(ops[i..], draws[used..], s))
    requires d == Run(ops[i], draws[used..]) && d.Drawn?
    requires Fold(s, d.value) == Some(s')
    ensures used + d.used <= |draws|
    ensures RunFrom(ops, draws, FoldState(0, None))
      == Shift(executed + [d.value], used + d.used, RunFrom(ops[i + 1..], draws[used + d.used..], s'))
  {
    RunFromStep(ops, i, draws, used, d.used, d.value, s, s');
    ShiftShift(executed, used, [d.value], d.used, RunFrom(ops[i + 1..], draws[used + d.used..], s'));
  }

  /** One pass of the loop, as RunFrom sees it. */
  lemma RunFromStep(ops: seq<Operation>, i: nat, draws: seq<int>, used: nat, k: nat, x: Operation,
                    s: FoldState, s': FoldState)
    requires i < |ops| && used <= |draws|
    requires Run(ops[i], draws[used..]) == Drawn(x, k)
    requires Fold(s, x) == Some(s')
    ensures used + k <= |draws|
    ensures RunFrom(ops[i..], draws[used..], s) == Shift([x], k, RunFrom(ops[i + 1..], draws[used + k..], s'))
  {
    assert ops[i..][0] == ops[i] && ops[i..][1..] == ops[i + 1..];
    assert draws[used..][k..] == draws[used + k..];
  }

  lemma ShiftShift(a: seq<Operation>, u: nat, b: seq<Operation>, k: nat, e: Evaluation)
    ensures Shift(a, u, Shift(b, k, e)) == Shift(a + b, u + k, e)
  {
    if e.Evaluated? {
      assert a + (b + e.operations) == a + b + e.operations;
    }
  }

  /** Operands may follow operands; shapes where operators are followed by operands are well formed. */
  predicate WellShaped(ops: seq<Operation>) {
    ops != [] && !ops[0].Operator? && OperatorsFollowed(ops)
  }

  /**
   * An independent reading of the result, from the right: the last operand,
   * combined with the value of everything before its operator when an operator
   * precedes it; an operand right after another simply takes its place.
   */
  function Value(ops: seq<Operation>): int
    requires WellShaped(ops)
    decreases |ops|
  {
    var n := |ops|;
    assert !ops[n - 1].Operator?;
    if n >= 2 && ops[n - 2].Operator? then
      var front := ops[..n - 2];
      assert OperatorsFollowed(front) by {
        forall i | 0 <= i < |front| && front[i].Operator?
          ensures i + 1 < |front| && !front[i + 1].Operator?
        {
          assert ops[i].Operator?;
        }
      }
      Apply(ops[n - 2].op, Value(front), OpTotal(ops[n - 1]))
    else
      OpTotal(ops[n - 1])
  }

  lemma {:induction false} FoldAllAppend(xs: seq<Operation>, ys: seq<Operation>, s: FoldState)
    ensures FoldAll(xs + ys, s) ==
      match FoldAll(xs, s)
      case None => None
      case Some(s') => FoldAll(ys, s')
    decreases |xs|
  {
    if xs == [] {
      assert xs + ys == ys;
    } else {
      assert (xs + ys)[0] == xs[0] && (xs + ys)[1..] == xs[1..] + ys;
      match Fold(s, xs[0])
      case None =>
      case Some(s') => FoldAllAppend(xs[1..], ys, s');
    }
  }

  /** From a fresh state, the fold of well-shaped operations ends with no operator pending and total Value. */
  lemma {:induction false} FoldValue(ops: seq<Operation>)
    requires WellShaped(ops)
    ensures FoldAll(ops, FoldState(0, None)) == Some(FoldState(Value(ops), None))
    decreases |ops|
  {
    var n := |ops|;
    var start := FoldState(0, None);
    assert !ops[n - 1].Operator?;
    if n == 1 {
      assert ops[1..] == [];
    } else if ops[n - 2].Operator? {
      var front := ops[..n - 2];
      assert OperatorsFollowed(front) by {
        forall i | 0 <= i < |front| && front[i].Operator?
          ensures i + 1 < |front| && !front[i + 1].Operator?
        {
          assert ops[i].Operator?;
        }
      }
      FoldValue(front);
      assert ops == front + [ops[n - 2], ops[n - 1]];
      FoldAllAppend(front, [ops[n - 2], ops[n - 1]], start);
      var mid := FoldState(Value(front), Some(ops[n - 2].op));
      var last := FoldState(Apply(ops[n - 2].op, Value(front), OpTotal(ops[n - 1])), None);
      assert Fold(FoldState(Value(front), None), ops[n - 2]) == Some(mid);
      assert [ops[n - 2], ops[n - 1]][1..] == [ops[n - 1]];
      assert [ops[n - 1]][1..] == [];
      assert FoldAll([ops[n - 1]], mid) == Some(last);
      assert FoldAll([ops[n - 2], ops[n - 1]], FoldState(Value(front), None)) == Some(last);
      assert Value(ops) == Apply(ops[n - 2].op, Value(front), OpTotal(ops[n - 1]));
    } else {
      var front := ops[..n - 1];
      assert OperatorsFollowed(front) by {
        forall i | 0 <= i < |front| && front[i].Operator?
          ensures i + 1 < |front| && !front[i + 1].Operator?
        {
          assert ops[i].Operator?;
        }
      }
      FoldValue(front);
      assert ops == front + [ops[n - 1]];
      FoldAllAppend(front, [ops[n - 1]], start);
      assert [ops[n - 1]][1..] == [];
      assert Value(ops) == OpTotal(ops[n - 1]);
    }
  }

  predicate SameKind(x: Operation, y: Operation) {
    x.Operator? == y.Operator? && x.Roll? == y.Roll?
  }

  /**
   * A finished run returns the operations with their dice groups executed (in
   * place, same kinds in the same order) and the total the fold of those
   * executed operations reaches.
   */
  lemma {:induction false} RunFromFold(ops: seq<Operation>, draws: seq<int>, s: FoldState)
    requires RunFrom(ops, draws, s).Evaluated?
    ensures var e := RunFrom(ops, draws, s);
      && |e.operations| == |ops|
      && (forall i | 0 <= i < |ops| :: SameKind(e.operations[i], ops[i]))
      && (forall i | 0 <= i < |ops| && !ops[i].Roll? :: e.operations[i] == ops[i])
      && FoldAll(e.operations, s).Some? && FoldAll(e.operations, s).value.total == e.result
      && e.used <= |draws|
    decreases |ops|
  {
    if ops != [] {
      var d := Run(ops[0], draws);
      var x, k := d.value, d.used;
      var s' := Fold(s, x).value;
      RunFromFold(ops[1..], draws[k..], s');
      var rest := RunFrom(ops[1..], draws[k..], s');
      var done := [x] + rest.operations;
      assert done[1..] == rest.operations;
      forall i | 0 <= i < |ops|
        ensures SameKind(done[i], ops[i])
        ensures !ops[i].Roll? ==> done[i] == ops[i]
      {
        if i > 0 {
          assert done[i] == rest.operations[i - 1] && ops[i] == ops[1..][i - 1];
        }
      }
    }
  }

  /** An executor of single operations that never takes more draws than it is given, as Run is. */
  type Executor = run: (Operation, seq<int>) -> Drawn<Operation> | forall x, d :: run(x, d).Drawn? ==> run(x, d).used <= |d|
    witness (x: Operation, d: seq<int>) => Exhausted

  /** Run, as an executor. */
  const RunExecutor: Executor := Run

  /** How many draws the operations take when run executes them one after another from the start of draws. */
  function DrawsOf(run: Executor, ops: seq<Operation>, draws: seq<int>): (u: nat)
    ensures u <= |draws|
    decreases |ops|
  {
    if ops == [] then 0
    else match run(ops[0], draws)
      case Exhausted => 0
      case Drawn(_, k) => k + DrawsOf(run, ops[1..], draws[k..])
  }

  /** What run makes of operation i when the operations in front of it are executed first, in order. */
  function Slot(run: Executor, ops: seq<Operation>, draws: seq<int>, i: nat): Drawn<Operation>
    requires i < |ops|
    decreases i
  {
    match run(ops[0], draws)
    case Exhausted => Exhausted
    case Drawn(x, k) => if i == 0 then Drawn(x, k) else Slot(run, ops[1..], draws[k..], i - 1)
  }

  /** Operation i is executed on the draws that the operations in front of it leave over. */
  lemma {:induction false} SlotIsRun(run: Executor, ops: seq<Operation>, draws: seq<int>, i: nat)
    requires i < |ops| && Slot(run, ops, draws, i).Drawn?
    ensures Slot(run, ops, draws, i) == run(ops[i], draws[DrawsOf(run, ops[..i], draws)..])
    decreases i
  {
    if i == 0 {
      assert ops[..0] == [];
      assert draws[0..] == draws;
    } else {
      var k := run(ops[0], draws).used;
      SlotIsRun(run, ops[1..], draws[k..], i - 1);
      assert ops[..i][0] == ops[0] && ops[..i][1..] == ops[1..][..i - 1];
      assert draws[k..][DrawsOf(run, ops[1..][..i - 1], draws[k..])..] == draws[DrawsOf(run, ops[..i], draws)..];
      assert ops[i] == ops[1..][i - 1];
    }
  }

  /** A finished run executes each operation in order, each on the draws the ones in front of it left over. */
  lemma {:induction false} RunFromSlots(ops: seq<Operation>, draws: seq<int>, s: FoldState)
    requires RunFrom(ops, draws, s).Evaluated?
    ensures var e := RunFrom(ops, draws, s);
      && |e.operations| == |ops|
      && (forall i | 0 <= i < |ops| :: Slot(RunExecutor, ops, draws, i).Drawn? && e.operations[i] == Slot(RunExecutor, ops, draws, i).value)
    decreases |ops|
  {
    if ops != [] {
      var d := Run(ops[0], draws);
      var x, k := d.value, d.used;
      var s' := Fold(s, x).value;
      var rest := RunFrom(ops[1..], draws[k..], s');
      RunFromSlots(ops[1..], draws[k..], s');
      var done := [x] + rest.operations;
      assert RunFrom(ops, draws, s).operations == done;
      forall i | 0 <= i < |ops|
        ensures Slot(RunExecutor, ops, draws, i).Drawn? && done[i] == Slot(RunExecutor, ops, draws, i).value
      {
        if i > 0 {
          assert Slot(RunExecutor, ops, draws, i) == Slot(RunExecutor, ops[1..], draws[k..], i - 1);
          assert done[i] == rest.operations[i - 1];
        }
      }
    }
  }

  /** A finished run takes the draws of all its operations together. */
  lemma {:induction false} RunFromUsed(ops: seq<Operation>, draws: seq<int>, s: FoldState)
    requires RunFrom(ops, draws, s).Evaluated?
    ensures RunFrom(ops, draws, s).used == DrawsOf(RunExecutor, ops, draws)
    decreases |ops|
  {
    if ops != [] {
      var d := Run(ops[0], draws);
      var x, k := d.value, d.used;
      var s' := Fold(s, x).value;
      RunFromUsed(ops[1..], draws[k..], s');
    }
  }

  /**
   * A finished run executes every operation on the draws the operations in
   * front of it left over, and takes the draws of all of them together.
   */
  lemma RunFromExecutes(ops: seq<Operation>, draws: seq<int>, s: FoldState)
    requires RunFrom(ops, draws, s).Evaluated?
    ensures var e := RunFrom(ops, draws, s);
      && |e.operations| == |ops|
      && (forall i | 0 <= i < |ops| ::
            var x := Run(ops[i], draws[DrawsOf(RunExecutor, ops[..i], draws)..]);
            x.Drawn? && e.operations[i] == x.value)
      && e.used == DrawsOf(RunExecutor, ops, draws)
  {
    RunFromSlots(ops, draws, s);
    RunFromUsed(ops, draws, s);
    forall i | 0 <= i < |ops|
      ensures Slot(RunExecutor, ops, draws, i) == Run(ops[i], draws[DrawsOf(RunExecutor, ops[..i], draws)..])
    {
      SlotIsRun(RunExecutor, ops, draws, i);
    }
  }

  /** Executing a dice group is executing its roll. */
  lemma RollSlot(x: Operation, draws: seq<int>)
    requires x.Roll? && Run(x, draws).Drawn?
    ensures ExecutedRoll(x.roll, draws).Drawn? && Run(x, draws).value == Roll(ExecutedRoll(x.roll, draws).value)
  {
  }

  /**
   * A finished run leaves every operator and constant as it was, replaces
   * every dice group by its roll executed on the draws the operations in front
   * of it left over, and takes the draws of all of them together.
   */
  lemma RunFromOperations(ops: seq<Operation>, draws: seq<int>, s: FoldState)
    requires RunFrom(ops, draws, s).Evaluated?
    ensures var e := RunFrom(ops, draws, s);
      && |e.operations| == |ops|
      && (forall i | 0 <= i < |ops| && !ops[i].Roll? :: e.operations[i] == ops[i])
      && (forall i | 0 <= i < |ops| && ops[i].Roll? ::
            var rolled := ExecutedRoll(ops[i].roll, draws[DrawsOf(RunExecutor, ops[..i], draws)..]);
            rolled.Drawn? && e.operations[i] == Roll(rolled.value))
      && e.used == DrawsOf(RunExecutor, ops, draws)
  {
    RunFromExecutes(ops, draws, s);
    forall i | 0 <= i < |ops| && ops[i].Roll?
      ensures var rolled := ExecutedRoll(ops[i].roll, draws[DrawsOf(RunExecutor, ops[..i], draws)..]);
        rolled.Drawn? && Run(ops[i], draws[DrawsOf(RunExecutor, ops[..i], draws)..]).value == Roll(rolled.value)
    {
      RollSlot(ops[i], draws[DrawsOf(RunExecutor, ops[..i], draws)..]);
    }
  }

  /** Operators that are always followed by operands never meet a full operator slot. */
  lemma {:induction false} RunFromNeverThrows(ops: seq<Operation>, draws: seq<int>, s: FoldState)
    requires OperatorsFollowed(ops)
    requires s.pending.Some? ==> ops != [] && !ops[0].Operator?
    ensures RunFrom(ops, draws, s) != PreexistingOperator
    decreases |ops|
  {
    if ops != [] {
      var d := Run(ops[0], draws);
      if d.Drawn? {
        var s' := Fold(s, d.value).value;
        assert OperatorsFollowed(ops[1..]) by {
          forall i | 0 <= i < |ops[1..]| && ops[1..][i].Operator?
            ensures i + 1 < |ops[1..]| && !ops[1..][i + 1].Operator?
          {
            assert ops[i + 1].Operator?;
          }
        }
        RunFromNeverThrows(ops[1..], draws[d.used..], s');
      }
    }
  }

  /** reduce((descr, op) => descr + op.toString(), ''). */
  function Details(ops: seq<Operation>): string
    decreases |ops|
  {
    if ops == [] then "" else Details(ops[..|ops| - 1]) + RenderOp(ops[|ops| - 1])
  }

  /** The text of a non-empty run is the text of all but its last operation, then the last. */
  lemma DetailsLast(ops: seq<Operation>)
    requires ops != []
    ensures Details(ops) == Details(ops[..|ops| - 1]) + RenderOp(ops[|ops| - 1])
  {
  }

  /** The text of two runs of operations is the text of the first, then of the second. */
  lemma {:induction false} DetailsAppend(a: seq<Operation>, b: seq<Operation>)
    ensures Details(a + b) == Details(a) + Details(b)
    decreases |b|
  {
    if b == [] {
      assert a + b == a;
      ConcatEmpty(Details(a));
    } else {
      var b', x := b[..|b| - 1], b[|b| - 1];
      var ab := a + b;
      assert ab[..|ab| - 1] == a + b';
      assert ab[|ab| - 1] == x;
      DetailsLast(ab);
      DetailsLast(b);
      DetailsAppend(a, b');
      ConcatAssoc(Details(a), Details(b'), RenderOp(x));
    }
  }

  /** Read front first: the first operation's text, then the text of the rest. */
  lemma DetailsCons(x: Operation, ops: seq<Operation>)
    ensures Details([x] + ops) == RenderOp(x) + Details(ops)
  {
    DetailsAppend([x], ops);
    DetailsLast([x]);
    assert [x][..0] == [];
    ConcatEmpty(RenderOp(x));
  }

  // ---------------------------------------------------------------------------
  // The constructor and toString

  /**
   * getSpecial: the text stored under exactly this expression, if any; an
   * empty expression has none, and an empty text counts as none.
   */
  function GetSpecial(specials: map<string, string>, expr: string): (t: Option<string>)
    ensures t.Some? ==> expr in specials && t.value == specials[expr] && t.value != ""
    ensures t.None? ==> expr == "" || expr !in specials || specials[expr] == ""
  {
    if expr != "" && expr in specials && specials[expr] != "" then Some(specials[expr]) else None
  }

  datatype DiceExpression = DiceExpression(
    operations: seq<Operation>,
    special: Option<string>,
    labelText: Option<string>,
    valid: bool,
    result: int,     // 0 when not executed
    details: string) // "" when not executed

  datatype Construction = Constructed(expression: DiceExpression, used: nat) | ConstructionOutOfDraws | ConstructionThrew

  /** new DiceExpression(expr): special lookup, tokenizing, validation and, when valid, execution. */
  function Construct(specials: map<string, string>, expr: string, draws: seq<int>): Construction {
    var special := GetSpecial(specials, expr);
    if special.Some? then
      Constructed(DiceExpression([], special, None, false, 0, ""), 0)
    else
      var t := TokenizeFrom(expr);
      if !Validate(t.operations) then
        Constructed(DiceExpression(t.operations, None, t.labelText, false, 0, ""), 0)
      else match RunFrom(t.operations, draws, FoldState(0, None))
        case OutOfDraws => ConstructionOutOfDraws
        case PreexistingOperator => ConstructionThrew
        case Evaluated(done, result, used) =>
          Constructed(DiceExpression(done, None, t.labelText, true, result, Details(done)), used)
  }

  /** The DiceExpression constructor. */
  method NewExpression(specials: map<string, string>, expr: string, draws: seq<int>) returns (c: Construction)
    ensures c == Construct(specials, expr, draws)
  {
    var special := GetSpecial(specials, expr);
    if special.Some? {
      return Constructed(DiceExpression([], special, None, false, 0, ""), 0);
    }
    var operations, labelText := Tokenize(expr);
    var isValid := Validate(operations);
    if !isValid {
      return Constructed(DiceExpression(operations, None, labelText, false, 0, ""), 0);
    }
    var e := Execute(operations, draws);
    match e
    case OutOfDraws => c := ConstructionOutOfDraws;
    case PreexistingOperator => c := ConstructionThrew;
    case Evaluated(done, result, used) =>
      c := Constructed(DiceExpression(done, None, labelText, true, result, Details(done)), used);
  }

  /** toString(): the special text, else `[label: ]result rolls: details`, else `invalid dice roll`. */
  function RenderExpression(e: DiceExpression): string {
    if e.special.Some? then e.special.value
    else if e.valid then LabelPrefix(e.labelText) + IntToString(e.result) + " rolls: " + e.details
    else "invalid dice roll"
  }

  /** `label: ` before the result, when a non-empty label was given. */
  function LabelPrefix(labelText: Option<string>): string {
    if labelText.Some? && labelText.value != "" then labelText.value + ": " else ""
  }

  /**
   * Text laid out as a prefix, a number without spaces, ` rolls: ` and the
   * details: after the prefix, the number is the piece before the first space,
   * and what follows it is ` rolls: ` and the details.
   */
  lemma ResultTextParts(prefix: string, number: string, details: string)
    requires forall i | 0 <= i < |number| :: number[i] != ' '
    ensures var text := prefix + number + " rolls: " + details;
      && text[..|prefix|] == prefix
      && var rest := text[|prefix|..];
      && Split(rest, ' ')[0] == number
      && |number| <= |rest| && rest[|number|..] == " rolls: " + details
  {
    var text := prefix + number + " rolls: " + details;
    var rest := text[|prefix|..];
    assert rest == number + [' '] + ("rolls: " + details);
    SplitPrepend(number, "rolls: " + details, ' ');
  }

  /**
   * toString can be read back for an executed expression: after the label
   * prefix, the text up to the first space parses to the result, and the rest
   * is ` rolls: ` followed by the details.
   */
  lemma RenderExpressionReadBack(e: DiceExpression)
    requires e.special.None? && e.valid
    ensures var text := RenderExpression(e);
      var prefix := LabelPrefix(e.labelText);
      && |prefix| <= |text| && text[..|prefix|] == prefix
      && var rest := text[|prefix|..];
      && var head := Split(rest, ' ')[0];
      && ParseInt(head) == Some(e.result)
      && |head| <= |rest| && rest[|head|..] == " rolls: " + e.details
  {
    IntToStringChars(e.result);
    IntToStringParses(e.result);
    ResultTextParts(LabelPrefix(e.labelText), IntToString(e.result), e.details);
  }

  /** A special command leaves no operations, is not valid, is never executed, and renders as its text. */
  lemma SpecialShortCircuit(specials: map<string, string>, expr: string, draws: seq<int>)
    requires expr != "" && expr in specials && specials[expr] != ""
    ensures var c := Construct(specials, expr, draws);
      && c.Constructed? && c.used == 0
      && c.expression.operations == [] && !c.expression.valid
      && RenderExpression(c.expression) == specials[expr]
  {
  }

  /** The pending-operator throw cannot happen for any text. */
  lemma NeverThrows(specials: map<string, string>, expr: string, draws: seq<int>)
    ensures Construct(specials, expr, draws) != ConstructionThrew
  {
    TokenizedShape(expr);
    RunFromNeverThrows(TokenizeFrom(expr).operations, draws, FoldState(0, None));
  }

  /**
   * What a constructed expression promises: it is valid exactly when its
   * operations pass validate(); an invalid one is never executed (no draws,
   * the tokenized operations untouched) and renders `invalid dice roll`; a
   * valid one has its dice groups executed in place, a result equal to the
   * right-to-left Value of its operations, and details made of their texts.
   */
  lemma ConstructedFacts(specials: map<string, string>, expr: string, draws: seq<int>)
    requires GetSpecial(specials, expr).None?
    requires Construct(specials, expr, draws).Constructed?
    ensures var c := Construct(specials, expr, draws);
      var e := c.expression;
      var tokens := TokenizeFrom(expr).operations;
      && e.labelText == TokenizeFrom(expr).labelText
      && (e.valid <==> Validate(tokens))
      && (!e.valid ==> e.operations == tokens && c.used == 0 && RenderExpression(e) == "invalid dice roll")
      && (e.valid ==>
            && |e.operations| == |tokens|
            && (forall i | 0 <= i < |tokens| :: SameKind(e.operations[i], tokens[i]))
            && WellShaped(e.operations)
            && e.result == Value(e.operations)
            && e.details == Details(e.operations)
            && c.used <= |draws|)
  {
    var tokens := TokenizeFrom(expr).operations;
    if Validate(tokens) {
      var run := RunFrom(tokens, draws, FoldState(0, None));
      RunFromFold(tokens, draws, FoldState(0, None));
      TokenizedShape(expr);
      var done := run.operations;
      assert OperatorsFollowed(done) by {
        forall i | 0 <= i < |done| && done[i].Operator?
          ensures i + 1 < |done| && !done[i + 1].Operator?
        {
          assert SameKind(done[i], tokens[i]);
          assert SameKind(done[i + 1], tokens[i + 1]);
        }
      }
      assert SameKind(done[0], tokens[0]);
      FoldValue(done);
    }
  }

  /**
   * Which draws each dice group of a valid expression took: every group is
   * executed on what the groups in front of it left over, every other
   * operation stays as tokenized, and the expression takes the draws of all
   * its groups together.
   */
  lemma ConstructedOperations(specials: map<string, string>, expr: string, draws: seq<int>)
    requires GetSpecial(specials, expr).None?
    requires Construct(specials, expr, draws).Constructed?
    ensures var c := Construct(specials, expr, draws);
      var e := c.expression;
      var tokens := TokenizeFrom(expr).operations;
      e.valid ==>
        && |e.operations| == |tokens|
        && (forall i | 0 <= i < |tokens| && !tokens[i].Roll? :: e.operations[i] == tokens[i])
        && (forall i | 0 <= i < |tokens| && tokens[i].Roll? ::
              var rolled := ExecutedRoll(tokens[i].roll, draws[DrawsOf(RunExecutor, tokens[..i], draws)..]);
              rolled.Drawn? && e.operations[i] == Roll(rolled.value))
        && c.used == DrawsOf(RunExecutor, tokens, draws)
  {
    var tokens := TokenizeFrom(expr).operations;
    if Validate(tokens) {
      RunFromOperations(tokens, draws, FoldState(0, None));
    }
  }
}
