/**
 * RollOptions: the modifier suffix of one dice group (`r<3`, `kh2`, `dl1`, ...)
 * scanned into reroll rules and keep/drop settings. Malformed modifiers are
 * recorded in `valid` rather than raised.
 */
module Options {
  import opened Wrappers
  import opened Text

  /** A reroll rule, as built by the predicate builders: `rN`, `r<N`, `r<=N`, `r>N`, `r>=N`. */
  datatype Rule = Equal(n: int) | Below(n: int) | AtMost(n: int) | Above(n: int) | AtLeast(n: int)

  predicate Holds(rule: Rule, v: int) {
    match rule
    case Equal(n) => v == n
    case Below(n) => v < n
    case AtMost(n) => v <= n
    case Above(n) => v > n
    case AtLeast(n) => v >= n
  }

  /** The states JavaScript gives `keep` and `drop`: `false`, `true` (requested, not yet parsed) and a count. */
  datatype Setting = Unset | Requested | Amount(n: nat)

  datatype RollOptions = RollOptions(
    keep: Setting,
    drop: Setting,
    highestRolls: bool,
    lowestRolls: bool,
    reroll: seq<Rule>,
    valid: bool,
    text: string)  // what toString returns: the option text verbatim

  /** The fields as the constructor initialises them, before the scan; the text is attached after it. */
  function Initial(): RollOptions {
    RollOptions(Unset, Unset, false, false, [], true, "")
  }

  predicate HasKeepDrop(o: RollOptions) {
    o.keep != Unset || o.drop != Unset
  }

  /** needReroll: some accumulated rule holds of the value. */
  predicate NeedsReroll(o: RollOptions, v: int) {
    exists i | 0 <= i < |o.reroll| :: Holds(o.reroll[i], v)
  }

  /** The loop of needReroll: consult the rules in order and stop at the first that holds. */
  method NeedReroll(o: RollOptions, num: int) returns (b: bool)
    ensures b <==> exists i | 0 <= i < |o.reroll| :: Holds(o.reroll[i], num)
  {
    for jk := 0 to |o.reroll|
      invariant forall i | 0 <= i < jk :: !Holds(o.reroll[i], num)
    {
      if Holds(o.reroll[jk], num) {
        return true;
      }
    }
    return false;
  }

  // ---------------------------------------------------------------------------
  // The option pattern /^([rkd])([^rkd]+)/i

  /** One modifier: its letter, lower-cased, and the run of non-letters after it. */
  datatype OptionToken = OptionToken(kind: char, value: string)

  function Consumed(t: OptionToken): nat {
    1 + |t.value|
  }

  /**
   * The anchored match: a letter r, k or d (either case) followed by the
   * longest run of other characters, which must not be empty.
   */
  function MatchOption(s: string): (m: Option<OptionToken>)
    ensures m.Some? <==> 2 <= |s| && IsOptionLetter(s[0]) && !IsOptionLetter(s[1])
    ensures m.Some? ==>
      && m.value.value != []
      && Consumed(m.value) <= |s|
      && m.value.kind in {'r', 'k', 'd'}
      && m.value.kind == LowerChar(s[0])
      && m.value.value == s[1..Consumed(m.value)]
      && (forall i | 1 <= i < Consumed(m.value) :: !IsOptionLetter(s[i]))
      && (Consumed(m.value) < |s| ==> IsOptionLetter(s[Consumed(m.value)]))
  {
    if 2 <= |s| && IsOptionLetter(s[0]) && !IsOptionLetter(s[1]) then
      Some(OptionToken(LowerChar(s[0]), s[1..RunEnd(s, 1, NotOptionLetter)]))
    else
      None
  }

  /** The modifiers the scan loop visits, in order; it stops at the first position the pattern rejects. */
  function Tokens(s: string): seq<OptionToken>
    decreases |s|
  {
    match MatchOption(s)
    case None => []
    case Some(t) => [t] + Tokens(s[Consumed(t)..])
  }

  // ---------------------------------------------------------------------------
  // The reroll pattern /([<>]?)([=]?)([0-9]+)/, searched left to right

  datatype RerollMatch = RerollMatch(comparison: string, orEqual: bool, digits: string)

  /** The match that starts exactly at p, if any. */
  function RerollMatchAt(v: string, p: nat): (m: Option<RerollMatch>)
    requires p <= |v|
    ensures m.Some? ==> m.value.digits != [] && AllDigits(m.value.digits)
  {
    var compares := p < |v| && (v[p] == '<' || v[p] == '>');
    if compares && p + 2 < |v| && v[p + 1] == '=' && IsDigit(v[p + 2]) then
      Some(RerollMatch(v[p..p + 1], true, v[p + 2..RunEnd(v, p + 2, Digit)]))
    else if compares && p + 1 < |v| && IsDigit(v[p + 1]) then
      Some(RerollMatch(v[p..p + 1], false, v[p + 1..RunEnd(v, p + 1, Digit)]))
    else if p + 1 < |v| && v[p] == '=' && IsDigit(v[p + 1]) then
      Some(RerollMatch("", true, v[p + 1..RunEnd(v, p + 1, Digit)]))
    else if p < |v| && IsDigit(v[p]) then
      Some(RerollMatch("", false, v[p..RunEnd(v, p, Digit)]))
    else
      None
  }

  /** The leftmost match at or after p. */
  function FindReroll(v: string, p: nat): (m: Option<RerollMatch>)
    requires p <= |v|
    ensures m.Some? ==> m.value.digits != [] && AllDigits(m.value.digits)
    decreases |v| - p
  {
    if p == |v| then None
    else if RerollMatchAt(v, p).Some? then RerollMatchAt(v, p)
    else FindReroll(v, p + 1)
  }

  /** The predicate builder a reroll match selects; a lone `=` still builds an equality rule. */
  function RuleFor(m: RerollMatch, n: int): Rule {
    if m.comparison == "<" then (if m.orEqual then AtMost(n) else Below(n))
    else if m.comparison == ">" then (if m.orEqual then AtLeast(n) else Above(n))
    else Equal(n)
  }

  /** parseReroll: no digits, or a value of 0, invalidates the options; otherwise the rule is appended. */
  function ParseReroll(o: RollOptions, val: string): RollOptions {
    match FindReroll(val, 0)
    case None => o.(valid := false)
    case Some(m) =>
      var n := DigitsValue(m.digits);
      if n == 0 then o.(valid := false) else o.(reroll := o.reroll + [RuleFor(m, n)])
  }

  // ---------------------------------------------------------------------------
  // The keep/drop pattern /([hl]?)([0-9]+)/i, applied to the lower-cased value

  datatype KeepDropMatch = KeepDropMatch(letter: string, digits: string)

  function KeepDropMatchAt(v: string, p: nat): (m: Option<KeepDropMatch>)
    requires p <= |v|
    ensures m.Some? ==> m.value.digits != [] && AllDigits(m.value.digits)
  {
    if p + 1 < |v| && (v[p] == 'h' || v[p] == 'l') && IsDigit(v[p + 1]) then
      Some(KeepDropMatch(v[p..p + 1], v[p + 1..RunEnd(v, p + 1, Digit)]))
    else if p < |v| && IsDigit(v[p]) then
      Some(KeepDropMatch("", v[p..RunEnd(v, p, Digit)]))
    else
      None
  }

  function FindKeepDrop(v: string, p: nat): (m: Option<KeepDropMatch>)
    requires p <= |v|
    ensures m.Some? ==> m.value.digits != [] && AllDigits(m.value.digits)
    decreases |v| - p
  {
    if p == |v| then None
    else if KeepDropMatchAt(v, p).Some? then KeepDropMatchAt(v, p)
    else FindKeepDrop(v, p + 1)
  }

  datatype Which = Keep | Drop

  /**
   * parseKeepDrop: the letter picks highest or lowest (no letter means the
   * default the modifier passes in); the count goes into `keep` or `drop`
   * unless it is 0 or missing, which invalidates the options.
   */
  function ParseKeepDrop(o: RollOptions, kd: Which, val: string, defaultHighest: bool): RollOptions {
    if val == "" then o.(valid := false)
    else match FindKeepDrop(Lower(val), 0)
      case None => o.(valid := false)
      case Some(m) =>
        var chosen :=
          if (m.letter == "" && defaultHighest) || m.letter == "h" then o.(highestRolls := true)
          else o.(lowestRolls := true);
        var amt := DigitsValue(m.digits);
        if amt == 0 then chosen.(valid := false)
        else if kd == Keep then chosen.(keep := Amount(amt))
        else chosen.(drop := Amount(amt))
  }

  /** One pass of the scan loop's switch. A second `k` or `d` invalidates the options but is still parsed. */
  function ApplyToken(o: RollOptions, t: OptionToken): RollOptions {
    if t.kind == 'r' then
      ParseReroll(o, t.value)
    else if t.kind == 'k' then
      var checked := if HasKeepDrop(o) then o.(valid := false) else o;
      ParseKeepDrop(checked.(keep := Requested), Keep, t.value, true)
    else if t.kind == 'd' then
      var checked := if HasKeepDrop(o) then o.(valid := false) else o;
      ParseKeepDrop(checked.(drop := Requested), Drop, t.value, false)
    else
      o
  }

  function ApplyAll(o: RollOptions, ts: seq<OptionToken>): RollOptions
    decreases |ts|
  {
    if ts == [] then o else ApplyAll(ApplyToken(o, ts[0]), ts[1..])
  }

  /** The options the constructor builds from an option string; toString returns that string verbatim. */
  function OptionsOf(options: string): (o: RollOptions)
    ensures o.text == options
  {
    ApplyAll(Initial(), Tokens(options)).(text := options)
  }

  /** The RollOptions constructor: the `while (optString)` loop that consumes one modifier per pass. */
  method ParseRollOptions(options: string) returns (o: RollOptions)
    ensures o == OptionsOf(options)
    ensures o.text == options
  {
    o := Initial();
    var optString := options;
    while optString != ""
      invariant ApplyAll(o, Tokens(optString)) == ApplyAll(Initial(), Tokens(options))
      decreases |optString|
    {
      var found := MatchOption(optString);
      if found.Some? {
        var t := found.value;
        o := ApplyToken(o, t);
        optString := if |optString| > Consumed(t) then optString[Consumed(t)..] else "";
      } else {
        optString := "";
      }
    }
    o := o.(text := options);
  }

  // ---------------------------------------------------------------------------
  // Validity

  /** A modifier that parses: its pattern matches and its number is not 0. */
  predicate TokenWellFormed(t: OptionToken) {
    if t.kind == 'r' then
      FindReroll(t.value, 0).Some? && DigitsValue(FindReroll(t.value, 0).value.digits) > 0
    else if t.kind == 'k' || t.kind == 'd' then
      t.value != "" && FindKeepDrop(Lower(t.value), 0).Some?
      && DigitsValue(FindKeepDrop(Lower(t.value), 0).value.digits) > 0
    else
      true
  }

  predicate IsKeepDrop(t: OptionToken) {
    t.kind == 'k' || t.kind == 'd'
  }

  function KeepDropCount(ts: seq<OptionToken>): nat
    decreases |ts|
  {
    if ts == [] then 0 else (if IsKeepDrop(ts[0]) then 1 else 0) + KeepDropCount(ts[1..])
  }

  /** A reroll modifier keeps the options valid exactly when its number parses and is not 0. */
  lemma ParseRerollValidity(o: RollOptions, val: string)
    ensures ParseReroll(o, val).valid <==>
      o.valid && FindReroll(val, 0).Some? && DigitsValue(FindReroll(val, 0).value.digits) > 0
    ensures ParseReroll(o, val).keep == o.keep && ParseReroll(o, val).drop == o.drop
  {
  }

  /** A keep/drop modifier keeps the options valid exactly when its number parses and is not 0. */
  lemma ParseKeepDropValidity(o: RollOptions, kd: Which, val: string, defaultHighest: bool)
    requires HasKeepDrop(o)
    ensures ParseKeepDrop(o, kd, val, defaultHighest).valid <==>
      && o.valid && val != "" && FindKeepDrop(Lower(val), 0).Some?
      && DigitsValue(FindKeepDrop(Lower(val), 0).value.digits) > 0
    ensures HasKeepDrop(ParseKeepDrop(o, kd, val, defaultHighest))
  {
  }

  lemma ApplyTokenValidity(o: RollOptions, t: OptionToken)
    ensures ApplyToken(o, t).valid <==> o.valid && TokenWellFormed(t) && !(IsKeepDrop(t) && HasKeepDrop(o))
    ensures HasKeepDrop(ApplyToken(o, t)) <==> HasKeepDrop(o) || IsKeepDrop(t)
  {
    if t.kind == 'r' {
      ParseRerollValidity(o, t.value);
    } else if t.kind == 'k' || t.kind == 'd' {
      var checked := if HasKeepDrop(o) then o.(valid := false) else o;
      assert checked.valid <==> o.valid && !HasKeepDrop(o);
      if t.kind == 'k' {
        ParseKeepDropValidity(checked.(keep := Requested), Keep, t.value, true);
      } else {
        ParseKeepDropValidity(checked.(drop := Requested), Drop, t.value, false);
      }
    }
  }

  lemma {:induction false} ApplyAllValidity(o: RollOptions, ts: seq<OptionToken>)
    ensures ApplyAll(o, ts).valid <==>
      && o.valid
      && (forall i | 0 <= i < |ts| :: TokenWellFormed(ts[i]))
      && KeepDropCount(ts) + (if HasKeepDrop(o) then 1 else 0) <= 1
    ensures HasKeepDrop(ApplyAll(o, ts)) <==> HasKeepDrop(o) || KeepDropCount(ts) > 0
    decreases |ts|
  {
    if ts != [] {
      ApplyTokenValidity(o, ts[0]);
      ApplyAllValidity(ApplyToken(o, ts[0]), ts[1..]);
      if forall i | 0 <= i < |ts| :: TokenWellFormed(ts[i]) {
        forall i | 0 <= i < |ts[1..]| ensures TokenWellFormed(ts[1..][i]) {
          assert ts[1..][i] == ts[i + 1];
        }
      }
      if TokenWellFormed(ts[0]) && forall i | 0 <= i < |ts[1..]| :: TokenWellFormed(ts[1..][i]) {
        forall i | 0 <= i < |ts| ensures TokenWellFormed(ts[i]) {
          if i > 0 {
            assert ts[i] == ts[1..][i - 1];
          }
        }
      }
    }
  }

  /**
   * The options are valid exactly when every modifier the scan visits is well
   * formed and at most one of them is a `k` or `d`: a second keep/drop, a
   * missing number and a number of 0 each invalidate them.
   */
  lemma OptionsValidity(options: string)
    ensures OptionsOf(options).valid <==>
      && (forall i | 0 <= i < |Tokens(options)| :: TokenWellFormed(Tokens(options)[i]))
      && KeepDropCount(Tokens(options)) <= 1
  {
    ApplyAllValidity(Initial(), Tokens(options));
  }

  // ---------------------------------------------------------------------------
  // Rerolls

  /** The rule a well-formed `r` modifier contributes. */
  function RuleOfToken(t: OptionToken): Rule
    requires t.kind == 'r' && TokenWellFormed(t)
  {
    var m := FindReroll(t.value, 0).value;
    RuleFor(m, DigitsValue(m.digits))
  }

  predicate RerollsOn(t: OptionToken, v: int) {
    t.kind == 'r' && TokenWellFormed(t) && Holds(RuleOfToken(t), v)
  }

  lemma ParseKeepDropRules(o: RollOptions, kd: Which, val: string, defaultHighest: bool)
    ensures ParseKeepDrop(o, kd, val, defaultHighest).reroll == o.reroll
  {
  }

  lemma ApplyTokenRules(o: RollOptions, t: OptionToken)
    ensures ApplyToken(o, t).reroll == o.reroll + (if t.kind == 'r' && TokenWellFormed(t) then [RuleOfToken(t)] else [])
  {
    if t.kind == 'k' {
      var checked := if HasKeepDrop(o) then o.(valid := false) else o;
      ParseKeepDropRules(checked.(keep := Requested), Keep, t.value, true);
    } else if t.kind == 'd' {
      var checked := if HasKeepDrop(o) then o.(valid := false) else o;
      ParseKeepDropRules(checked.(drop := Requested), Drop, t.value, false);
    }
  }

  lemma ApplyTokenRerolls(o: RollOptions, t: OptionToken, v: int)
    ensures NeedsReroll(ApplyToken(o, t), v) <==> NeedsReroll(o, v) || RerollsOn(t, v)
  {
    var o' := ApplyToken(o, t);
    ApplyTokenRules(o, t);
    if RerollsOn(t, v) {
      assert o'.reroll[|o.reroll|] == RuleOfToken(t);
    }
    if NeedsReroll(o, v) {
      var i :| 0 <= i < |o.reroll| && Holds(o.reroll[i], v);
      assert o'.reroll[i] == o.reroll[i];
    }
  }

  lemma {:induction false} ApplyAllRerolls(o: RollOptions, ts: seq<OptionToken>, v: int)
    ensures NeedsReroll(ApplyAll(o, ts), v) <==> NeedsReroll(o, v) || exists i | 0 <= i < |ts| :: RerollsOn(ts[i], v)
    decreases |ts|
  {
    if ts != [] {
      ApplyTokenRerolls(o, ts[0], v);
      ApplyAllRerolls(ApplyToken(o, ts[0]), ts[1..], v);
      if exists i | 0 <= i < |ts| :: RerollsOn(ts[i], v) {
        var i :| 0 <= i < |ts| && RerollsOn(ts[i], v);
        if i > 0 {
          assert RerollsOn(ts[1..][i - 1], v);
        }
      }
      if exists i | 0 <= i < |ts[1..]| :: RerollsOn(ts[1..][i], v) {
        var i :| 0 <= i < |ts[1..]| && RerollsOn(ts[1..][i], v);
        assert RerollsOn(ts[i + 1], v);
      }
    }
  }

  /** needReroll(v) holds exactly when the rule of some well-formed `r` modifier in the text holds of v. */
  lemma NeedsRerollIff(options: string, v: int)
    ensures NeedsReroll(OptionsOf(options), v) <==>
      exists i | 0 <= i < |Tokens(options)| :: RerollsOn(Tokens(options)[i], v)
  {
    ApplyAllRerolls(Initial(), Tokens(options), v);
    assert !NeedsReroll(Initial(), v);
    assert NeedsReroll(OptionsOf(options), v) <==> NeedsReroll(ApplyAll(Initial(), Tokens(options)), v);
  }

  // ---------------------------------------------------------------------------
  // The modifier forms one at a time

  /** What each reroll comparison promises: `r`/`r=` equal, `r<`, `r<=`, `r>`, `r>=`. */
  predicate Promised(comparison: string, v: int, n: int) {
    if comparison == "<" then v < n
    else if comparison == "<=" then v <= n
    else if comparison == ">" then v > n
    else if comparison == ">=" then v >= n
    else v == n
  }

  /** A modifier made of a letter and a run of non-letters is one token, and the whole string. */
  lemma SingleToken(letter: char, value: string)
    requires IsOptionLetter(letter)
    requires value != [] && forall i | 0 <= i < |value| :: !IsOptionLetter(value[i])
    ensures Tokens([letter] + value) == [OptionToken(LowerChar(letter), value)]
  {
    var s := [letter] + value;
    assert RunEnd(s, 1, NotOptionLetter) == |s|;
    assert s[1..|s|] == value;
    assert s[|s|..] == [];
  }

  lemma RerollDigits(v: string, p: nat, ds: string)
    requires p <= |v| && v[p..] == ds && ds != [] && AllDigits(ds)
    ensures v[p..RunEnd(v, p, Digit)] == ds
  {
    assert RunEnd(v, p, Digit) == |v|;
  }

  /**
   * `r` (either case) followed by a comparison and digits: valid exactly when
   * the number is not 0, and then the value is rerolled exactly when the
   * comparison promises it; keep and drop stay unset.
   */
  lemma RerollForm(letter: char, comparison: string, ds: string, v: int)
    requires letter == 'r' || letter == 'R'
    requires comparison in {"", "=", "<", "<=", ">", ">="}
    requires ds != [] && AllDigits(ds)
    ensures var o := OptionsOf([letter] + comparison + ds);
      && o.valid == (DigitsValue(ds) > 0)
      && o.keep == Unset && o.drop == Unset && !o.highestRolls && !o.lowestRolls
      && (o.valid ==> (NeedsReroll(o, v) <==> Promised(comparison, v, DigitsValue(ds))))
  {
    var value := comparison + ds;
    assert [letter] + comparison + ds == [letter] + value;
    SingleTokenOptions(letter, value);
    var m := RerollOfForm(comparison, ds);
    var n := DigitsValue(ds);
    var o := OptionsOf([letter] + value);
    assert o == ParseReroll(Initial(), value).(text := [letter] + value);
    if n > 0 {
      assert o.reroll == [RuleFor(m, n)];
      assert NeedsReroll(o, v) <==> Holds(RuleFor(m, n), v) by {
        assert o.reroll[0] == RuleFor(m, n);
      }
      RuleForPromised(comparison, m, n, v);
    }
  }

  /** The rule built from a matched comparison holds exactly when the comparison, as written, does. */
  lemma RuleForPromised(comparison: string, m: RerollMatch, n: int, v: int)
    requires comparison in {"", "=", "<", "<=", ">", ">="}
    requires m.comparison == (if comparison == "<" || comparison == "<=" then "<"
                              else if comparison == ">" || comparison == ">=" then ">" else "")
    requires m.orEqual == (comparison in {"=", "<=", ">="})
    ensures Holds(RuleFor(m, n), v) <==> Promised(comparison, v, n)
  {
  }

  lemma RerollOfForm(comparison: string, ds: string) returns (m: RerollMatch)
    requires comparison in {"", "=", "<", "<=", ">", ">="}
    requires ds != [] && AllDigits(ds)
    ensures FindReroll(comparison + ds, 0) == Some(m)
    ensures m.digits == ds
    ensures m.comparison == (if comparison == "<" || comparison == "<=" then "<"
                             else if comparison == ">" || comparison == ">=" then ">" else "")
    ensures m.orEqual == (comparison in {"=", "<=", ">="})
  {
    var value := comparison + ds;
    assert value[|comparison|..] == ds;
    RerollDigits(value, |comparison|, ds);
    assert value[|comparison|] == ds[0];
    if comparison == "<=" || comparison == ">=" {
      assert value[0..1] == comparison[..1];
      m := RerollMatch(comparison[..1], true, ds);
    } else if comparison == "<" || comparison == ">" {
      assert value[0..1] == comparison;
      m := RerollMatch(comparison, false, ds);
    } else if comparison == "=" {
      m := RerollMatch("", true, ds);
    } else {
      m := RerollMatch("", false, ds);
    }
    assert RerollMatchAt(value, 0) == Some(m);
  }

  /** The keep/drop pattern, on the lower-cased `selector + ds`, finds the selector and all of ds. */
  lemma KeepDropOfForm(selector: string, ds: string)
    requires selector in {"", "h", "H", "l", "L"}
    requires ds != [] && AllDigits(ds)
    ensures FindKeepDrop(Lower(selector + ds), 0)
      == Some(KeepDropMatch(if selector == "" then "" else if selector in {"h", "H"} then "h" else "l", ds))
  {
    var value := selector + ds;
    var lowered := Lower(value);
    assert lowered[|selector|..] == ds;
    RerollDigits(lowered, |selector|, ds);
    assert lowered[|selector|] == ds[0];
    if selector != "" {
      assert lowered[0] == LowerChar(selector[0]);
    }
    var letter := if selector == "" then "" else if selector in {"h", "H"} then "h" else "l";
    assert lowered[0..|selector|] == letter;
    assert KeepDropMatchAt(lowered, 0) == Some(KeepDropMatch(letter, ds));
  }

  /** A string that is one modifier parses as that modifier applied to the initial options. */
  lemma SingleTokenOptions(letter: char, value: string)
    requires IsOptionLetter(letter)
    requires value != [] && forall i | 0 <= i < |value| :: !IsOptionLetter(value[i])
    ensures OptionsOf([letter] + value) == ApplyToken(Initial(), OptionToken(LowerChar(letter), value)).(text := [letter] + value)
  {
    SingleToken(letter, value);
    var t := OptionToken(LowerChar(letter), value);
    assert [t][1..] == [];
    assert ApplyAll(Initial(), [t]) == ApplyAll(ApplyToken(Initial(), t), []);
  }

  /** The keep/drop parser on a selector and digits: which end it chooses, and the count, 0 invalidating. */
  lemma ParseKeepDropForm(o: RollOptions, kd: Which, selector: string, ds: string, defaultHighest: bool)
    requires selector in {"", "h", "H", "l", "L"}
    requires ds != [] && AllDigits(ds)
    ensures var highest := if selector == "" then defaultHighest else selector == "h" || selector == "H";
      var chosen := if highest then o.(highestRolls := true) else o.(lowestRolls := true);
      var n := DigitsValue(ds);
      ParseKeepDrop(o, kd, selector + ds, defaultHighest)
        == if n == 0 then chosen.(valid := false)
           else if kd == Keep then chosen.(keep := Amount(n)) else chosen.(drop := Amount(n))
  {
    KeepDropOfForm(selector, ds);
  }

  /**
   * `k` or `d` (either case), an optional `h` or `l` (either case), then digits:
   * `k` and `dh` select the highest rolls, `kl` and `d` the lowest; the count
   * lands in keep or drop, and the options are valid exactly when it is not 0.
   */
  lemma KeepDropForm(letter: char, selector: string, ds: string)
    requires letter in {'k', 'K', 'd', 'D'}
    requires selector in {"", "h", "H", "l", "L"}
    requires ds != [] && AllDigits(ds)
    ensures var o := OptionsOf([letter] + selector + ds);
      var keeping := letter == 'k' || letter == 'K';
      var highest := if selector == "" then keeping else selector == "h" || selector == "H";
      && o.valid == (DigitsValue(ds) > 0)
      && o.highestRolls == highest && o.lowestRolls == !highest
      && o.reroll == []
      && (o.valid ==> if keeping then o.keep == Amount(DigitsValue(ds)) && o.drop == Unset
                      else o.drop == Amount(DigitsValue(ds)) && o.keep == Unset)
  {
    var value := selector + ds;
    assert [letter] + selector + ds == [letter] + value;
    SingleTokenOptions(letter, value);
    if letter == 'k' || letter == 'K' {
      ParseKeepDropForm(Initial().(keep := Requested), Keep, selector, ds, true);
    } else {
      ParseKeepDropForm(Initial().(drop := Requested), Drop, selector, ds, false);
    }
  }

  lemma {:induction false} ApplyAllExclusive(o: RollOptions, ts: seq<OptionToken>)
    requires o.keep == Unset || o.drop == Unset
    ensures var r := ApplyAll(o, ts); r.valid ==> r.keep == Unset || r.drop == Unset
    decreases |ts|
  {
    if ts != [] {
      var next := ApplyToken(o, ts[0]);
      ApplyTokenValidity(o, ts[0]);
      ApplyAllValidity(next, ts[1..]);
      if next.keep == Unset || next.drop == Unset {
        ApplyAllExclusive(next, ts[1..]);
      }
    }
  }

  /** Valid options never set both keep and drop. */
  lemma ValidOptionsExclusive(options: string)
    ensures var o := OptionsOf(options); o.valid ==> o.keep == Unset || o.drop == Unset
  {
    ApplyAllExclusive(Initial(), Tokens(options));
  }

  /** Two keep/drop modifiers (`k2k3`, `k2d1`, ...) always leave the options invalid. */
  lemma SecondKeepDropInvalid(options: string)
    requires KeepDropCount(Tokens(options)) >= 2
    ensures !OptionsOf(options).valid
  {
    OptionsValidity(options);
  }

  // ---------------------------------------------------------------------------
  // An unrecognised remainder ends the scan

  /** The scan consumes the whole string. */
  predicate Covered(s: string)
    decreases |s|
  {
    s == [] || (MatchOption(s).Some? && Covered(s[Consumed(MatchOption(s).value)..]))
  }

  /** Text starting with a letter does not change the modifier matched in front of it. */
  lemma MatchOptionAppend(s: string, rest: string)
    requires MatchOption(s).Some?
    requires rest == [] || IsOptionLetter(rest[0])
    ensures MatchOption(s + rest) == MatchOption(s)
    ensures (s + rest)[Consumed(MatchOption(s).value)..] == s[Consumed(MatchOption(s).value)..] + rest
  {
    var e := RunEnd(s, 1, NotOptionLetter);
    RunEndAppend(s, rest, 1, NotOptionLetter);
    assert (s + rest)[1..e] == s[1..e];
  }

  lemma TokensUnfold(s: string)
    requires MatchOption(s).Some?
    ensures Tokens(s) == [MatchOption(s).value] + Tokens(s[Consumed(MatchOption(s).value)..])
  {
  }

  lemma {:induction false} TokensAppend(s: string, rest: string)
    requires Covered(s)
    requires rest == [] || IsOptionLetter(rest[0])
    ensures Tokens(s + rest) == Tokens(s) + Tokens(rest)
    decreases |s|
  {
    if s != [] {
      var t := MatchOption(s).value;
      var tail := s[Consumed(t)..];
      MatchOptionAppend(s, rest);
      TokensAppend(tail, rest);
      TokensUnfold(s);
      TokensUnfold(s + rest);
      assert Tokens(s + rest) == [t] + (Tokens(tail) + Tokens(rest));
    } else {
      assert s + rest == rest;
    }
  }

  /**
   * Text the pattern rejects at the point the scan reaches it (a letter that is
   * followed by another letter, or a letter at the very end) is dropped without
   * changing anything but the stored text: validity is left as it was.
   */
  lemma UnrecognisedRemainderIgnored(s: string, rest: string)
    requires Covered(s)
    requires s == [] || rest == [] || IsOptionLetter(rest[0])
    requires MatchOption(rest).None?
    ensures OptionsOf(s + rest) == OptionsOf(s).(text := s + rest)
  {
    if s == [] {
      assert s + rest == rest;
      assert Tokens(rest) == [] && Tokens(s) == [];
    } else {
      TokensAppend(s, rest);
      assert Tokens(s + rest) == Tokens(s);
    }
  }
}
