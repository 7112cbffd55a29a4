/**
 * DiceRoll: one dice group `NdF<modifiers>`. Construction parses the count and
 * the faces and decides validity; execution draws dice (rerolling as the
 * options say), cuts them down by keep/drop and sums what is kept.
 *
 * The die results are an input: `draws` is the sequence of values roll()
 * would return, consumed from the front.
 */
module Rolls {
  import opened Wrappers
  import opened Text
  import opened Options

  /** numberOfFaces: the fudge key `f`, a parsed number, or NaN. */
  datatype Faces = Fudge | Sides(n: int) | NotANumber

  datatype DiceRoll = DiceRoll(
    numberOfDice: Option<int>,  // None is NaN
    numberOfFaces: Faces,
    rollOptions: RollOptions,
    raw: seq<int>,
    kept: seq<int>,
    total: int,
    niceTry: bool,
    valid: bool)

  /** Counts above this are capped, and the roll is flagged "nice try". */
  const MaxDice: nat := 1000

  /** Only the lower-case key `f` is a fudge die; anything else goes through parseInt. */
  function FacesOf(numFaces: string): (f: Faces)
    ensures f.Fudge? <==> numFaces == "f"
    ensures numFaces != [] && AllDigits(numFaces) ==> f == Sides(DigitsValue(numFaces))
  {
    if numFaces == "f" then Fudge
    else match ParseInt(numFaces)
      case None => NotANumber
      case Some(n) => Sides(n)
  }

  predicate FacesAcceptable(f: Faces) {
    f.Fudge? || (f.Sides? && f.n > 1)
  }

  /** The DiceRoll constructor, given the options it builds. */
  function RollOf(numDice: string, numFaces: string, o: RollOptions): (r: DiceRoll)
    ensures r.raw == [] && r.kept == [] && r.total == 0 && r.rollOptions == o
    ensures r.niceTry ==> r.numberOfDice == Some(MaxDice as int)
    ensures r.valid ==> r.numberOfDice.Some? && 1 <= r.numberOfDice.value <= MaxDice
    ensures r.valid ==> FacesAcceptable(r.numberOfFaces) && o.valid
  {
    var given := ParseInt(if numDice == "" then "1" else numDice);
    var niceTry := given.Some? && given.value > MaxDice;
    var count := if niceTry then Some(MaxDice as int) else given;
    var faces := FacesOf(numFaces);
    DiceRoll(count, faces, o, [], [], 0, niceTry,
      count.Some? && FacesAcceptable(faces) && o.valid && count.value > 0)
  }

  /** new DiceRoll(numDice, numFaces, options): the options are scanned by their own constructor. */
  method NewRoll(numDice: string, numFaces: string, options: string) returns (r: DiceRoll)
    ensures r == RollOf(numDice, numFaces, OptionsOf(options))
  {
    var o := ParseRollOptions(options);
    r := RollOf(numDice, numFaces, o);
  }

  /**
   * A count written in digits (or left out, meaning 1) is that many dice, capped
   * at 1000 with the nice-try flag exactly when it was larger; the roll is valid
   * exactly when the count is not 0, the faces are `f` or more than one, and the
   * options are valid.
   */
  lemma RollCount(numDice: string, numFaces: string, o: RollOptions)
    requires AllDigits(numDice)
    ensures var r := RollOf(numDice, numFaces, o);
      var n := if numDice == "" then 1 else DigitsValue(numDice);
      && r.niceTry == (n > MaxDice)
      && r.numberOfDice == Some(if n > MaxDice then MaxDice else n)
      && (r.valid <==> n > 0 && o.valid && (numFaces == "f" || FacesAcceptable(FacesOf(numFaces))))
  {
    assert DigitsValue("1") == 1;
  }

  /** `F` passes the case-insensitive notation pattern but is not the key `f`: the roll is invalid. */
  lemma UpperCaseFudgeInvalid(numDice: string, o: RollOptions)
    ensures !RollOf(numDice, "F", o).valid
  {
    assert FacesOf("F") == NotANumber;
  }

  /** A one-sided die is rejected. */
  lemma OneFaceInvalid(numDice: string, o: RollOptions)
    ensures !RollOf(numDice, "1", o).valid
  {
    assert DigitsValue("1") == 1;
  }

  // ---------------------------------------------------------------------------
  // The reroll loop

  /** How many dice the loop collects: numberOfDice for a valid roll. */
  function Wanted(r: DiceRoll): nat {
    if r.numberOfDice.Some? && r.numberOfDice.value > 0 then r.numberOfDice.value else 0
  }

  /** The draws that pass the reroll check, in draw order: what the loop pushes onto currentRolls. */
  function Passed(o: RollOptions, ds: seq<int>): (p: seq<int>)
    ensures |p| <= |ds|
    ensures forall i | 0 <= i < |p| :: !NeedsReroll(o, p[i])
    decreases |ds|
  {
    if ds == [] then []
    else
      var last := ds[|ds| - 1];
      Passed(o, ds[..|ds| - 1]) + (if NeedsReroll(o, last) then [] else [last])
  }

  /** Every die that passed was drawn (as often as it passed). */
  lemma {:induction false} PassedSubMultiset(o: RollOptions, ds: seq<int>)
    ensures multiset(Passed(o, ds)) <= multiset(ds)
    decreases |ds|
  {
    if ds != [] {
      var init, last := ds[..|ds| - 1], ds[|ds| - 1];
      PassedSubMultiset(o, init);
      assert ds == init + [last];
      assert multiset(ds) == multiset(init) + multiset{last};
      var tail := if NeedsReroll(o, last) then [] else [last];
      assert Passed(o, ds) == Passed(o, init) + tail;
      assert multiset(tail) <= multiset{last};
    }
  }

  /** When every draw is rerolled, none passes. */
  lemma {:induction false} PassedNone(o: RollOptions, ds: seq<int>)
    requires forall i | 0 <= i < |ds| :: NeedsReroll(o, ds[i])
    ensures Passed(o, ds) == []
    decreases |ds|
  {
    if ds != [] {
      var init := ds[..|ds| - 1];
      assert forall i | 0 <= i < |init| :: init[i] == ds[i];
      PassedNone(o, init);
    }
  }

  lemma PassedStep(o: RollOptions, ds: seq<int>, j: nat)
    requires j < |ds|
    ensures Passed(o, ds[..j + 1]) == Passed(o, ds[..j]) + (if NeedsReroll(o, ds[j]) then [] else [ds[j]])
  {
    assert ds[..j + 1][..j] == ds[..j];
  }

  /** Filtering distributes over concatenation. */
  lemma {:induction false} PassedAppend(o: RollOptions, a: seq<int>, b: seq<int>)
    ensures Passed(o, a + b) == Passed(o, a) + Passed(o, b)
    decreases |b|
  {
    if b == [] {
      assert a + b == a;
    } else {
      var b' := b[..|b| - 1];
      var last := b[|b| - 1];
      PassedAppend(o, a, b');
      var tail := if NeedsReroll(o, last) then [] else [last];
      assert (a + b)[..|a + b| - 1] == a + b';
      assert (a + b)[|a + b| - 1] == last;
      calc {
        Passed(o, a + b);
        Passed(o, a + b') + tail;
        Passed(o, a) + Passed(o, b') + tail;
        Passed(o, a) + (Passed(o, b') + tail);
        Passed(o, a) + Passed(o, b);
      }
    }
  }

  /** A value survives the filter exactly when it was drawn and passes the reroll check. */
  lemma {:induction false} PassedMembers(o: RollOptions, ds: seq<int>, x: int)
    ensures x in Passed(o, ds) <==> x in ds && !NeedsReroll(o, x)
    decreases |ds|
  {
    if ds != [] {
      var init := ds[..|ds| - 1];
      PassedMembers(o, init, x);
      assert ds == init + [ds[|ds| - 1]];
    }
  }

  /**
   * The draws the loop consumes, searching from k: the shortest prefix of the
   * draws through which `want` dice pass, or None when the draws run out first.
   */
  function DrawsUsedFrom(o: RollOptions, want: nat, draws: seq<int>, k: nat): (n: Option<nat>)
    requires k <= |draws|
    ensures n.Some? ==> k <= n.value <= |draws| && |Passed(o, draws[..n.value])| >= want
    ensures n.Some? ==> forall j | k <= j < n.value :: |Passed(o, draws[..j])| < want
    ensures n.None? ==> forall j | k <= j <= |draws| :: |Passed(o, draws[..j])| < want
    decreases |draws| - k
  {
    if |Passed(o, draws[..k])| >= want then Some(k)
    else if k == |draws| then None
    else DrawsUsedFrom(o, want, draws, k + 1)
  }

  /** The loop stops the moment the count is reached, so exactly `want` dice have passed. */
  lemma DrawsUsedExact(o: RollOptions, want: nat, draws: seq<int>)
    requires DrawsUsedFrom(o, want, draws, 0).Some?
    ensures var k := DrawsUsedFrom(o, want, draws, 0).value;
      && |Passed(o, draws[..k])| == want
      && (k > 0 ==> !NeedsReroll(o, draws[k - 1]))
  {
    var k := DrawsUsedFrom(o, want, draws, 0).value;
    if k > 0 {
      PassedStep(o, draws, k - 1);
    } else {
      assert draws[..0] == [];
    }
  }

  /** The draws run out exactly when fewer than `want` of all of them pass. */
  lemma DrawsUsedNone(o: RollOptions, want: nat, draws: seq<int>)
    ensures DrawsUsedFrom(o, want, draws, 0).None? <==> |Passed(o, draws)| < want
  {
    assert draws[..|draws|] == draws;
    var n := DrawsUsedFrom(o, want, draws, 0);
    if n.Some? {
      var k := n.value;
      assert draws == draws[..k] + draws[k..];
      PassedAppend(o, draws[..k], draws[k..]);
    }
  }

  /** The outcome of drawing: the value and how many draws it used, or the draws ran out. */
  datatype Drawn<T> = Drawn(value: T, used: nat) | Exhausted

  /**
   * execute(): an invalid roll is left as it is. A valid roll draws until
   * numberOfDice draws have passed the reroll check, appending every draw to
   * raw; the passed dice are then cut down by keep/drop, as the code writes
   * it (sort without comparator, slice), and summed.
   */
  function ExecutedRoll(r: DiceRoll, draws: seq<int>): (d: Drawn<DiceRoll>)
    ensures d.Drawn? ==> d.used <= |draws|
  {
    if !r.valid then Drawn(r, 0)
    else match DrawsUsedFrom(r.rollOptions, Wanted(r), draws, 0)
      case None => Exhausted
      case Some(k) =>
        var kept := SelectAsWritten(r.rollOptions, Passed(r.rollOptions, draws[..k]));
        Drawn(r.(raw := r.raw + draws[..k], kept := kept, total := Sum(kept)), k)
  }

  /** The execute loop: one draw per pass until enough have passed the reroll check. */
  method ExecuteRoll(r: DiceRoll, draws: seq<int>) returns (out: Drawn<DiceRoll>)
    ensures out == ExecutedRoll(r, draws)
    ensures !r.valid ==> out == Drawn(r, 0)
  {
    if !r.valid {
      return Drawn(r, 0);
    }
    var o := r.rollOptions;
    var want := Wanted(r);
    var raw := r.raw;
    var currentRolls: seq<int> := [];
    var i := 0;
    while |currentRolls| < want
      invariant i <= |draws|
      invariant raw == r.raw + draws[..i]
      invariant currentRolls == Passed(o, draws[..i])
      invariant DrawsUsedFrom(o, want, draws, 0) == DrawsUsedFrom(o, want, draws, i)
      decreases |draws| - i
    {
      if i == |draws| {
        return Exhausted;
      }
      var d := draws[i];
      raw := raw + [d];
      var reroll := NeedReroll(o, d);
      if !reroll {
        currentRolls := currentRolls + [d];
      }
      PassedStep(o, draws, i);
      assert draws[..i + 1] == draws[..i] + [d];
      i := i + 1;
    }
    currentRolls := KeepRolls(o, currentRolls);
    currentRolls := DropRolls(o, currentRolls);
    out := Drawn(r.(raw := raw, kept := currentRolls, total := Sum(currentRolls)), i);
  }

  /** The `if (keep)` block of execute: sort without comparator, then slice off the dice to keep. */
  method KeepRolls(o: RollOptions, currentRolls: seq<int>) returns (kept: seq<int>)
    ensures kept == KeepStepAsWritten(o, currentRolls)
  {
    kept := currentRolls;
    if Active(o.keep) {
      var desiredLength := AmountOf(o.keep);
      var sorted := SortBy(Textual, currentRolls);
      if o.lowestRolls {
        kept := Slice(sorted, 0, desiredLength);
      } else {
        kept := Slice(sorted, |sorted| - desiredLength, |sorted|);
      }
      assert kept == KeepSlice(o, sorted);
    }
  }

  /** The `if (drop)` block of execute: sort without comparator, then slice away the dice to drop. */
  method DropRolls(o: RollOptions, currentRolls: seq<int>) returns (kept: seq<int>)
    ensures kept == DropStepAsWritten(o, currentRolls)
  {
    kept := currentRolls;
    if Active(o.drop) {
      var amtToDrop := AmountOf(o.drop);
      var sorted := SortBy(Textual, currentRolls);
      if o.lowestRolls {
        kept := Slice(sorted, amtToDrop, |sorted|);
      } else {
        kept := Slice(sorted, 0, |sorted| - amtToDrop);
      }
      assert kept == DropSlice(o, sorted);
    }
  }

  // ---------------------------------------------------------------------------
  // Sorting

  /** The order a sort puts values in: numeric, or the decimal-string order of a sort without comparator. */
  datatype Order = Numeric | Textual

  predicate Before(ord: Order, a: int, b: int) {
    match ord
    case Numeric => a < b
    case Textual => StringLess(IntToString(a), IntToString(b))
  }

  function Insert(ord: Order, x: int, s: seq<int>): (r: seq<int>)
    ensures |r| == |s| + 1
    decreases |s|
  {
    if s == [] then [x]
    else if Before(ord, s[0], x) then [s[0]] + Insert(ord, x, s[1..])
    else [x] + s
  }

  function SortBy(ord: Order, s: seq<int>): (r: seq<int>)
    ensures |r| == |s|
    decreases |s|
  {
    if s == [] then [] else Insert(ord, s[0], SortBy(ord, s[1..]))
  }

  lemma {:induction false} InsertPermutes(ord: Order, x: int, s: seq<int>)
    ensures multiset(Insert(ord, x, s)) == multiset(s) + multiset{x}
    decreases |s|
  {
    if s != [] {
      assert s == [s[0]] + s[1..];
      if Before(ord, s[0], x) {
        InsertPermutes(ord, x, s[1..]);
      }
    }
  }

  /** Sorting, in either order, rearranges the values and neither adds nor loses any. */
  lemma {:induction false} SortPermutes(ord: Order, s: seq<int>)
    ensures multiset(SortBy(ord, s)) == multiset(s)
    decreases |s|
  {
    if s != [] {
      assert s == [s[0]] + s[1..];
      SortPermutes(ord, s[1..]);
      InsertPermutes(ord, s[0], SortBy(ord, s[1..]));
    }
  }

  predicate Ascending(s: seq<int>) {
    forall i, j | 0 <= i < j < |s| :: s[i] <= s[j]
  }

  /** Inserting a value no smaller than a bound into values no smaller than it keeps them all above the bound. */
  lemma {:induction false} InsertLowerBound(x: int, s: seq<int>, lo: int)
    requires lo <= x && forall i | 0 <= i < |s| :: lo <= s[i]
    ensures forall i | 0 <= i < |Insert(Numeric, x, s)| :: lo <= Insert(Numeric, x, s)[i]
    decreases |s|
  {
    var r := Insert(Numeric, x, s);
    if s != [] && s[0] < x {
      var tail := Insert(Numeric, x, s[1..]);
      InsertLowerBound(x, s[1..], lo);
      assert r == [s[0]] + tail;
      forall i | 0 <= i < |r|
        ensures lo <= r[i]
      {
        if i > 0 {
          assert r[i] == tail[i - 1];
        }
      }
    }
  }

  lemma {:induction false} InsertAscending(x: int, s: seq<int>)
    requires Ascending(s)
    ensures Ascending(Insert(Numeric, x, s))
    decreases |s|
  {
    if s != [] && s[0] < x {
      var tail := Insert(Numeric, x, s[1..]);
      assert Ascending(s[1..]);
      InsertAscending(x, s[1..]);
      InsertLowerBound(x, s[1..], s[0]);
      var r := [s[0]] + tail;
      forall i, j | 0 <= i < j < |r|
        ensures r[i] <= r[j]
      {
        assert r[j] == tail[j - 1];
        if i > 0 {
          assert r[i] == tail[i - 1];
        }
      }
    }
  }

  /** Sorting numerically yields an ascending permutation. */
  lemma {:induction false} SortAscending(s: seq<int>)
    ensures Ascending(SortBy(Numeric, s))
    decreases |s|
  {
    if s != [] {
      SortAscending(s[1..]);
      InsertAscending(s[0], SortBy(Numeric, s[1..]));
    }
  }

  /** Each value's text is at or after the text of every value before it. */
  predicate TextAscending(s: seq<int>) {
    forall i, j | 0 <= i < j < |s| :: !StringLess(IntToString(s[j]), IntToString(s[i]))
  }

  /** Text order is asymmetric between values, and "at or after" chains. */
  lemma TextualOrder(a: int, b: int, c: int)
    ensures !(Before(Textual, a, b) && Before(Textual, b, a))
    ensures !Before(Textual, b, a) && !Before(Textual, c, b) ==> !Before(Textual, c, a)
  {
    StringLessAsym(IntToString(a), IntToString(b));
    if !Before(Textual, b, a) && !Before(Textual, c, b) {
      NotBelowTrans(IntToString(a), IntToString(b), IntToString(c));
    }
  }

  /** No value comes before a value that comes before it, and "at or after" chains. */
  ghost predicate OrderLaws(ord: Order) {
    && (forall a, b :: !(Before(ord, a, b) && Before(ord, b, a)))
    && (forall a, b, c :: !Before(ord, b, a) && !Before(ord, c, b) ==> !Before(ord, c, a))
  }

  /** No later value comes before an earlier one. */
  predicate InOrder(ord: Order, s: seq<int>) {
    forall i, j | 0 <= i < j < |s| :: !Before(ord, s[j], s[i])
  }

  /** Text order obeys the order laws. */
  lemma TextualLaws()
    ensures OrderLaws(Textual)
  {
    forall a, b, c
      ensures !(Before(Textual, a, b) && Before(Textual, b, a))
      ensures !Before(Textual, b, a) && !Before(Textual, c, b) ==> !Before(Textual, c, a)
    {
      TextualOrder(a, b, c);
    }
  }

  /** Inserting a value not before a bound into values not before it gives values not before it. */
  lemma {:induction false} InsertNotBefore(ord: Order, x: int, s: seq<int>, lo: int)
    requires !Before(ord, x, lo) && forall i | 0 <= i < |s| :: !Before(ord, s[i], lo)
    ensures forall i | 0 <= i < |Insert(ord, x, s)| :: !Before(ord, Insert(ord, x, s)[i], lo)
    decreases |s|
  {
    if s != [] && Before(ord, s[0], x) {
      var tail := Insert(ord, x, s[1..]);
      InsertNotBefore(ord, x, s[1..], lo);
      assert Insert(ord, x, s) == [s[0]] + tail;
    }
  }

  /** Inserting into values in order keeps them in order, for any order obeying the laws. */
  lemma {:induction false} InsertInOrder(ord: Order, x: int, s: seq<int>)
    requires OrderLaws(ord) && InOrder(ord, s)
    ensures InOrder(ord, Insert(ord, x, s))
    decreases |s|
  {
    if s != [] {
      if Before(ord, s[0], x) {
        var tail := Insert(ord, x, s[1..]);
        InsertInOrder(ord, x, s[1..]);
        assert !Before(ord, x, s[0]);
        InsertNotBefore(ord, x, s[1..], s[0]);
        var r := [s[0]] + tail;
        forall i, j | 0 <= i < j < |r|
          ensures !Before(ord, r[j], r[i])
        {
          assert r[j] == tail[j - 1];
          if i > 0 {
            assert r[i] == tail[i - 1];
          }
        }
        assert Insert(ord, x, s) == r;
      } else {
        var r := [x] + s;
        forall i, j | 0 <= i < j < |r|
          ensures !Before(ord, r[j], r[i])
        {
          assert r[j] == s[j - 1];
          if i > 0 {
            assert r[i] == s[i - 1];
          } else if j > 1 {
            assert !Before(ord, s[j - 1], s[0]);
          }
        }
      }
    }
  }

  /** Sorting with any order obeying the laws puts the values in that order. */
  lemma {:induction false} SortInOrder(ord: Order, s: seq<int>)
    requires OrderLaws(ord)
    ensures InOrder(ord, SortBy(ord, s))
    decreases |s|
  {
    if s != [] {
      SortInOrder(ord, s[1..]);
      InsertInOrder(ord, s[0], SortBy(ord, s[1..]));
    }
  }

  /** Sorting without a comparator yields the values in ascending order of their decimal text. */
  lemma SortTextAscending(s: seq<int>)
    ensures TextAscending(SortBy(Textual, s))
  {
    TextualLaws();
    SortInOrder(Textual, s);
  }

  // ---------------------------------------------------------------------------
  // Keep and drop

  /** What `if (keep)` and `if (drop)` see: an amount that is not 0, or `true` (requested, not parsed). */
  predicate Active(s: Setting) {
    s.Requested? || (s.Amount? && s.n > 0)
  }

  /** The number slice() receives; `true` converts to 1. */
  function AmountOf(s: Setting): nat {
    if s.Amount? then s.n else 1
  }

  function Min(a: nat, b: nat): nat {
    if a <= b then a else b
  }

  /**
   * Keep, as intended: sort numerically and take the `keep` lowest or highest,
   * a count larger than the roll keeping all of it.
   */
  function KeepStep(o: RollOptions, rolls: seq<int>): (kept: seq<int>)
    ensures multiset(kept) <= multiset(rolls)
  {
    if !Active(o.keep) then rolls
    else
      SortPermutes(Numeric, rolls);
      KeepCut(o, SortBy(Numeric, rolls))
  }

  /** The `keep` lowest (`kl`) or highest of sorted rolls, all of them when there are fewer. */
  function KeepCut(o: RollOptions, sorted: seq<int>): (kept: seq<int>)
    ensures multiset(kept) <= multiset(sorted)
  {
    var m := Min(AmountOf(o.keep), |sorted|);
    var cut := if o.lowestRolls then m else |sorted| - m;
    assert sorted == sorted[..cut] + sorted[cut..];
    if o.lowestRolls then sorted[..m] else sorted[|sorted| - m..]
  }

  /** Drop, as intended: sort numerically and discard the `drop` lowest or highest, at most all of them. */
  function DropStep(o: RollOptions, rolls: seq<int>): (kept: seq<int>)
    ensures multiset(kept) <= multiset(rolls)
  {
    if !Active(o.drop) then rolls
    else
      SortPermutes(Numeric, rolls);
      DropCut(o, SortBy(Numeric, rolls))
  }

  /** Sorted rolls without the `drop` lowest (`d`/`dl`) or highest (`dh`), none when there are fewer. */
  function DropCut(o: RollOptions, sorted: seq<int>): (kept: seq<int>)
    ensures multiset(kept) <= multiset(sorted)
  {
    var m := Min(AmountOf(o.drop), |sorted|);
    var cut := if o.lowestRolls then m else |sorted| - m;
    assert sorted == sorted[..cut] + sorted[cut..];
    if o.lowestRolls then sorted[m..] else sorted[..|sorted| - m]
  }

  /** The corrected selection: keep, then drop; the kept dice are always some of the rolls. */
  function Select(o: RollOptions, rolls: seq<int>): (kept: seq<int>)
    ensures multiset(kept) <= multiset(rolls)
  {
    DropStep(o, KeepStep(o, rolls))
  }

  /**
   * `kept` is `size` of the rolls, and every one of them is at least (highest)
   * or at most (lowest) every roll that was discarded.
   */
  predicate ExtremeChoice(kept: seq<int>, rolls: seq<int>, size: nat, highest: bool) {
    && |kept| == size
    && multiset(kept) <= multiset(rolls)
    && forall x, y | x in kept && y in multiset(rolls) - multiset(kept) :: if highest then y <= x else x <= y
  }

  /** Cutting an ascending sequence at m: the lower part is below the upper part, and they make up the whole. */
  lemma SplitAscending(s: seq<int>, m: nat)
    requires Ascending(s) && m <= |s|
    ensures multiset(s[..m]) + multiset(s[m..]) == multiset(s)
    ensures forall x, y | x in s[..m] && y in s[m..] :: x <= y
  {
    assert s == s[..m] + s[m..];
    forall x, y | x in s[..m] && y in s[m..]
      ensures x <= y
    {
      var i :| 0 <= i < m && s[..m][i] == x;
      var j :| 0 <= j < |s| - m && s[m..][j] == y;
      assert s[i] == x && s[m + j] == y;
    }
  }

  /** Taking the lower part m of the numerically sorted rolls is the lowest-m choice, the upper part the highest. */
  lemma SortedSplitChoice(rolls: seq<int>, m: nat)
    requires m <= |rolls|
    ensures var sorted := SortBy(Numeric, rolls);
      && ExtremeChoice(sorted[..m], rolls, m, false)
      && ExtremeChoice(sorted[m..], rolls, |rolls| - m, true)
  {
    var sorted := SortBy(Numeric, rolls);
    SortAscending(rolls);
    SortPermutes(Numeric, rolls);
    SplitAscending(sorted, m);
    var lo, hi := sorted[..m], sorted[m..];
    assert multiset(rolls) - multiset(lo) == multiset(hi);
    assert multiset(rolls) - multiset(hi) == multiset(lo);
    forall x, y | x in lo && y in multiset(rolls) - multiset(lo)
      ensures x <= y
    {
      assert y in hi;
    }
    forall x, y | x in hi && y in multiset(rolls) - multiset(hi)
      ensures y <= x
    {
      assert y in lo;
    }
  }

  /**
   * The intended keep/drop selection. With at most one of keep and drop set
   * (as valid options guarantee): `k`/`kh` N keeps the N highest rolls and
   * `kl` N the N lowest; `d`/`dl` N drops the N lowest and `dh` N the N highest;
   * counts above the number of rolls take or discard all of them. Without
   * either, the rolls are kept as drawn.
   */
  lemma SelectChoice(o: RollOptions, rolls: seq<int>)
    requires !(Active(o.keep) && Active(o.drop))
    ensures Active(o.keep) ==>
      ExtremeChoice(Select(o, rolls), rolls, Min(AmountOf(o.keep), |rolls|), !o.lowestRolls)
    ensures Active(o.drop) ==>
      ExtremeChoice(Select(o, rolls), rolls, |rolls| - Min(AmountOf(o.drop), |rolls|), o.lowestRolls)
    ensures !Active(o.keep) && !Active(o.drop) ==> Select(o, rolls) == rolls
  {
    if Active(o.keep) {
      KeepChoice(o, rolls);
    } else if Active(o.drop) {
      DropChoice(o, rolls);
    }
  }

  lemma KeepChoice(o: RollOptions, rolls: seq<int>)
    requires Active(o.keep) && !Active(o.drop)
    ensures ExtremeChoice(Select(o, rolls), rolls, Min(AmountOf(o.keep), |rolls|), !o.lowestRolls)
  {
    var sorted := SortBy(Numeric, rolls);
    var m := Min(AmountOf(o.keep), |rolls|);
    var kept := Select(o, rolls);
    assert kept == KeepStep(o, rolls);
    if o.lowestRolls {
      assert kept == sorted[..m];
      SortedSplitChoice(rolls, m);
      assert ExtremeChoice(kept, rolls, m, false);
    } else {
      var cut := |rolls| - m;
      assert kept == sorted[cut..];
      SortedSplitChoice(rolls, cut);
      assert |rolls| - cut == m;
      assert ExtremeChoice(kept, rolls, m, true);
    }
  }

  lemma DropChoice(o: RollOptions, rolls: seq<int>)
    requires Active(o.drop) && !Active(o.keep)
    ensures ExtremeChoice(Select(o, rolls), rolls, |rolls| - Min(AmountOf(o.drop), |rolls|), o.lowestRolls)
  {
    var sorted := SortBy(Numeric, rolls);
    var m := Min(AmountOf(o.drop), |rolls|);
    var kept := Select(o, rolls);
    assert kept == DropStep(o, rolls);
    if o.lowestRolls {
      assert kept == sorted[m..];
      SortedSplitChoice(rolls, m);
      assert ExtremeChoice(kept, rolls, |rolls| - m, true);
    } else {
      var cut := |rolls| - m;
      assert kept == sorted[..cut];
      SortedSplitChoice(rolls, cut);
      assert ExtremeChoice(kept, rolls, cut, false);
    }
  }

  /** Keeping the N highest and dropping the (count - N) lowest keep the same dice. */
  lemma KeepHighestIsDropLowest(o: RollOptions, o': RollOptions, rolls: seq<int>, n: nat)
    requires n <= |rolls| && 0 < |rolls| - n
    requires o.keep == Amount(n) && 0 < n && o.drop == Unset && !o.lowestRolls
    requires o'.drop == Amount(|rolls| - n) && o'.keep == Unset && o'.lowestRolls
    ensures Select(o, rolls) == Select(o', rolls)
  {
    var sorted := SortBy(Numeric, rolls);
    assert KeepStep(o, rolls) == sorted[|rolls| - n..];
    assert Select(o, rolls) == KeepStep(o, rolls);
    assert DropStep(o', rolls) == sorted[|rolls| - n..];
    assert Select(o', rolls) == DropStep(o', rolls);
  }

  // ---------------------------------------------------------------------------
  // Keep and drop as written: default sort order and slice's negative indices

  /** How slice() resolves an index: negative counts from the end, and both ends clamp to the sequence. */
  function SliceIndex(i: int, len: nat): (k: nat)
    ensures k <= len
    ensures 0 <= i <= len ==> k == i
  {
    if i < 0 then (if len + i < 0 then 0 else len + i)
    else if i > len then len
    else i
  }

  function Slice(s: seq<int>, start: int, end: int): (r: seq<int>)
    ensures multiset(r) <= multiset(s)
  {
    var b := SliceIndex(start, |s|);
    var e := SliceIndex(end, |s|);
    if b < e then
      assert s == s[..b] + s[b..e] + s[e..];
      s[b..e]
    else []
  }

  function KeepStepAsWritten(o: RollOptions, rolls: seq<int>): seq<int> {
    if !Active(o.keep) then rolls else KeepSlice(o, SortBy(Textual, rolls))
  }

  /** The slice `keep` takes from sorted rolls: the first N for `kl`, the last N otherwise. */
  function KeepSlice(o: RollOptions, sorted: seq<int>): seq<int> {
    var n := AmountOf(o.keep);
    if o.lowestRolls then Slice(sorted, 0, n) else Slice(sorted, |sorted| - n, |sorted|)
  }

  function DropStepAsWritten(o: RollOptions, rolls: seq<int>): seq<int> {
    if !Active(o.drop) then rolls else DropSlice(o, SortBy(Textual, rolls))
  }

  /** The slice `drop` leaves of sorted rolls: all but the first N for `d`/`dl`, all but the last N for `dh`. */
  function DropSlice(o: RollOptions, sorted: seq<int>): seq<int> {
    var n := AmountOf(o.drop);
    if o.lowestRolls then Slice(sorted, n, |sorted|) else Slice(sorted, 0, |sorted| - n)
  }

  /** The selection as the code writes it. */
  function SelectAsWritten(o: RollOptions, rolls: seq<int>): seq<int> {
    DropStepAsWritten(o, KeepStepAsWritten(o, rolls))
  }

  /** Whatever the order, the dice kept as written are some of the rolls. */
  lemma SelectAsWrittenKeepsRolls(o: RollOptions, rolls: seq<int>)
    ensures multiset(SelectAsWritten(o, rolls)) <= multiset(rolls)
  {
    var kept := KeepStepAsWritten(o, rolls);
    SortPermutes(Textual, rolls);
    SortPermutes(Textual, kept);
    assert multiset(kept) <= multiset(rolls);
  }

  /** As written too, keeping the N highest keeps the same dice as dropping the count−N lowest. */
  lemma KeepHighestIsDropLowestAsWritten(o: RollOptions, o': RollOptions, rolls: seq<int>, n: nat)
    requires n <= |rolls| && 0 < |rolls| - n
    requires o.keep == Amount(n) && 0 < n && o.drop == Unset && !o.lowestRolls
    requires o'.drop == Amount(|rolls| - n) && o'.keep == Unset && o'.lowestRolls
    ensures SelectAsWritten(o, rolls) == SelectAsWritten(o', rolls)
  {
    var sorted := SortBy(Textual, rolls);
    assert KeepStepAsWritten(o, rolls) == Slice(sorted, |rolls| - n, |rolls|);
    assert SelectAsWritten(o, rolls) == KeepStepAsWritten(o, rolls);
    assert DropStepAsWritten(o', rolls) == Slice(sorted, |rolls| - n, |rolls|);
    assert SelectAsWritten(o', rolls) == DropStepAsWritten(o', rolls);
  }

  lemma SmallNumbersText()
    ensures IntToString(1) == "1" && IntToString(2) == "2" && IntToString(3) == "3"
    ensures IntToString(5) == "5" && IntToString(18) == "18"
  {
    assert NatToString(1) == "1";
    assert NatToString(18) == NatToString(1) + [DigitChar(8)];
  }

  /** Without a comparator, 18 sorts before 5 ("1" < "5"); numerically it is the other way round. */
  lemma SortFiveEighteen()
    ensures SortBy(Textual, [5, 18]) == [18, 5]
    ensures SortBy(Numeric, [5, 18]) == [5, 18]
  {
    SmallNumbersText();
    assert [5, 18][1..] == [18];
    assert SortBy(Textual, [18]) == [18];
    assert SortBy(Numeric, [18]) == [18];
    assert StringLess("18", "5");
  }

  /** A sequence whose tail is sorted and whose head does not sort after the tail's head is already sorted. */
  lemma SortedAlready(ord: Order, s: seq<int>)
    requires s != [] && SortBy(ord, s[1..]) == s[1..]
    requires |s| > 1 ==> !Before(ord, s[1], s[0])
    ensures SortBy(ord, s) == s
  {
    assert s == [s[0]] + s[1..];
  }

  lemma SortOneTwoThree(s: seq<int>)
    requires |s| == 3 && s[0] == 1 && s[1] == 2 && s[2] == 3
    ensures SortBy(Textual, s) == s
    ensures SortBy(Numeric, s) == s
  {
    SmallNumbersText();
    assert !StringLess("3", "2") && !StringLess("2", "1");
    var t := s[1..];
    assert t[1..] == s[2..] && t[0] == 2 && t[1] == 3;
    assert s[2..][1..] == [];
    SortedAlready(Textual, s[2..]);
    SortedAlready(Textual, t);
    SortedAlready(Textual, s);
    SortedAlready(Numeric, s[2..]);
    SortedAlready(Numeric, t);
    SortedAlready(Numeric, s);
  }

  /** slice(-k): a negative start counts back from the end. */
  lemma SliceFromEnd(s: seq<int>, k: int)
    requires 0 < k <= |s|
    ensures Slice(s, -k, |s|) == s[|s| - k..]
  {
  }

  /** slice(0, -k): a negative end stops short of the end. */
  lemma SliceBeforeEnd(s: seq<int>, k: int)
    requires 0 < k <= |s|
    ensures Slice(s, 0, -k) == s[..|s| - k]
  {
  }

  /** Keeping the highest of [5, 18] as written keeps 5; the intended selection keeps 18. */
  lemma TextualSortKeepsWrongDie(o: RollOptions)
    requires o.keep == Amount(1) && o.drop == Unset && !o.lowestRolls
    ensures SelectAsWritten(o, [5, 18]) == [5]
    ensures Select(o, [5, 18]) == [18]
  {
    SortFiveEighteen();
    assert [18, 5][1..2] == [5];
    assert [5, 18][1..] == [18];
  }

  /** Keeping 4 of the 3 dice [1, 2, 3] as written: slice(3 - 4) counts from the end and keeps only the highest die. */
  lemma OverlongKeepWraps(o: RollOptions, rolls: seq<int>)
    requires o.keep == Amount(4) && o.drop == Unset && !o.lowestRolls
    requires |rolls| == 3 && rolls[0] == 1 && rolls[1] == 2 && rolls[2] == 3
    ensures SelectAsWritten(o, rolls) == [3]
    ensures Select(o, rolls) == rolls
  {
    SortOneTwoThree(rolls);
    OverlongKeepAsWritten(o, rolls);
    assert KeepStep(o, rolls) == rolls[0..];
  }

  lemma OverlongKeepAsWritten(o: RollOptions, rolls: seq<int>)
    requires o.keep == Amount(4) && o.drop == Unset && !o.lowestRolls
    requires |rolls| == 3 && rolls[2] == 3 && SortBy(Textual, rolls) == rolls
    ensures SelectAsWritten(o, rolls) == [3]
  {
    KeepHighestAsWritten(o, rolls);
    LastOfThree(rolls);
  }

  /** slice(-1) of three values is the last one. */
  lemma LastOfThree(s: seq<int>)
    requires |s| == 3 && s[2] == 3
    ensures Slice(s, 3 - 4, 3) == [3]
  {
    SliceFromEnd(s, 1);
    assert |s[2..]| == 1 && s[2..][0] == 3;
  }

  /** `kh` N as written, without a drop: the slice from N before the end of the string-sorted rolls. */
  lemma KeepHighestAsWritten(o: RollOptions, rolls: seq<int>)
    requires o.keep.Amount? && o.keep.n > 0 && o.drop == Unset && !o.lowestRolls
    ensures SelectAsWritten(o, rolls) == Slice(SortBy(Textual, rolls), |rolls| - o.keep.n, |rolls|)
  {
    KeepHighestStepAsWritten(o, rolls);
    NoDropAsWritten(o, KeepStepAsWritten(o, rolls));
  }

  /** `dh` N as written, without a keep: the slice up to N before the end of the string-sorted rolls. */
  lemma DropHighestAsWritten(o: RollOptions, rolls: seq<int>)
    requires o.drop.Amount? && o.drop.n > 0 && o.keep == Unset && !o.lowestRolls
    ensures SelectAsWritten(o, rolls) == Slice(SortBy(Textual, rolls), 0, |rolls| - o.drop.n)
  {
    NoKeepAsWritten(o, rolls);
    DropHighestStepAsWritten(o, rolls);
  }

  lemma KeepHighestStepAsWritten(o: RollOptions, rolls: seq<int>)
    requires o.keep.Amount? && o.keep.n > 0 && !o.lowestRolls
    ensures KeepStepAsWritten(o, rolls) == Slice(SortBy(Textual, rolls), |rolls| - o.keep.n, |rolls|)
  {
    var sorted := SortBy(Textual, rolls);
    assert |sorted| == |rolls|;
    assert KeepStepAsWritten(o, rolls) == KeepSlice(o, sorted);
  }

  lemma DropHighestStepAsWritten(o: RollOptions, rolls: seq<int>)
    requires o.drop.Amount? && o.drop.n > 0 && !o.lowestRolls
    ensures DropStepAsWritten(o, rolls) == Slice(SortBy(Textual, rolls), 0, |rolls| - o.drop.n)
  {
    var sorted := SortBy(Textual, rolls);
    assert |sorted| == |rolls|;
    assert DropStepAsWritten(o, rolls) == DropSlice(o, sorted);
  }

  lemma NoKeepAsWritten(o: RollOptions, rolls: seq<int>)
    requires !Active(o.keep)
    ensures KeepStepAsWritten(o, rolls) == rolls
  {
  }

  lemma NoDropAsWritten(o: RollOptions, rolls: seq<int>)
    requires !Active(o.drop)
    ensures DropStepAsWritten(o, rolls) == rolls
  {
  }

  /** Dropping the 4 highest of the 3 dice [1, 2, 3] as written: slice(0, 3 - 4) ends one from the end and keeps two. */
  lemma OverlongDropHighestWraps(o: RollOptions, rolls: seq<int>)
    requires o.drop == Amount(4) && o.keep == Unset && !o.lowestRolls
    requires |rolls| == 3 && rolls[0] == 1 && rolls[1] == 2 && rolls[2] == 3
    ensures SelectAsWritten(o, rolls) == [1, 2]
    ensures Select(o, rolls) == []
  {
    SortOneTwoThree(rolls);
    OverlongDropAsWritten(o, rolls);
    assert DropStep(o, rolls) == rolls[..0];
  }

  lemma OverlongDropAsWritten(o: RollOptions, rolls: seq<int>)
    requires o.drop == Amount(4) && o.keep == Unset && !o.lowestRolls
    requires |rolls| == 3 && rolls[0] == 1 && rolls[1] == 2 && SortBy(Textual, rolls) == rolls
    ensures SelectAsWritten(o, rolls) == [1, 2]
  {
    DropHighestAsWritten(o, rolls);
    FirstTwoOfThree(rolls);
  }

  /** slice(0, -1) of three values is the first two. */
  lemma FirstTwoOfThree(s: seq<int>)
    requires |s| == 3 && s[0] == 1 && s[1] == 2
    ensures Slice(s, 0, 3 - 4) == [1, 2]
  {
    SliceBeforeEnd(s, 1);
    assert |s[..2]| == 2 && s[..2][0] == 1 && s[..2][1] == 2;
  }

  // ---------------------------------------------------------------------------
  // Where the code's selection is the intended one: one-character dice

  /** A die showing -1 to 9 (a fudge die, or at most nine faces). */
  predicate SmallDie(v: int) {
    -1 <= v <= 9
  }

  /** Values from -1 to 9 are ordered the same way as text and as numbers. */
  lemma SmallTextOrder(a: int, b: int)
    requires SmallDie(a) && SmallDie(b)
    ensures Before(Textual, a, b) <==> a < b
  {
    var ta, tb := IntToString(a), IntToString(b);
    assert a >= 0 ==> ta == [DigitChar(a)];
    assert b >= 0 ==> tb == [DigitChar(b)];
    assert a < 0 ==> ta == "-" + [DigitChar(1)];
    assert b < 0 ==> tb == "-" + [DigitChar(1)];
    if a >= 0 && b >= 0 {
      assert ta[1..] == [] && tb[1..] == [];
    } else if a < 0 && b < 0 {
      assert ta[1..] == tb[1..];
    }
  }

  lemma {:induction false} InsertSmallSame(x: int, s: seq<int>)
    requires SmallDie(x) && forall i | 0 <= i < |s| :: SmallDie(s[i])
    ensures Insert(Textual, x, s) == Insert(Numeric, x, s)
    decreases |s|
  {
    if s != [] {
      SmallTextOrder(s[0], x);
      InsertSmallSame(x, s[1..]);
    }
  }

  /** On dice from -1 to 9, the sort without comparator is the numeric sort. */
  lemma {:induction false} SortSmallSame(s: seq<int>)
    requires forall i | 0 <= i < |s| :: SmallDie(s[i])
    ensures SortBy(Textual, s) == SortBy(Numeric, s)
    decreases |s|
  {
    if s != [] {
      var tail := SortBy(Numeric, s[1..]);
      SortSmallSame(s[1..]);
      SortPermutes(Numeric, s[1..]);
      SubMultisetInRange(tail, s[1..], -1, 9);
      InsertSmallSame(s[0], tail);
    }
  }

  /**
   * For dice showing -1 to 9 and counts no larger than the number of rolls,
   * the selection as written is the intended one, so SelectChoice describes it.
   */
  lemma AsWrittenIsIntended(o: RollOptions, rolls: seq<int>)
    requires forall i | 0 <= i < |rolls| :: SmallDie(rolls[i])
    requires !(Active(o.keep) && Active(o.drop))
    requires Active(o.keep) ==> AmountOf(o.keep) <= |rolls|
    requires Active(o.drop) ==> AmountOf(o.drop) <= |rolls|
    ensures SelectAsWritten(o, rolls) == Select(o, rolls)
  {
    SortSmallSame(rolls);
    var sorted := SortBy(Numeric, rolls);
    if Active(o.keep) {
      KeepAsIntended(o, sorted);
      assert KeepStepAsWritten(o, rolls) == KeepStep(o, rolls);
      NoDropAsWritten(o, KeepStepAsWritten(o, rolls));
    } else {
      NoKeepAsWritten(o, rolls);
      if Active(o.drop) {
        DropAsIntended(o, sorted);
      }
    }
  }

  /** slice() with indices inside the sequence is plain subsequence. */
  lemma SliceInRange(s: seq<int>, b: int, e: int)
    requires 0 <= b <= e <= |s|
    ensures Slice(s, b, e) == s[b..e]
  {
  }

  /** With N at most the number of rolls, the slice keep takes is the intended cut. */
  lemma KeepAsIntended(o: RollOptions, sorted: seq<int>)
    requires AmountOf(o.keep) <= |sorted|
    ensures KeepSlice(o, sorted) == KeepCut(o, sorted)
  {
    var n := AmountOf(o.keep);
    if o.lowestRolls {
      SliceInRange(sorted, 0, n);
    } else {
      SliceInRange(sorted, |sorted| - n, |sorted|);
    }
  }

  /** With N at most the number of rolls, the slice drop leaves is the intended cut. */
  lemma DropAsIntended(o: RollOptions, sorted: seq<int>)
    requires AmountOf(o.drop) <= |sorted|
    ensures DropSlice(o, sorted) == DropCut(o, sorted)
  {
    var n := AmountOf(o.drop);
    if o.lowestRolls {
      SliceInRange(sorted, n, |sorted|);
    } else {
      SliceInRange(sorted, 0, |sorted| - n);
    }
  }

  /**
   * After a roll of such dice executes, `k`/`kh` N keeps the N highest dice
   * that passed, `kl` N the N lowest, `d`/`dl` N drops the N lowest and `dh` N
   * the N highest.
   */
  lemma SmallDiceChooseExtremes(r: DiceRoll, draws: seq<int>)
    requires r.valid && ExecutedRoll(r, draws).Drawn?
    requires forall i | 0 <= i < |draws| :: SmallDie(draws[i])
    requires !(Active(r.rollOptions.keep) && Active(r.rollOptions.drop))
    requires Active(r.rollOptions.keep) ==> AmountOf(r.rollOptions.keep) <= Wanted(r)
    requires Active(r.rollOptions.drop) ==> AmountOf(r.rollOptions.drop) <= Wanted(r)
    ensures var o := r.rollOptions;
      var kept := ExecutedRoll(r, draws).value.kept;
      var passed := Passed(o, draws[..ExecutedRoll(r, draws).used]);
      && (Active(o.keep) ==> ExtremeChoice(kept, passed, AmountOf(o.keep), !o.lowestRolls))
      && (Active(o.drop) ==> ExtremeChoice(kept, passed, |passed| - AmountOf(o.drop), o.lowestRolls))
  {
    var o := r.rollOptions;
    var k := ExecutedRoll(r, draws).used;
    var prefix := draws[..k];
    var passed := Passed(o, prefix);
    ExecutedRollDraws(r, draws);
    assert ExecutedRoll(r, draws).value.kept == SelectAsWritten(o, passed);
    PassedSubMultiset(o, prefix);
    SubMultisetInRange(passed, prefix, -1, 9);
    SmallPassedChoice(o, passed);
  }

  /** The sequence half of the lemma above: on small dice the written steps choose the extremes. */
  lemma SmallPassedChoice(o: RollOptions, passed: seq<int>)
    requires forall i | 0 <= i < |passed| :: SmallDie(passed[i])
    requires !(Active(o.keep) && Active(o.drop))
    requires Active(o.keep) ==> AmountOf(o.keep) <= |passed|
    requires Active(o.drop) ==> AmountOf(o.drop) <= |passed|
    ensures Active(o.keep) ==> ExtremeChoice(SelectAsWritten(o, passed), passed, AmountOf(o.keep), !o.lowestRolls)
    ensures Active(o.drop) ==> ExtremeChoice(SelectAsWritten(o, passed), passed, |passed| - AmountOf(o.drop), o.lowestRolls)
  {
    AsWrittenIsIntended(o, passed);
    SelectChoice(o, passed);
  }

  /** `kh1`, `k4` and `dh4` parse to the settings the three lemmas above take. */
  lemma FindingOptions()
    ensures var o := OptionsOf("kh1"); o.valid && o.keep == Amount(1) && o.drop == Unset && !o.lowestRolls
    ensures var o := OptionsOf("k4"); o.valid && o.keep == Amount(4) && o.drop == Unset && !o.lowestRolls
    ensures var o := OptionsOf("dh4"); o.valid && o.drop == Amount(4) && o.keep == Unset && !o.lowestRolls
  {
    KeepDropForm('k', "h", "1");
    assert ['k'] + "h" + "1" == "kh1";
    KeepDropForm('k', "", "4");
    assert ['k'] + "" + "4" == "k4";
    KeepDropForm('d', "h", "4");
    assert ['d'] + "h" + "4" == "dh4";
    assert DigitsValue("1") == 1 && DigitsValue("4") == 4;
  }

  // ---------------------------------------------------------------------------
  // Total and rendering

  function Sum(xs: seq<int>): int
    decreases |xs|
  {
    if xs == [] then 0 else xs[0] + Sum(xs[1..])
  }

  lemma {:induction false} SumBounds(xs: seq<int>, lo: int, hi: int)
    requires forall i | 0 <= i < |xs| :: lo <= xs[i] <= hi
    ensures |xs| * lo <= Sum(xs) <= |xs| * hi
    decreases |xs|
  {
    if xs != [] {
      SumBounds(xs[1..], lo, hi);
      assert |xs| * lo == (|xs| - 1) * lo + lo;
      assert |xs| * hi == (|xs| - 1) * hi + hi;
    }
  }

  function CountText(c: Option<int>): string {
    match c
    case None => "NaN"
    case Some(n) => IntToString(n)
  }

  function FacesText(f: Faces): string {
    match f
    case Fudge => "f"
    case Sides(n) => IntToString(n)
    case NotANumber => "NaN"
  }

  /** toString: `[(nice try)]NdF<options>(total=a+b+...)`. */
  function RenderRoll(r: DiceRoll): string {
    (if r.niceTry then "(nice try)" else "") + CountText(r.numberOfDice) + "d" + FacesText(r.numberOfFaces)
    + r.rollOptions.text + "(" + IntToString(r.total) + "=" + Join(r.kept, "+") + ")"
  }

  /**
   * Text shaped like a roll's: whatever comes first, then `(`, the total, `=`,
   * the dice joined with `+`, and `)`. Neither the total nor the dice hold `(`
   * or `=`, so the text after the last `(` ends with `)`, and without it
   * splits at `=` into exactly these two fields.
   */
  lemma RollTextTail(front: string, total: string, dice: string)
    requires forall i | 0 <= i < |total| :: NumberChar(total[i])
    requires forall i | 0 <= i < |dice| :: PlusListChar(dice[i])
    ensures var tail := LastPiece(Split(front + "(" + total + "=" + dice + ")", '('));
      EndsWith(tail, ')') && Split(DropLast(tail), '=') == [total, dice]
  {
    var fields := total + ['='] + dice;
    var tail := fields + [')'];
    assert front + "(" + total + "=" + dice + ")" == front + ['('] + tail;
    forall i | 0 <= i < |tail|
      ensures tail[i] != '('
    {
      if |total| < i < |fields| {
        assert tail[i] == dice[i - |total| - 1];
      }
    }
    LastAfter(front, tail, '(');
    assert DropLast(tail) == fields;
    FieldPair(total, dice, '=');
  }

  /** The two fields of a roll's text: String(total), and the kept dice joined with `+`. */
  lemma RenderRollFields(r: DiceRoll)
    ensures var tail := LastPiece(Split(RenderRoll(r), '('));
      EndsWith(tail, ')') && Split(DropLast(tail), '=') == [IntToString(r.total), Join(r.kept, "+")]
  {
    var front := (if r.niceTry then "(nice try)" else "") + CountText(r.numberOfDice) + "d" + FacesText(r.numberOfFaces)
      + r.rollOptions.text;
    IntToStringChars(r.total);
    JoinChars(r.kept);
    RollTextTail(front, IntToString(r.total), Join(r.kept, "+"));
  }

  /**
   * toString can be read back: after the last `(`, the text up to the closing
   * `)` splits at `=` into the total and the kept dice; the dice are empty
   * exactly when none were kept, and otherwise split at `+` into one piece per
   * kept die, in order, each parsing back to that die.
   */
  lemma RenderRollReadBack(r: DiceRoll)
    ensures var tail := LastPiece(Split(RenderRoll(r), '('));
      && EndsWith(tail, ')')
      && var fields := Split(DropLast(tail), '=');
      && |fields| == 2
      && ParseInt(fields[0]) == Some(r.total)
      && (fields[1] == [] <==> r.kept == [])
      && (r.kept != [] ==>
            var dice := Split(fields[1], '+');
            |dice| == |r.kept| && forall i | 0 <= i < |dice| :: ParseInt(dice[i]) == Some(r.kept[i]))
  {
    RenderRollFields(r);
    IntToStringParses(r.total);
    if r.kept != [] {
      JoinSplit(r.kept);
      JoinNonEmpty(r.kept);
    }
  }

  // ---------------------------------------------------------------------------
  // What execution promises

  /**
   * After a valid roll executes: raw is every draw consumed, in order; exactly
   * numberOfDice of them passed the reroll check, the last draw among them; the
   * kept dice are drawn from those that passed and the total is their sum.
   */
  lemma ExecutedRollFacts(r: DiceRoll, draws: seq<int>)
    requires r.valid && ExecutedRoll(r, draws).Drawn?
    ensures var e := ExecutedRoll(r, draws).value;
      var k := ExecutedRoll(r, draws).used;
      var passed := Passed(r.rollOptions, draws[..k]);
      && k <= |draws|
      && e.raw == r.raw + draws[..k]
      && |passed| == Wanted(r)
      && (k > 0 ==> !NeedsReroll(r.rollOptions, draws[k - 1]))
      && (forall i | 0 <= i < |passed| :: !NeedsReroll(r.rollOptions, passed[i]))
      && multiset(e.kept) <= multiset(passed)
      && e.total == Sum(e.kept)
      && e.numberOfDice == r.numberOfDice && e.rollOptions == r.rollOptions && e.valid
  {
    ExecutedRollDraws(r, draws);
    ExecutedRollKept(r, draws);
  }

  /** The draws an executed roll used: exactly enough to pass numberOfDice times, the last one passing. */
  lemma ExecutedRollDraws(r: DiceRoll, draws: seq<int>)
    requires r.valid && ExecutedRoll(r, draws).Drawn?
    ensures var k := ExecutedRoll(r, draws).used;
      var passed := Passed(r.rollOptions, draws[..k]);
      && ExecutedRoll(r, draws).value.raw == r.raw + draws[..k]
      && |passed| == Wanted(r)
      && (k > 0 ==> !NeedsReroll(r.rollOptions, draws[k - 1]))
  {
    DrawsUsedExact(r.rollOptions, Wanted(r), draws);
  }

  /** The dice an executed roll keeps: some of those that passed, totalled; the rest of the roll unchanged. */
  lemma ExecutedRollKept(r: DiceRoll, draws: seq<int>)
    requires r.valid && ExecutedRoll(r, draws).Drawn?
    ensures var e := ExecutedRoll(r, draws).value;
      var passed := Passed(r.rollOptions, draws[..ExecutedRoll(r, draws).used]);
      && multiset(e.kept) <= multiset(passed)
      && e.total == Sum(e.kept)
      && e.numberOfDice == r.numberOfDice && e.rollOptions == r.rollOptions && e.valid
  {
    var k := ExecutedRoll(r, draws).used;
    SelectAsWrittenKeepsRolls(r.rollOptions, Passed(r.rollOptions, draws[..k]));
  }

  /** A valid roll runs out of draws exactly when fewer than numberOfDice of all the draws pass. */
  lemma ExhaustedIff(r: DiceRoll, draws: seq<int>)
    requires r.valid
    ensures ExecutedRoll(r, draws) == Exhausted <==> |Passed(r.rollOptions, draws)| < Wanted(r)
  {
    DrawsUsedNone(r.rollOptions, Wanted(r), draws);
  }

  /** If every value drawn is rerolled (as with `1d6r<7`), the loop never finishes: any finite draws run out. */
  lemma RerollEverythingExhausts(r: DiceRoll, draws: seq<int>)
    requires r.valid && Wanted(r) > 0  // every valid roll RollOf builds has a count of at least 1
    requires forall i | 0 <= i < |draws| :: NeedsReroll(r.rollOptions, draws[i])
    ensures ExecutedRoll(r, draws) == Exhausted
  {
    PassedNone(r.rollOptions, draws);
    ExhaustedIff(r, draws);
  }

  // ---------------------------------------------------------------------------
  // Reroll rules that cover every face

  /** The values a die with these faces can show: -1 to 1 for Fudge dice, 1 to n for n sides. */
  predicate CanShow(f: Faces, v: int) {
    match f
    case Fudge => -1 <= v <= 1
    case Sides(n) => 1 <= v <= n
    case NotANumber => false
  }

  /** The least value from lo to hi that the reroll rules let through, if any. */
  function FirstPassing(o: RollOptions, lo: int, hi: int): (v: Option<int>)
    ensures v.Some? ==> lo <= v.value <= hi && !NeedsReroll(o, v.value)
    ensures v.None? ==> forall u | lo <= u <= hi :: NeedsReroll(o, u)
    decreases hi - lo
  {
    if lo > hi then None
    else if !NeedsReroll(o, lo) then Some(lo)
    else FirstPassing(o, lo + 1, hi)
  }

  /** A face of the roll's dice that passes its reroll rules, if there is one. */
  function PassingFace(r: DiceRoll): Option<int> {
    match r.numberOfFaces
    case Fudge => FirstPassing(r.rollOptions, -1, 1)
    case Sides(n) => FirstPassing(r.rollOptions, 1, n)
    case NotANumber => None
  }

  /** The intended validity: valid as the source has it, and some face the dice can show is not rerolled. */
  predicate Accepted(r: DiceRoll) {
    r.valid && PassingFace(r).Some?
  }

  /** A roll is accepted exactly when it is valid and its reroll rules do not cover every face. */
  lemma AcceptedIff(r: DiceRoll)
    ensures Accepted(r) <==>
      r.valid && exists v | CanShow(r.numberOfFaces, v) :: !NeedsReroll(r.rollOptions, v)
  {
    if r.valid && PassingFace(r).Some? {
      assert CanShow(r.numberOfFaces, PassingFace(r).value);
    }
  }

  /** Draws that all pass the reroll check all pass. */
  lemma {:induction false} AllPassPassed(o: RollOptions, ds: seq<int>)
    requires forall i | 0 <= i < |ds| :: !NeedsReroll(o, ds[i])
    ensures Passed(o, ds) == ds
    decreases |ds|
  {
    if ds != [] {
      AllPassPassed(o, ds[..|ds| - 1]);
      assert ds[..|ds| - 1] + [ds[|ds| - 1]] == ds;
    }
  }

  /** An accepted roll finishes: drawing its passing face numberOfDice times completes the loop. */
  lemma AcceptedRollFinishes(r: DiceRoll)
    requires Accepted(r)
    ensures var v := PassingFace(r).value;
      && CanShow(r.numberOfFaces, v)
      && ExecutedRoll(r, seq(Wanted(r), _ => v)).Drawn?
  {
    var v := PassingFace(r).value;
    var draws := seq(Wanted(r), _ => v);
    AllPassPassed(r.rollOptions, draws);
    ExhaustedIff(r, draws);
  }

  /** A valid roll that is not accepted never finishes, whatever faces are drawn. */
  lemma RejectedRollNeverFinishes(r: DiceRoll, draws: seq<int>)
    requires r.valid && Wanted(r) > 0 && !Accepted(r)  // a count of 0 draws nothing and finishes at once
    requires forall i | 0 <= i < |draws| :: CanShow(r.numberOfFaces, draws[i])
    ensures ExecutedRoll(r, draws) == Exhausted
  {
    AcceptedIff(r);
    forall i | 0 <= i < |draws|
      ensures NeedsReroll(r.rollOptions, draws[i])
    {
      assert CanShow(r.numberOfFaces, draws[i]);
    }
    RerollEverythingExhausts(r, draws);
  }

  /** The options `r<7` are valid and reroll every face of a six-sided die. */
  lemma BelowSevenRerollsSixFaces()
    ensures var o := OptionsOf("r<7");
      o.valid && forall v | 1 <= v <= 6 :: NeedsReroll(o, v)
  {
    var o := OptionsOf("r<7");
    assert "r<7" == ['r'] + "<" + "7";
    assert DigitsValue("7") == 7;
    RerollForm('r', "<", "7", 1);
    forall v | 1 <= v <= 6
      ensures NeedsReroll(o, v)
    {
      RerollForm('r', "<", "7", v);
    }
  }

  /** `1d6r<7` as written: the roll is valid, yet every face 1 to 6 is rerolled, so any draws run out. */
  lemma OneDSixRerollBelowSevenHangs(draws: seq<int>)
    requires forall i | 0 <= i < |draws| :: 1 <= draws[i] <= 6
    ensures var r := RollOf("1", "6", OptionsOf("r<7"));
      r.valid && !Accepted(r) && ExecutedRoll(r, draws) == Exhausted
  {
    var o := OptionsOf("r<7");
    BelowSevenRerollsSixFaces();
    assert DigitsValue("1") == 1 && DigitsValue("6") == 6;
    var r := RollOf("1", "6", o);
    assert r.numberOfFaces == Sides(6);
    assert r.valid && Wanted(r) == 1;
    AcceptedIff(r);
    RejectedRollNeverFinishes(r, draws);
  }

  /**
   * With valid options, `keep` N of at least N dice leaves N, `drop` N leaves
   * the rest, and without either the dice that passed are kept as drawn.
   */
  lemma SelectionSizes(r: DiceRoll, draws: seq<int>)
    requires r.valid && ExecutedRoll(r, draws).Drawn?
    requires !(Active(r.rollOptions.keep) && Active(r.rollOptions.drop))
    ensures var kept := ExecutedRoll(r, draws).value.kept;
      && (r.rollOptions.keep.Amount? && 0 < r.rollOptions.keep.n <= Wanted(r) ==> |kept| == r.rollOptions.keep.n)
      && (r.rollOptions.drop.Amount? && 0 < r.rollOptions.drop.n <= Wanted(r) ==> |kept| == Wanted(r) - r.rollOptions.drop.n)
      && (!Active(r.rollOptions.keep) && !Active(r.rollOptions.drop) ==>
            kept == Passed(r.rollOptions, draws[..ExecutedRoll(r, draws).used]))
  {
    ExecutedRollFacts(r, draws);
    var o := r.rollOptions;
    var passed := Passed(o, draws[..ExecutedRoll(r, draws).used]);
    AsWrittenSizes(o, passed);
  }

  /** The sizes slice() leaves: keep N of at least N rolls keeps N, drop N drops N, and neither keeps all. */
  lemma AsWrittenSizes(o: RollOptions, rolls: seq<int>)
    requires !(Active(o.keep) && Active(o.drop))
    ensures o.keep.Amount? && 0 < o.keep.n <= |rolls| ==> |SelectAsWritten(o, rolls)| == o.keep.n
    ensures o.drop.Amount? && 0 < o.drop.n <= |rolls| ==> |SelectAsWritten(o, rolls)| == |rolls| - o.drop.n
    ensures !Active(o.keep) && !Active(o.drop) ==> SelectAsWritten(o, rolls) == rolls
  {
    var kept := KeepStepAsWritten(o, rolls);
    if !Active(o.drop) {
      NoDropAsWritten(o, kept);
    } else {
      NoKeepAsWritten(o, rolls);
    }
  }

  /** With no reroll rules every draw passes. */
  lemma {:induction false} NoRulesPassAll(o: RollOptions, ds: seq<int>)
    requires o.reroll == []
    ensures Passed(o, ds) == ds
    decreases |ds|
  {
    if ds != [] {
      NoRulesPassAll(o, ds[..|ds| - 1]);
      assert !NeedsReroll(o, ds[|ds| - 1]);
      assert ds[..|ds| - 1] + [ds[|ds| - 1]] == ds;
    }
  }

  /** A roll without modifiers takes exactly the first numberOfDice draws, keeps them in order and totals them. */
  lemma PlainRollTakesDraws(r: DiceRoll, draws: seq<int>)
    requires r.valid && r.rollOptions.reroll == [] && !Active(r.rollOptions.keep) && !Active(r.rollOptions.drop)
    requires Wanted(r) <= |draws|
    ensures var w := Wanted(r);
      ExecutedRoll(r, draws) == Drawn(r.(raw := r.raw + draws[..w], kept := draws[..w], total := Sum(draws[..w])), w)
  {
    var o := r.rollOptions;
    var w := Wanted(r);
    forall j | 0 <= j <= |draws|
      ensures |Passed(o, draws[..j])| == j
    {
      NoRulesPassAll(o, draws[..j]);
    }
    var n := DrawsUsedFrom(o, w, draws, 0);
    assert |Passed(o, draws[..w])| == w;
    assert n == Some(w);
    NoRulesPassAll(o, draws[..w]);
    NoKeepAsWritten(o, draws[..w]);
    NoDropAsWritten(o, draws[..w]);
  }

  lemma SubMultisetInRange(xs: seq<int>, ys: seq<int>, lo: int, hi: int)
    requires multiset(xs) <= multiset(ys)
    requires forall i | 0 <= i < |ys| :: lo <= ys[i] <= hi
    ensures forall i | 0 <= i < |xs| :: lo <= xs[i] <= hi
  {
    forall i | 0 <= i < |xs|
      ensures lo <= xs[i] <= hi
    {
      assert xs[i] in multiset(xs);
      assert xs[i] in ys;
    }
  }

  /** Draws within the die's range give kept dice within it, and a total between count*lo and count*hi. */
  lemma KeptInRange(r: DiceRoll, draws: seq<int>, lo: int, hi: int)
    requires r.valid && ExecutedRoll(r, draws).Drawn?
    requires forall i | 0 <= i < |draws| :: lo <= draws[i] <= hi
    ensures var e := ExecutedRoll(r, draws).value;
      && (forall i | 0 <= i < |e.kept| :: lo <= e.kept[i] <= hi)
      && |e.kept| * lo <= e.total <= |e.kept| * hi
  {
    var e := ExecutedRoll(r, draws).value;
    var k := ExecutedRoll(r, draws).used;
    var prefix := draws[..k];
    var passed := Passed(r.rollOptions, prefix);
    assert e.kept == SelectAsWritten(r.rollOptions, passed) && e.total == Sum(e.kept);
    assert forall i | 0 <= i < |prefix| :: prefix[i] == draws[i];
    PassedSubMultiset(r.rollOptions, prefix);
    SubMultisetInRange(passed, prefix, lo, hi);
    SelectAsWrittenKeepsRolls(r.rollOptions, passed);
    SubMultisetInRange(e.kept, passed, lo, hi);
    SumBounds(e.kept, lo, hi);
  }
}
