# hubot-rolldice dice notation, modelled in Dafny

This project models the dice-notation engine of hubot-rolldice: the part that turns a chat command such as `3d6+2 for damage` or `4d6dl1` into a result and a text. It has five parts:

- **DiceOperator** (`+`, and `-` saturating at 0);
- **DiceConstant** (a literal operand);
- **RollOptions**: the modifier suffix `rN`, `r<N`, `r<=N`, `r>N`, `r>=N`, `k`/`kh`/`kl`N and `d`/`dh`/`dl`N, scanned one modifier at a time;
- **DiceRoll**: `NdF` plus modifiers. It is constructed, validated, executed with rerolls and keep/drop, totalled and rendered;
- **DiceExpression**: the whole command. It is tokenized into operators, constants and dice groups, then validated, evaluated left to right with a one-slot pending operator, and rendered. A special command short-circuits all of it.

Every kind of operation is a datatype. The loops in the source are methods whose `ensures` tie them to a recursive specification function:

- the option scan: `Options.ParseRollOptions`;
- the reroll check: `Options.NeedReroll`;
- the roll loop: `Rolls.ExecuteRoll`;
- the tokenizer: `Expressions.Tokenize`;
- the evaluation loop: `Expressions.Execute`;
- the constructor: `Expressions.NewExpression`.

What the source promises is proved as lemmas about those functions.

Die results are an input. `draws` is the sequence of values `roll()` would return, taken from the front. A roll that needs more dice than the draws hold ends in an explicit `Exhausted` / `OutOfDraws` outcome. The special-command table is a parameter, `specials: map<string, string>`.

Files:
- `wrappers.dfy`: Option.
- `text.dfy`: JavaScript `parseInt`, `String(n)`, `join`, and the decimal-string order.
- `operators.dfy`, `constants.dfy`, `options.dfy`, `rolls.dfy`, `expressions.dfy`: one module per part above.
- `scenarios.dfy`: whole commands worked end to end.

## Model

| member | source | states |
|---|---|---|
| Operators.Apply | dice.js:195-212 | `-` never yields a negative total: `left - right` when left >= right, else 0. Any other symbol adds. |
| Operators.SubtractionUndoesAddition | dice.js:195-201 | Subtracting the operand just added gives back any non-negative running total. |
| Constants.NewConstant | dice.js:35-47 | The constant is valid exactly when `parseInt` yields a number. Its total is that number, or 0 when invalid. |
| Constants.RenderRoundTrip | dice.js:40-46 | A constant's text parses back to the same total, as a valid constant. |
| Constants.DigitsMakeValidConstant | src/DiceExpression.js:102-111 | The digit runs the tokenizer hands over always make a valid constant of their decimal value. |
| Text.ParseInt | dice.js:41 | `parseInt(_, 10)` on two shapes: a digit string parses to its decimal value, and text starting with something other than a blank, a sign or a digit is NaN. |
| Text.ParseIntAt | dice.js:41 | The general case: after leading blanks and an optional sign, the longest digit run is read, and the result is its value, negated after `-`. Anything after the run is ignored. |
| Text.ParseIntNaN | dice.js:41 | Blanks and an optional sign with no digit after them give NaN. |
| Text.IntToStringParses | dice.js:40 | The decimal text of an integer parses back to that integer. |
| Text.IntToStringCanonical | dice.js:40 | `String(n)` is canonical: a `-` exactly for negatives, then a non-empty run of digits without a leading zero. |
| Text.JoinSplit | dice.js:280 | `join('+')` of any non-empty list of integers splits back at `+` into one piece per element, in order, each parsing to that element. |
| Options.NeedReroll | dice.js:344-353 | The loop answers true exactly when some accumulated rule holds of the value. |
| Options.ParseRollOptions | dice.js:446-481 | The scan loop yields the options the specification function builds. `toString` is the option text verbatim. |
| Options.MatchOption | dice.js:394 | `/^([rkd])([^rkd]+)/i` matches exactly when the text starts with r/k/d (either case) followed by a non-letter. The token is the lower-cased letter and the longest run of non-letters after it. |
| Options.ParseRerollValidity | dice.js:422-445 | A reroll modifier keeps the options valid exactly when its pattern matches and its number is not 0. It never touches keep or drop. |
| Options.ParseKeepDropValidity | dice.js:395-421 | A keep/drop value keeps the options valid exactly when it is non-empty, matches, and its count is not 0. |
| Options.ApplyTokenValidity | dice.js:451-465 | One modifier leaves the options valid exactly when they were valid, it is well formed, and it is not a second `k`/`d`. |
| Options.ApplyAllValidity | dice.js:446-472 | Over any run of modifiers: valid exactly when all are well formed and at most one `k`/`d` appears overall. |
| Options.OptionsValidity | dice.js:409-419 | The options are invalid exactly when a modifier lacks digits, has the value 0, or is a second keep/drop. |
| Options.SecondKeepDropInvalid | dice.js:455-463 | `k2k3`, `k2d1` and the like are always invalid. |
| Options.ValidOptionsExclusive | dice.js:455-463 | Valid options never have both keep and drop set. |
| Options.ApplyAllRerolls | dice.js:446-472 | After any run of modifiers, a value is rerolled exactly when an earlier rule or a well-formed `r` modifier in the run says so. |
| Options.NeedsRerollIff | dice.js:320-353 | `needReroll(v)` holds exactly when the rule of some well-formed `r` modifier in the text holds of v. |
| Options.RuleForPromised | dice.js:320-342 | The predicate builders implement `=`, `<`, `<=`, `>`, `>=` as written. |
| Options.RerollForm | dice.js:422-445 | `r`/`R` with a comparison and digits is valid exactly when the number is not 0. It then rerolls exactly the values the comparison names, leaving keep/drop unset. |
| Options.ParseKeepDropForm | dice.js:395-421 | parseKeepDrop on a selector and digits picks highest/lowest by letter or default, and stores a non-zero count. |
| Options.KeepDropForm | dice.js:395-407 | `k` and `kh` select the highest, `kl` the lowest. `d` and `dl` select the lowest, `dh` the highest. This holds in either case, with the count stored and 0 invalidating. |
| Options.TokensAppend | dice.js:446-472 | The scan of fully consumed text followed by more modifiers is the scan of each part, in order. |
| Options.UnrecognisedRemainderIgnored | dice.js:446-481 | Text the pattern rejects where the scan reaches it (a letter followed by a letter, or at the very end) ends the scan. It changes nothing but the stored text. |
| Rolls.FacesOf | dice.js:286-289 | Only the lower-case key `f` is a fudge die. A digit string is that many sides. |
| Rolls.RollOf | dice.js:283-309 | A new roll has empty raw/kept and total 0. Nice try means 1000 dice. A valid roll has 1..1000 dice, acceptable faces and valid options. |
| Rolls.NewRoll | dice.js:283-313 | The constructor builds the roll with the options its own constructor scans. |
| Rolls.RollCount | dice.js:284-309 | An empty count means 1. A count above 1000 becomes 1000 and sets nice try. The roll is valid exactly when the count > 0, the faces are `f` or > 1, and the options are valid. |
| Rolls.UpperCaseFudgeInvalid | dice.js:286-289 | The face `F` is not the key `f`: it parses as NaN and the roll is invalid. |
| Rolls.OneFaceInvalid | dice.js:303-304 | A one-sided die is rejected. |
| Rolls.ExecuteRoll | dice.js:243-275 | The draw loop, reroll check, keep/drop as written and sum yield the specified outcome. An invalid roll comes back unchanged and uses no draws. |
| Rolls.KeepRolls | dice.js:253-261 | The keep block: the rolls sorted in string order (see Rolls.SortTextAscending), then `slice(0, N)` for `kl` or `slice(length - N)` otherwise. |
| Rolls.DropRolls | dice.js:262-270 | The drop block: the rolls sorted in string order (see Rolls.SortTextAscending), then `slice(N)` for `d`/`dl` or `slice(0, length - N)` for `dh`. |
| Rolls.ExecutedRollFacts | dice.js:246-274 | raw gains exactly the draws consumed, in order. Exactly numberOfDice draws pass the reroll check, the last draw among them. Kept is drawn from those that passed. total = sum(kept). |
| Rolls.PassedMembers | dice.js:249-250 | A value reaches currentRolls exactly when it was drawn and is not rerolled. |
| Rolls.PassedSubMultiset | dice.js:246-252 | The dice that pass are a sub-multiset of the draws. |
| Rolls.ExhaustedIff | dice.js:246-252 | The draws run out exactly when fewer than numberOfDice of them pass. |
| Rolls.RerollEverythingExhausts | dice.js:246-252 | When every draw is rerolled (`1d6r<7`), the loop never finishes on any finite draws. |
| Rolls.BelowSevenRerollsSixFaces | dice.js:422-445 | The options `r<7` are valid and reroll each of the values 1 to 6. |
| Rolls.OneDSixRerollBelowSevenHangs | dice.js:246-252 | As written, `1d6r<7` is a valid roll that is not accepted, and every sequence of draws from 1 to 6 runs out before a die passes. |
| Rolls.FirstPassing | dice.js:249 | The search finds a value in the range that is not rerolled, or every value in the range is rerolled. |
| Rolls.AcceptedIff | dice.js:303-309 | Corrected validity: a roll is accepted exactly when it is valid and some face its dice can show is not rerolled. |
| Rolls.AcceptedRollFinishes | dice.js:246-252 | An accepted roll can finish: drawing its passing face numberOfDice times completes the loop. |
| Rolls.RejectedRollNeverFinishes | dice.js:246-252 | A valid roll of one or more dice that is not accepted never finishes on any draws its dice can show. |
| Rolls.SortPermutes | dice.js:254 | Sorting, in numeric or string order, is a permutation. |
| Rolls.SortAscending | dice.js:254 | The numeric sort is ascending. |
| Rolls.TextualLaws | dice.js:254 | Decimal-text order between integers is asymmetric, and "not before" chains. |
| Rolls.SortInOrder | dice.js:254 | Insertion sort under any order with those laws leaves no value before one that precedes it. |
| Rolls.SortTextAscending | dice.js:254 | `sort()` without a comparator orders the rolls by their decimal text: no later roll's text is below an earlier one's. |
| Rolls.SelectChoice | dice.js:253-270 | Corrected keep/drop: keep N takes the N highest (or lowest) rolls, drop N discards them, capped at the roll count. Without either, the rolls are unchanged. |
| Rolls.KeepHighestIsDropLowest | dice.js:253-270 | Keeping the N highest equals dropping the count−N lowest. |
| Rolls.KeepHighestIsDropLowestAsWritten | dice.js:253-270 | The same holds for the selection as written: `k`N and `d`(count−N) take the same slice of the text-sorted rolls. |
| Rolls.SelectionSizes | dice.js:253-270 | On the selection as written: with keep N <= count, N dice are kept. With drop N <= count, count−N are kept. With neither, the passed dice are kept in draw order. |
| Rolls.AsWrittenSizes | dice.js:253-270 | The sizes `slice` leaves as written, on any rolls: keep N of at least N rolls keeps N, drop N keeps the rest, and neither keeps all. |
| Rolls.AsWrittenIsIntended | dice.js:253-270 | For dice showing -1 to 9 (one character each), string order is numeric order. With keep/drop N at most the count, the selection as written is the corrected one. |
| Rolls.SmallDiceChooseExtremes | dice.js:243-274 | For such dice the executed roll keeps exactly the N highest (`k`/`kh`) or lowest (`kl`) of the dice that passed. `d`/`dl` N leaves all but the N lowest, `dh` N all but the N highest. |
| Rolls.SelectAsWrittenKeepsRolls | dice.js:253-270 | Even as written, the kept dice are a sub-multiset of the rolls. |
| Rolls.Slice | dice.js:257-268 | JavaScript `slice`: negative indices count from the end and both ends clamp. The result is a sub-multiset. |
| Rolls.KeptInRange | dice.js:271-274 | Draws within [lo, hi] give kept dice within it and count*lo <= total <= count*hi. |
| Rolls.SumBounds | dice.js:272-274 | A sum of values in [lo, hi] lies between n*lo and n*hi. |
| Rolls.PlainRollTakesDraws | dice.js:243-274 | A roll without modifiers takes exactly the first numberOfDice draws and keeps and totals them in order. |
| Rolls.TextualSortKeepsWrongDie | dice.js:254 | `kh1` on [5, 18] keeps 5 as written; the corrected selection keeps 18. |
| Rolls.OverlongKeepWraps | dice.js:259 | `k4` on the three dice [1, 2, 3] keeps only [3] as written; the corrected selection keeps all three. |
| Rolls.OverlongDropHighestWraps | dice.js:268 | `dh4` on [1, 2, 3] keeps [1, 2] as written; the corrected selection keeps none. |
| Rolls.FindingOptions | dice.js:395-463 | `kh1`, `k4` and `dh4` parse to the settings the findings use. |
| Rolls.RenderRollReadBack | dice.js:278-281 | `toString` can be read back. After the last `(` and before the closing `)`, the text splits at `=` into a field that parses to the total and the kept dice. Those are empty exactly when none were kept, and otherwise split at `+` into one piece per kept die, in order, each parsing back to it. |
| Expressions.Validate | src/DiceExpression.js:7-30 | Valid exactly when the operations are non-empty, contain a dice group, are each valid, and neither start nor end with an operator. |
| Expressions.MatchDice | src/DiceExpression.js:78 | A dice-group match consumes at least two characters, within the text. Its sign is empty, `+` or `-`. The count is digits; the faces are `f`/`F` or digits. |
| Expressions.FindConstant | src/DiceExpression.js:102-103 | A constant match has a `+`/`-` sign and a non-empty digit run. |
| Expressions.Tokenize | src/DiceExpression.js:84-124 | The tokenizer loop produces the operations and label of the specification function, and terminates. |
| Expressions.TokenizePass | src/DiceExpression.js:86-123 | One pass keeps the loop invariant and strictly shortens the unscanned text. |
| Expressions.TokenizedShape | src/DiceExpression.js:93-112 | Every operator pushed is directly followed by an operand, and a constant can only be the last operation. |
| Expressions.ConstantNeedsSign | src/DiceExpression.js:102-112 | A remainder without `+` or `-` adds no constant. |
| Expressions.Execute | src/DiceExpression.js:32-55 | The evaluation loop yields the specified outcome: executed operations, result and draws used. |
| Expressions.Combine | src/DiceExpression.js:41-54 | One fold step: an operator fills the empty slot and a full slot throws. An operand combines with the pending operator, or replaces the total. |
| Expressions.RunFromNeverThrows | src/DiceExpression.js:41-46 | When operators are always followed by operands, the "Pre-existing operator" throw cannot happen. |
| Expressions.NeverThrows | src/DiceExpression.js:45 | For every command text, construction never throws. |
| Expressions.FoldValue | src/DiceExpression.js:47-54 | The left-to-right fold equals an independent right-to-left reading of the operations (an operand after an operand replaces the total). |
| Expressions.RunFromFold | src/DiceExpression.js:36-55 | A finished run keeps the operations in place, executes only the dice groups, and its result is the fold of the executed operations. |
| Expressions.DetailsAppend | src/DiceExpression.js:58-60 | The details of two runs one after the other are the details of the first followed by those of the second. |
| Expressions.DetailsCons | src/DiceExpression.js:58-60 | The details start with the first operation's text, followed by the details of the rest. |
| Expressions.GetSpecial | src/DiceExpression.js:80-82 | A special text is found only for a non-empty command stored in the table with a non-empty text. |
| Expressions.NewExpression | src/DiceExpression.js:76-135 | The constructor yields the specified construction. |
| Expressions.SpecialShortCircuit | src/DiceExpression.js:80-82 | A special command leaves no operations, is invalid, uses no draws and renders as its text. |
| Expressions.ConstructedFacts | src/DiceExpression.js:126-134 | Valid exactly when validate() holds. Invalid means never executed and rendered `invalid dice roll`. Valid means dice executed in place, result = Value, details = the texts. |
| Expressions.ConstructedOperations | src/DiceExpression.js:32-55 | In a valid expression every operator and constant stays as tokenized. Each dice group is its roll executed on the draws the groups in front of it left over. The expression uses the draws of all groups together. |
| Expressions.RunFromOperations | src/DiceExpression.js:36-55 | The same, for any finished run of the evaluation loop. |
| Expressions.SlotIsRun | src/DiceExpression.js:36-40 | The i-th operation is executed on the draws left over once the operations before it have taken theirs. |
| Expressions.RenderExpressionReadBack | src/DiceExpression.js:64-74 | The text of an executed expression can be read back. After the `label: ` prefix, the text up to the first space parses to the result, and the rest is ` rolls: ` and the details. |
| Scenarios.ThreeDSixPlusTwo | src/DiceExpression.js:64-74 | `3d6+2` with the draws 4, 5, 6 gives 17 and renders `17 rolls: 3d6(15=4+5+6) + 2`. |
| Scenarios.OneDSixMinusTen | dice.js:198-201 | `1d6-10` with the draw 3 gives 0. |
| Scenarios.ConstructRollThenConstant | src/DiceExpression.js:76-135 | A plain roll, an operator and a constant: valid, the roll takes all its draws, and the result is the operator applied to their sum. |
| Scenarios.TokenizeThreeDSixPlusTwo | src/DiceExpression.js:84-124 | `3d6+2` tokenizes to a `3d6` roll, `+` and the constant 2, with no label. |
| Scenarios.RenderThreeDSix | dice.js:278-281 | `3d6` with the kept dice 4, 5, 6 renders as `3d6(15=4+5+6)`. |
| Scenarios.PlusThree | src/DiceExpression.js:7-30 | `+3` tokenizes to `+` and 3 with no dice group. It is invalid, uses no draws and renders `invalid dice roll`. |
| Scenarios.OneDSixForHit | src/DiceExpression.js:115-119 | `1d6 for hit` with the draw 4 has the label `hit`, result 4, and renders `hit: 4 rolls: 1d6(4=4)`. |

## Left out

- The module registry and the `require`/`wrapFile` loader (dice.js:1-31): plumbing with no behaviour of its own.
- `roll()` (dice.js:222-241) is replaced by the `draws` parameter: Math.random, the Date-based primer loop, the floating-point face arithmetic and the fudge-die choice. No statistical claim is made. Draws are arbitrary integers, and range facts take the range as a hypothesis (`Rolls.KeptInRange`).
- Running out of draws is an outcome the source cannot have. The real loop either draws forever or finishes.
- The texts of the special-command table (dice.js:488-526) are replaced by the `specials` map parameter, with exact-key lookup.
- The copy of DiceExpression inside dice.js (dice.js:129-188) is the same code as src/DiceExpression.js, which is the one modelled.
- Regular expressions in general are not modelled. The six patterns (src/DiceExpression.js:78, 102, 115; dice.js:394, 398, 423) are hand-written scanners that return the leftmost greedy match.
- Lower-casing is ASCII only. No non-ASCII character lower-cases to a letter the patterns look at.
- Text.ParseInt: numbers are unbounded integers. Float rounding of counts and faces past 2^53 is not modelled.
- Mutation in place and aliasing are not modelled: `results.raw` / `currentRolls`, the in-place `sort()`, and the DiceRoll objects inside `operations`. Each executed roll is returned as a value and put back into the operations sequence in its place. The source shares no roll between two places, so nothing observable is lost.
- `bind`/`this` wiring and the cleanup nulling (dice.js:311-312, 386, 421, 445, 475-477) are left out.
- Rendering of a nice-try roll shows the capped count 1000, as the source does.

## Findings

Execution (`Rolls.ExecutedRoll`, `Rolls.ExecuteRoll`) follows the code as written, through `Rolls.SelectAsWritten`. The corrected selection `Rolls.Select` is proved to choose the extremes (`Rolls.SelectChoice`). `Rolls.AsWrittenIsIntended` shows that the two agree whenever every die shows -1 to 9 and no count exceeds the dice rolled. Validity likewise follows the code (`DiceRoll.valid`). The corrected check `Rolls.Accepted` also rejects a roll whose reroll rules cover every face; `Rolls.AcceptedIff`, `Rolls.AcceptedRollFinishes` and `Rolls.RejectedRollNeverFinishes` prove what it means.

| source | as written | input that shows it | evidently intended | confidence | as-written member | corrected member |
|---|---|---|---|---|---|---|
| dice.js:254,263 | `currentRolls.sort()` has no comparator, so the dice are ordered by their decimal text | `2d20kh1` with the draws 5, 18: the text order is [18, 5], and keeping the last keeps 5 | order the dice numerically, so keep-highest keeps 18 | not executed | Rolls.TextualSortKeepsWrongDie | Rolls.SelectChoice |
| dice.js:259,268 | `slice(length - n)` and `slice(0, length - n)` with n > length give a negative index, which counts from the end | `3d6k4` on 1, 2, 3 keeps only [3]; `3d6dh4` keeps [1, 2] | keeping more dice than were rolled keeps them all, and dropping more drops them all | not executed | Rolls.OverlongKeepWraps | Rolls.SelectChoice |
| dice.js:246-252 | the loop draws until numberOfDice values pass the reroll check, and validation (dice.js:303-309) accepts any reroll rule | `1d6r<7`: every face 1 to 6 is rerolled, so no draw ever passes and the loop never ends | reject a roll whose reroll rules cover every face its dice can show | not executed | Rolls.OneDSixRerollBelowSevenHangs | Rolls.AcceptedRollFinishes |
