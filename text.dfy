/**
 * Character classes of the notation's regular expressions, and the integer
 * parsing and rendering JavaScript performs on the notation (parseInt with
 * radix 10, String(n), Array.prototype.join, string comparison).
 */
module Text {
  import opened Wrappers

  /** The RegExp class \d, and the digits parseInt accepts in base 10. */
  predicate IsDigit(c: char) {
    '0' <= c <= '9'
  }

  predicate AllDigits(s: string) {
    forall i | 0 <= i < |s| :: IsDigit(s[i])
  }

  /** A stretch of digits, cut out of a longer string, is all digits. */
  lemma DigitsSlice(s: string, i: nat, j: nat)
    requires i <= j <= |s|
    requires forall m | i <= m < j :: IsDigit(s[m])
    ensures AllDigits(s[i..j])
  {
    forall m | 0 <= m < j - i
      ensures IsDigit(s[i..j][m])
    {
      assert s[i..j][m] == s[i + m];
    }
  }

  /** JavaScript line terminators (LF, CR, LS, PS); the RegExp `.` matches every other character. */
  predicate IsLineTerminator(c: char) {
    c == '\n' || c == '\r' || c == '\U{2028}' || c == '\U{2029}'
  }

  /** The RegExp class \s: white space and line terminators. parseInt trims the same set. */
  predicate IsSpace(c: char) {
    || IsLineTerminator(c)
    || c in {'\t', '\U{000B}', '\U{000C}', ' ', '\U{00A0}', '\U{1680}', '\U{202F}', '\U{205F}', '\U{3000}', '\U{FEFF}'}
    || '\U{2000}' <= c <= '\U{200A}'
  }

  /** The letters of the roll-option pattern /^([rkd])([^rkd]+)/i, in either case. */
  predicate IsOptionLetter(c: char) {
    c in {'r', 'k', 'd', 'R', 'K', 'D'}
  }

  /** The character classes whose maximal runs the scanners consume. */
  datatype CharClass =
    | Space              // \s
    | Digit              // \d and [0-9]
    | ModifierChar       // [^\s+-]
    | NotOptionLetter    // [^rkd] under the i flag
    | NotLineTerminator  // .

  predicate InClass(c: char, k: CharClass) {
    match k
    case Space => IsSpace(c)
    case Digit => IsDigit(c)
    case ModifierChar => !IsSpace(c) && c != '+' && c != '-'
    case NotOptionLetter => !IsOptionLetter(c)
    case NotLineTerminator => !IsLineTerminator(c)
  }

  /** The end of the maximal run of class-k characters that starts at i: what a greedy `k*` consumes. */
  function RunEnd(s: string, i: nat, k: CharClass): (j: nat)
    requires i <= |s|
    ensures i <= j <= |s|
    ensures forall m | i <= m < j :: InClass(s[m], k)
    ensures j < |s| ==> !InClass(s[j], k)
    decreases |s| - i
  {
    if i < |s| && InClass(s[i], k) then RunEnd(s, i + 1, k) else i
  }

  /** A run that stops inside s stops at the same place once more text is appended. */
  lemma {:induction false} RunEndAppend(s: string, rest: string, i: nat, k: CharClass)
    requires i <= |s|
    requires RunEnd(s, i, k) < |s| || rest == [] || !InClass(rest[0], k)
    ensures RunEnd(s + rest, i, k) == RunEnd(s, i, k)
    decreases |s| - i
  {
    if i < |s| && InClass(s[i], k) {
      RunEndAppend(s, rest, i + 1, k);
    }
  }

  /** ASCII lower-casing, the only part of toLowerCase that can change what the option patterns match. */
  function LowerChar(c: char): char {
    if 'A' <= c <= 'Z' then (c as int + 32) as char else c
  }

  function Lower(s: string): string {
    seq(|s|, i requires 0 <= i < |s| => LowerChar(s[i]))
  }

  function DigitValue(c: char): nat
    requires IsDigit(c)
  {
    c as int - '0' as int
  }

  function DigitChar(d: nat): (c: char)
    requires d < 10
    ensures IsDigit(c) && DigitValue(c) == d
  {
    ('0' as int + d) as char
  }

  /** The value of a string of decimal digits. */
  function DigitsValue(s: string): nat
    requires AllDigits(s)
    decreases |s|
  {
    if s == [] then 0 else 10 * DigitsValue(s[..|s| - 1]) + DigitValue(s[|s| - 1])
  }

  /**
   * parseInt(s, 10): skip leading \s, take an optional sign, then the longest
   * run of digits; None stands for NaN, the result when that run is empty.
   */
  function ParseInt(s: string): (r: Option<int>)
    ensures s != [] && AllDigits(s) ==> r == Some(DigitsValue(s))
    ensures s != [] && !IsSpace(s[0]) && s[0] != '+' && s[0] != '-' && !IsDigit(s[0]) ==> r == None
  {
    var i := RunEnd(s, 0, Space);
    var signed := i < |s| && (s[i] == '+' || s[i] == '-');
    var j := if signed then i + 1 else i;
    var k := RunEnd(s, j, Digit);
    assert s != [] && AllDigits(s) ==> i == 0 && k == |s| && s[j..k] == s;
    if k == j then None
    else
      var magnitude: int := DigitsValue(s[j..k]);
      Some(if signed && s[i] == '-' then -magnitude else magnitude)
  }

  /** String(n) for a non-negative integer: its decimal digits, without leading zeros. */
  /** A run of class-k characters from i that stops at e (the end, or a character outside k) ends at e. */
  lemma {:induction false} RunEndAt(s: string, i: nat, e: nat, k: CharClass)
    requires i <= e <= |s|
    requires forall m | i <= m < e :: InClass(s[m], k)
    requires e == |s| || !InClass(s[e], k)
    ensures RunEnd(s, i, k) == e
    decreases e - i
  {
    if i < e {
      RunEndAt(s, i + 1, e, k);
    }
  }

  /** parseInt by positions: blanks before a, an optional sign at a, digits from j up to k, and no digit at k. */
  lemma ParseIntAt(s: string, a: nat, j: nat, k: nat)
    requires a <= j < k <= |s|
    requires forall m | 0 <= m < a :: IsSpace(s[m])
    requires j == a || (j == a + 1 && (s[a] == '+' || s[a] == '-'))
    requires forall m | j <= m < k :: IsDigit(s[m])
    requires k == |s| || !IsDigit(s[k])
    ensures AllDigits(s[j..k])
    ensures var magnitude: int := DigitsValue(s[j..k]);
      ParseInt(s) == Some(if j > a && s[a] == '-' then -magnitude else magnitude)
  {
    RunEndAt(s, 0, a, Space);
    RunEndAt(s, j, k, Digit);
  }

  /** parseInt on blanks and an optional sign with no digit after them: NaN. */
  lemma ParseIntNaN(blanks: string, sign: string, rest: string)
    requires forall i | 0 <= i < |blanks| :: IsSpace(blanks[i])
    requires sign == "" || sign == "+" || sign == "-"
    requires rest == [] || !IsDigit(rest[0])
    requires sign == "" && rest != [] ==> !IsSpace(rest[0]) && rest[0] != '+' && rest[0] != '-'
    ensures ParseInt(blanks + sign + rest) == None
  {
    var s := blanks + sign + rest;
    var a := |blanks|;
    var j := a + |sign|;
    assert forall m | 0 <= m < a :: s[m] == blanks[m];
    assert a < |s| ==> s[a] == if sign == "" then rest[0] else sign[0];
    RunEndAt(s, 0, a, Space);
    assert j < |s| ==> s[j] == rest[0];
    RunEndAt(s, j, j, Digit);
  }

  function NatToString(n: nat): (s: string)
    ensures s != [] && AllDigits(s) && DigitsValue(s) == n
    ensures s[0] == '0' ==> n == 0
    ensures |s| > 1 ==> s[0] != '0'
    decreases n
  {
    if n < 10 then [DigitChar(n)]
    else
      var front := NatToString(n / 10);
      var s := front + [DigitChar(n % 10)];
      assert s[..|s| - 1] == front;
      s
  }

  /** String(n): the decimal rendering of an integer, with a leading `-` when negative. */
  function IntToString(n: int): (s: string)
    ensures s != []
  {
    if n < 0 then "-" + NatToString(-n) else NatToString(n)
  }

  /** String(n) parses back to n. */
  lemma IntToStringParses(n: int)
    ensures ParseInt(IntToString(n)) == Some(n)
  {
    if n < 0 {
      var digits := NatToString(-n);
      var s := "-" + digits;
      assert RunEnd(s, 0, Space) == 0;
      assert s[1..RunEnd(s, 1, Digit)] == digits;
    }
  }

  /** String(n) is canonical: a `-` exactly for negatives, then digits without a leading zero. */
  lemma IntToStringCanonical(n: int)
    ensures var s := IntToString(n);
      && (s[0] == '-' <==> n < 0)
      && var digits := if n < 0 then s[1..] else s;
      && digits != [] && AllDigits(digits) && (|digits| > 1 ==> digits[0] != '0')
  {
    if n < 0 {
      assert IntToString(n)[1..] == NatToString(-n);
    }
  }

  /** The characters String(n) writes: digits and the minus sign. */
  predicate NumberChar(c: char) {
    c == '-' || IsDigit(c)
  }

  lemma IntToStringChars(n: int)
    ensures forall i | 0 <= i < |IntToString(n)| :: NumberChar(IntToString(n)[i])
  {
    var s := IntToString(n);
    IntToStringCanonical(n);
    forall i | 0 <= i < |s|
      ensures NumberChar(s[i])
    {
      if n < 0 && i > 0 {
        assert s[i] == s[1..][i - 1];
      }
    }
  }

  /** Array.prototype.join(sep) over integers. */
  function Join(xs: seq<int>, sep: string): string
    decreases |xs|
  {
    if xs == [] then ""
    else if |xs| == 1 then IntToString(xs[0])
    else IntToString(xs[0]) + sep + Join(xs[1..], sep)
  }

  /** a < b in JavaScript's string order: first differing character decides, and a proper prefix is smaller. */
  predicate StringLess(a: string, b: string)
    decreases |a|
  {
    if a == [] then b != []
    else if b == [] then false
    else if a[0] != b[0] then a[0] < b[0]
    else StringLess(a[1..], b[1..])
  }

  lemma {:induction false} StringLessAsym(a: string, b: string)
    ensures !(StringLess(a, b) && StringLess(b, a))
    decreases |a|
  {
    if a != [] && b != [] && a[0] == b[0] {
      StringLessAsym(a[1..], b[1..]);
    }
  }

  lemma {:induction false} StringLessTrans(a: string, b: string, c: string)
    requires StringLess(a, b) && StringLess(b, c)
    ensures StringLess(a, c)
    decreases |a|
  {
    if a != [] && a[0] == b[0] && b[0] == c[0] {
      StringLessTrans(a[1..], b[1..], c[1..]);
    }
  }

  /** Any two strings are equal or one is below the other. */
  lemma {:induction false} StringLessTotal(a: string, b: string)
    ensures a == b || StringLess(a, b) || StringLess(b, a)
    decreases |a|
  {
    if a != [] && b != [] && a[0] == b[0] {
      StringLessTotal(a[1..], b[1..]);
      if a[1..] == b[1..] {
        assert a == [a[0]] + a[1..] && b == [b[0]] + b[1..];
      }
    }
  }

  /** "Not below" chains: b not below a and c not below b put c not below a. */
  lemma NotBelowTrans(a: string, b: string, c: string)
    requires !StringLess(b, a) && !StringLess(c, b)
    ensures !StringLess(c, a)
  {
    StringLessTotal(a, b);
    if a != b {
      StringLessTotal(b, c);
      if b != c {
        StringLessTrans(a, b, c);
        StringLessAsym(a, c);
      }
    }
  }

  /** Concatenation regroups freely; stated on bare strings so callers need not unfold what built them. */
  lemma ConcatAssoc(x: string, y: string, z: string)
    ensures x + y + z == x + (y + z)
  {
  }

  lemma ConcatEmpty(x: string)
    ensures "" + x == x && x + "" == x
  {
  }

  /** The characters of integers joined with `+`: those of the integers, and `+`. */
  predicate PlusListChar(c: char) {
    c == '+' || NumberChar(c)
  }

  lemma PlusListAppend(a: string, b: string)
    requires forall i | 0 <= i < |a| :: PlusListChar(a[i])
    requires forall i | 0 <= i < |b| :: PlusListChar(b[i])
    ensures forall i | 0 <= i < |a + "+" + b| :: PlusListChar((a + "+" + b)[i])
  {
    forall i | 0 <= i < |a + "+" + b|
      ensures PlusListChar((a + "+" + b)[i])
    {
      if i > |a| {
        assert (a + "+" + b)[i] == b[i - |a| - 1];
      }
    }
  }

  lemma {:induction false} JoinChars(xs: seq<int>)
    ensures forall i | 0 <= i < |Join(xs, "+")| :: PlusListChar(Join(xs, "+")[i])
    decreases |xs|
  {
    if xs != [] {
      IntToStringChars(xs[0]);
      if |xs| > 1 {
        JoinChars(xs[1..]);
        PlusListAppend(IntToString(xs[0]), Join(xs[1..], "+"));
      }
    }
  }

  /**
   * String.prototype.split with a one-character separator: the pieces between
   * separators, in order, empty ones included.
   */
  function Split(s: string, sep: char): (parts: seq<string>)
    ensures |parts| >= 1
    decreases |s|
  {
    if s == [] then [[]]
    else
      var rest := Split(s[1..], sep);
      if s[0] == sep then [[]] + rest
      else [[s[0]] + rest[0]] + rest[1..]
  }

  /** Text without the separator is a single piece. */
  lemma {:induction false} SplitNoSep(s: string, sep: char)
    requires forall i | 0 <= i < |s| :: s[i] != sep
    ensures Split(s, sep) == [s]
    decreases |s|
  {
    if s != [] {
      SplitNoSep(s[1..], sep);
      assert [s[0]] + s[1..] == s;
    }
  }

  /** Splitting at a separator splits each side apart. */
  lemma {:induction false} SplitSep(a: string, b: string, sep: char)
    ensures Split(a + [sep] + b, sep) == Split(a, sep) + Split(b, sep)
    decreases |a|
  {
    var s := a + [sep] + b;
    if a == [] {
      assert s[0] == sep && s[1..] == b;
    } else {
      SplitSep(a[1..], b, sep);
      assert s[0] == a[0] && s[1..] == a[1..] + [sep] + b;
    }
  }

  /** The last of the pieces (empty when there are none). */
  function LastPiece(parts: seq<string>): string {
    if parts == [] then "" else parts[|parts| - 1]
  }

  /** The text without its last character. */
  function DropLast(s: string): string {
    if s == [] then s else s[..|s| - 1]
  }

  predicate EndsWith(s: string, c: char) {
    s != [] && s[|s| - 1] == c
  }

  /** After the last separator comes the text that holds none. */
  lemma LastAfter(front: string, tail: string, sep: char)
    requires forall i | 0 <= i < |tail| :: tail[i] != sep
    ensures LastPiece(Split(front + [sep] + tail, sep)) == tail
  {
    SplitSep(front, tail, sep);
    SplitNoSep(tail, sep);
  }

  /** Two pieces joined by one separator, neither holding it, split back into exactly those two. */
  lemma FieldPair(a: string, b: string, sep: char)
    requires forall i | 0 <= i < |a| :: a[i] != sep
    requires forall i | 0 <= i < |b| :: b[i] != sep
    ensures Split(a + [sep] + b, sep) == [a, b]
  {
    SplitSep(a, b, sep);
    SplitNoSep(a, sep);
    SplitNoSep(b, sep);
  }

  /** A first piece without the separator comes off whole. */
  lemma SplitPrepend(head: string, tail: string, sep: char)
    requires forall i | 0 <= i < |head| :: head[i] != sep
    ensures Split(head + [sep] + tail, sep) == [head] + Split(tail, sep)
  {
    SplitSep(head, tail, sep);
    SplitNoSep(head, sep);
  }

  /** String(n) of each integer, in order. */
  function Texts(xs: seq<int>): (ts: seq<string>)
    ensures |ts| == |xs|
    decreases |xs|
  {
    if xs == [] then [] else [IntToString(xs[0])] + Texts(xs[1..])
  }

  /** Each text parses back to its integer. */
  lemma {:induction false} TextsParse(xs: seq<int>)
    ensures forall i | 0 <= i < |xs| :: ParseInt(Texts(xs)[i]) == Some(xs[i])
    decreases |xs|
  {
    if xs != [] {
      TextsParse(xs[1..]);
      IntToStringParses(xs[0]);
      forall i | 1 <= i < |xs|
        ensures ParseInt(Texts(xs)[i]) == Some(xs[i])
      {
        assert Texts(xs)[i] == Texts(xs[1..])[i - 1];
        assert xs[i] == xs[1..][i - 1];
      }
    }
  }

  /** Integers joined with `+` split back into their own texts. */
  lemma {:induction false} JoinPieces(xs: seq<int>)
    requires xs != []
    ensures Split(Join(xs, "+"), '+') == Texts(xs)
    decreases |xs|
  {
    var head := IntToString(xs[0]);
    IntToStringChars(xs[0]);
    if |xs| == 1 {
      SplitNoSep(head, '+');
      assert Texts(xs) == [head] + Texts([]);
    } else {
      JoinPieces(xs[1..]);
      SplitPrepend(head, Join(xs[1..], "+"), '+');
    }
  }

  /** Joining at least one integer writes something. */
  lemma JoinNonEmpty(xs: seq<int>)
    requires xs != []
    ensures Join(xs, "+") != []
  {
    var head := IntToString(xs[0]);
    if |xs| > 1 {
      assert Join(xs, "+") == head + "+" + Join(xs[1..], "+");
    }
  }

  /** Integers joined with `+` read back: split at `+`, each piece parses to its integer. */
  lemma JoinSplit(xs: seq<int>)
    requires xs != []
    ensures var parts := Split(Join(xs, "+"), '+');
      |parts| == |xs| && forall i | 0 <= i < |xs| :: ParseInt(parts[i]) == Some(xs[i])
  {
    JoinPieces(xs);
    TextsParse(xs);
  }
}
