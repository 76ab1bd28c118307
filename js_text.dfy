/**
  The two pieces of JavaScript string handling the frontend relies on:
  `String.prototype.trim` and `parseInt(s, 10)`, over the whitespace the
  ECMAScript standard (section 12.2, White Space, and section 12.3, Line
  Terminators) names.
*/
module JsText {
  import opened Digits

  /** The WhiteSpace and LineTerminator code points of ECMAScript. */
  predicate IsJsSpace(c: char) {
    c == '\t' || c == '\n' || c == '\U{B}' || c == '\U{C}' || c == '\r' || c == ' ' ||
    c == '\U{A0}' || c == '\U{1680}' || ('\U{2000}' <= c <= '\U{200A}') ||
    c == '\U{2028}' || c == '\U{2029}' || c == '\U{202F}' || c == '\U{205F}' ||
    c == '\U{3000}' || c == '\U{FEFF}'
  }

  /** Neither end of `s` is whitespace. */
  predicate IsTrimmed(s: string) {
    s == [] || (!IsJsSpace(s[0]) && !IsJsSpace(s[|s| - 1]))
  }

  /** The first position from `i` on that is not whitespace, or `|s|`. */
  function TextStart(s: string, i: nat): (a: nat)
    requires i <= |s|
    ensures i <= a <= |s|
    ensures forall k :: i <= k < a ==> IsJsSpace(s[k])
    ensures a < |s| ==> !IsJsSpace(s[a])
    decreases |s| - i
  {
    if i < |s| && IsJsSpace(s[i]) then TextStart(s, i + 1) else i
  }

  /** The position just after the last non-whitespace character in `s[lo..j]`, or `lo`. */
  function TextEnd(s: string, lo: nat, j: nat): (b: nat)
    requires lo <= j <= |s|
    ensures lo <= b <= j
    ensures forall k :: b <= k < j ==> IsJsSpace(s[k])
    ensures b > lo ==> !IsJsSpace(s[b - 1])
  {
    if j > lo && IsJsSpace(s[j - 1]) then TextEnd(s, lo, j - 1) else j
  }

  /** `s.trim()`. */
  function Trim(s: string): (r: string)
    ensures IsTrimmed(r)
  {
    var a := TextStart(s, 0);
    s[a..TextEnd(s, a, |s|)]
  }

  /**
    What `trim` removes is whitespace and only whitespace: the result is the
    slice of `s` from position `a`, with whitespace before it and after it.
  */
  lemma TrimSlice(s: string) returns (a: nat)
    ensures a + |Trim(s)| <= |s| && Trim(s) == s[a..a + |Trim(s)|]
    ensures forall i :: 0 <= i < a ==> IsJsSpace(s[i])
    ensures forall i :: a + |Trim(s)| <= i < |s| ==> IsJsSpace(s[i])
  {
    a := TextStart(s, 0);
  }

  /** A string with no whitespace at either end is its own trim. */
  lemma TrimTrimmed(s: string)
    requires IsTrimmed(s)
    ensures Trim(s) == s
  {
    assert TextStart(s, 0) == 0;
    assert TextEnd(s, 0, |s|) == |s|;
  }

  /** Trimming twice is trimming once. */
  lemma TrimIdempotent(s: string)
    ensures Trim(Trim(s)) == Trim(s)
  {
    TrimTrimmed(Trim(s));
  }

  /** The value `parseInt` returns: `NaN`, or an integer (`-0` shows as 0). */
  datatype JsNumber = NaN | Finite(value: int)

  /** The end of the run of ASCII digits that starts at position `i`. */
  function DigitsEnd(s: string, i: nat): (j: nat)
    requires i <= |s|
    ensures i <= j <= |s|
    ensures forall k :: i <= k < j ==> IsDigit(s[k])
    ensures j < |s| ==> !IsDigit(s[j])
    decreases |s| - i
  {
    if i < |s| && IsDigit(s[i]) then DigitsEnd(s, i + 1) else i
  }

  /**
    `parseInt(s, 10)`: leading whitespace is skipped, one `+` or `-` is read,
    then the longest run of digits; without a digit the result is `NaN`.
    Anything after the digits is ignored.
  */
  function ParseInt(s: string): JsNumber {
    var a := TextStart(s, 0);
    var negative := a < |s| && s[a] == '-';
    var start := if a < |s| && (s[a] == '-' || s[a] == '+') then a + 1 else a;
    var end := DigitsEnd(s, start);
    if end == start then NaN
    else
      var magnitude: int := NumberOf(s[start..end]);
      Finite(if negative then -magnitude else magnitude)
  }

  /** The decimal spelling of an integer, with a minus sign when it is negative. */
  function Spell(n: int): string {
    (if n < 0 then "-" else "") + DecimalDigits(if n < 0 then -n else n)
  }

  /** A run of digits from `i` to `j` that is not followed by a digit ends at `j`. */
  lemma {:induction false} DigitsEndAt(s: string, i: nat, j: nat)
    requires i <= j <= |s|
    requires forall k :: i <= k < j ==> IsDigit(s[k])
    requires j == |s| || !IsDigit(s[j])
    ensures DigitsEnd(s, i) == j
    decreases j - i
  {
    if i < j {
      DigitsEndAt(s, i + 1, j);
    }
  }

  /** A sign, a run of digits and text that does not go on with a digit read as the signed number. */
  lemma ParseDigits(negative: bool, digits: string, tail: string)
    requires AllDigits(digits) && digits != []
    requires tail == [] || !IsDigit(tail[0])
    ensures ParseInt((if negative then "-" else "") + digits + tail) ==
              Finite(if negative then -(NumberOf(digits) as int) else NumberOf(digits))
  {
    var sign := if negative then "-" else "";
    var x := sign + digits + tail;
    var start := |sign|;
    assert IsDigit(digits[0]);
    assert !IsJsSpace(x[0]);
    assert TextStart(x, 0) == 0;
    forall k | start <= k < start + |digits|
      ensures IsDigit(x[k])
    {
      assert x[k] == digits[k - start];
    }
    DigitsEndAt(x, start, start + |digits|);
    assert x[start..start + |digits|] == digits;
  }

  /** `parseInt` reads back the spelling of any integer, even with a fractional part after it. */
  lemma ParseSpell(n: int, tail: string)
    requires tail == [] || !IsDigit(tail[0])
    ensures ParseInt(Spell(n) + tail) == Finite(n)
  {
    var m := if n < 0 then -n else n;
    var digits := DecimalDigits(m);
    NumberOfDecimalDigits(m);
    ParseDigits(n < 0, digits, tail);
  }

  /** Line 143: the typed level read as a decimal integer, where `NaN` and zero, being falsy, both become 1. */
  function LevelDefault(input: string): (level: int)
    ensures level != 0
  {
    match ParseInt(input)
    case NaN => 1
    case Finite(v) => if v == 0 then 1 else v
  }

  /** A typed integer is taken as the level, except 0, which becomes 1. */
  lemma LevelOfNumber(n: int, tail: string)
    requires tail == [] || !IsDigit(tail[0])
    ensures LevelDefault(Spell(n) + tail) == if n == 0 then 1 else n
  {
    ParseSpell(n, tail);
  }

  /** Text with no digit in it gives level 1. */
  lemma LevelOfText(input: string)
    requires forall i :: 0 <= i < |input| ==> !IsDigit(input[i])
    ensures LevelDefault(input) == 1
  {
  }

  /** An empty field and a word give level 1. */
  lemma LevelWithoutDigits()
    ensures LevelDefault("") == 1
    ensures LevelDefault("abc") == 1
  {
    LevelOfText("");
    LevelOfText("abc");
  }

  /** A fraction is read up to its point, a negative number stays negative, and negative zero gives 1. */
  lemma LevelWithDigits()
    ensures LevelDefault(" 4.5") == 4
    ensures LevelDefault("-3") == -3
    ensures LevelDefault("-0") == 1
  {
    assert TextStart(" 4.5", 0) == 1;
    DigitsEndAt(" 4.5", 1, 2);
    assert " 4.5"[1..2] == "4";
    ParseDigits(true, "3", "");
    assert "-3" == "-" + "3" + "";
    ParseDigits(true, "0", "");
    assert "-0" == "-" + "0" + "";
  }
}
