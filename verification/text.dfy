/** The string primitives the page relies on: Python's `str.strip()` with no
    argument, `str.lower()`, and decimal rendering of a non-negative `int`
    (f-string `{n}` and `{n:02d}`). */
module Text {
  import opened Wrappers

  /** The code points Python's `str.isspace()` accepts, which is the set
      `str.strip()` removes. */
  predicate IsSpace(c: char) {
    var n := c as int;
    || 9 <= n <= 13 || 28 <= n <= 32 || n == 0x85 || n == 0xA0 || n == 0x1680
    || 0x2000 <= n <= 0x200A || n == 0x2028 || n == 0x2029 || n == 0x202F
    || n == 0x205F || n == 0x3000
  }

  /** Every character of `s` is whitespace (vacuously true of ""). */
  predicate AllSpace(s: string) {
    forall i | 0 <= i < |s| :: IsSpace(s[i])
  }

  /** `s` neither starts nor ends with whitespace. */
  predicate Trimmed(s: string) {
    s == [] || (!IsSpace(s[0]) && !IsSpace(s[|s| - 1]))
  }

  /** `s` without its leading whitespace. */
  function TrimLeft(s: string): (r: string)
    ensures |r| <= |s| && r == s[|s| - |r|..]
    ensures AllSpace(s[..|s| - |r|])
    ensures r == [] || !IsSpace(r[0])
  {
    if s != [] && IsSpace(s[0]) then TrimLeft(s[1..]) else s
  }

  /** `s` without its trailing whitespace. */
  function TrimRight(s: string): (r: string)
    ensures |r| <= |s| && r == s[..|r|]
    ensures AllSpace(s[|r|..])
    ensures r == [] || !IsSpace(r[|r| - 1])
  {
    if s != [] && IsSpace(s[|s| - 1]) then
      var init := s[..|s| - 1];
      var t := TrimRight(init);
      assert init[..|t|] == s[..|t|];
      assert s[|t|..] == init[|t|..] + [s[|s| - 1]];
      t
    else s
  }

  /** Python `s.strip()`: the result is the infix of `s` left after removing
      a whitespace prefix and a whitespace suffix, and it has no whitespace
      at either end. */
  function Strip(s: string): (r: string)
    ensures Trimmed(r)
  {
    var l := TrimLeft(s);
    var r := TrimRight(l);
    assert r != [] ==> r[0] == l[0];
    r
  }

  /** What `Strip` removes is whitespace, from the two ends only. */
  lemma StripInfix(s: string)
    ensures exists i, j | 0 <= i <= j <= |s| :: Strip(s) == s[i..j] && AllSpace(s[..i]) && AllSpace(s[j..])
  {
    var l := TrimLeft(s);
    var r := TrimRight(l);
    var i := |s| - |l|;
    assert r == s[i..i + |r|];
    assert s[i + |r|..] == l[|r|..];
  }

  /** A string with no whitespace at either end is its own strip. */
  lemma StripTrimmed(s: string)
    requires Trimmed(s)
    ensures Strip(s) == s
  {
    assert TrimLeft(s) == s;
    assert TrimRight(s) == s;
  }

  /** Stripping twice is the same as stripping once. */
  lemma StripIdempotent(s: string)
    ensures Strip(Strip(s)) == Strip(s)
  {
    StripTrimmed(Strip(s));
  }

  /** A worked instance: one space on each side of a word is removed. */
  lemma StripPaddedWord(s: string)
    requires s == " JOAO "
    ensures Strip(s) == "JOAO"
  {
    assert s == [' '] + "JOAO" + [' '];
    StripPadded("JOAO");
  }

  /** One space on each side of a trimmed word is all that `Strip` removes. */
  lemma StripPadded(w: string)
    requires Trimmed(w)
    ensures Strip([' '] + w + [' ']) == w
  {
    var s := [' '] + w + [' '];
    var tail := w + [' '];
    assert s[1..] == tail;
    if w == [] {
      assert TrimLeft(tail) == [];
    } else {
      assert tail[0] == w[0];
      assert TrimLeft(s) == tail;
      assert tail[..|tail| - 1] == w;
      assert TrimRight(w) == w;
    }
  }

  /** A string strips to "" exactly when it is all whitespace. */
  lemma StripEmpty(s: string)
    ensures Strip(s) == [] <==> AllSpace(s)
  {
    if Strip(s) == [] {
      StripInfix(s);
      var i, j :| 0 <= i <= j <= |s| && Strip(s) == s[i..j] && AllSpace(s[..i]) && AllSpace(s[j..]);
      forall k | 0 <= k < |s| ensures IsSpace(s[k]) {
        if k < i {
          assert s[..i][k] == s[k];
        } else {
          assert s[j..][k - j] == s[k];
        }
      }
    }
  }

  /** Python's `str.lower()` on one character, for ASCII and Latin-1: the
      upper-case letters A..Z and U+00C0..U+00DE (except U+00D7, the
      multiplication sign) move up by 32. */
  function LowerChar(c: char): char {
    if 'A' <= c <= 'Z' || ('\U{C0}' <= c <= '\U{DE}' && c != '\U{D7}') then
      (c as int + 32) as char
    else c
  }

  /** An upper-case letter in the range `LowerChar` covers. */
  predicate IsUpper(c: char) {
    'A' <= c <= 'Z' || ('\U{C0}' <= c <= '\U{DE}' && c != '\U{D7}')
  }

  /** Python `s.lower()`: character by character, same length. */
  function Lower(s: string): (r: string)
    ensures |r| == |s|
    ensures forall i | 0 <= i < |s| :: r[i] == LowerChar(s[i])
  {
    if s == [] then [] else [LowerChar(s[0])] + Lower(s[1..])
  }

  /** No upper-case letter survives lowering. */
  lemma LowerHasNoUpper(s: string)
    ensures forall i | 0 <= i < |s| :: !IsUpper(Lower(s)[i])
  {
  }

  /** Lowering twice is the same as lowering once. */
  lemma LowerIdempotent(s: string)
    ensures Lower(Lower(s)) == Lower(s)
  {
  }

  /** Lowering maps whitespace to itself and nothing else to whitespace. */
  lemma LowerCharSpace(c: char)
    ensures IsSpace(LowerChar(c)) <==> IsSpace(c)
  {
  }

  lemma {:induction false} LowerTrimLeft(s: string)
    ensures Lower(TrimLeft(s)) == TrimLeft(Lower(s))
  {
    if s != [] {
      LowerCharSpace(s[0]);
      assert Lower(s)[1..] == Lower(s[1..]);
      LowerTrimLeft(s[1..]);
    }
  }

  lemma {:induction false} LowerTrimRight(s: string)
    ensures Lower(TrimRight(s)) == TrimRight(Lower(s))
  {
    if s != [] {
      LowerCharSpace(s[|s| - 1]);
      assert Lower(s)[..|s| - 1] == Lower(s[..|s| - 1]);
      LowerTrimRight(s[..|s| - 1]);
    }
  }

  /** Lowering and stripping can be applied in either order: the page strips
      the counselor tag and then lowers it, and the result is the same as
      lowering first. */
  lemma LowerStripCommute(s: string)
    ensures Lower(Strip(s)) == Strip(Lower(s))
  {
    LowerTrimLeft(s);
    LowerTrimRight(TrimLeft(s));
  }

  /** The decimal digit characters, indexed by their value. */
  const Digits: string := "0123456789"

  /** `c` is one of '0'..'9'. */
  predicate IsDigit(c: char) {
    '0' <= c <= '9'
  }

  /** The value of a digit character. */
  function DigitValue(c: char): (d: nat)
    requires IsDigit(c)
    ensures d < 10 && Digits[d] == c
  {
    c as int - '0' as int
  }

  /** Python `str(n)` for a non-negative integer: no sign, no padding. */
  function Decimal(n: nat): (r: string)
    decreases n
  {
    if n < 10 then [Digits[n]] else Decimal(n / 10) + [Digits[n % 10]]
  }

  /** Python `f"{n:02d}"` for 0 <= n < 100: exactly two digits, zero-padded. */
  function Pad2(n: nat): (r: string)
    requires n < 100
    ensures |r| == 2 && IsDigit(r[0]) && IsDigit(r[1])
    ensures DigitValue(r[0]) * 10 + DigitValue(r[1]) == n
  {
    [Digits[n / 10], Digits[n % 10]]
  }

  /** Reads a canonical decimal numeral back: non-empty, digits only, and no
      leading zero unless the numeral is "0". */
  function ParseDecimal(s: string): Option<nat> {
    if s == [] || (s[0] == '0' && |s| > 1) then None
    else ParseDigits(s)
  }

  /** The value of a non-empty string of digits, if it is one. */
  function ParseDigits(s: string): Option<nat>
    decreases |s|
  {
    if s == [] || !IsDigit(s[|s| - 1]) then None
    else if |s| == 1 then Some(DigitValue(s[0]))
    else match ParseDigits(s[..|s| - 1])
      case None => None
      case Some(v) => Some(v * 10 + DigitValue(s[|s| - 1]))
  }

  /** A rendered number is a non-empty string of digits with no leading zero
      (apart from "0" itself), so it contains no whitespace and no '-'. */
  lemma {:induction false} DecimalShape(n: nat)
    ensures |Decimal(n)| > 0
    ensures forall i | 0 <= i < |Decimal(n)| :: IsDigit(Decimal(n)[i])
    ensures Decimal(n)[0] == '0' ==> n == 0
  {
    if n >= 10 {
      DecimalShape(n / 10);
      assert Decimal(n)[0] == Decimal(n / 10)[0];
    }
  }

  /** Rendering and reading a number back gives the number. */
  lemma {:induction false} DecimalRoundTrip(n: nat)
    ensures ParseDecimal(Decimal(n)) == Some(n)
  {
    DecimalShape(n);
    DigitsRoundTrip(n);
  }

  lemma {:induction false} DigitsRoundTrip(n: nat)
    ensures ParseDigits(Decimal(n)) == Some(n)
    decreases n
  {
    if n >= 10 {
      DigitsRoundTrip(n / 10);
      var s := Decimal(n);
      assert s[..|s| - 1] == Decimal(n / 10);
    }
  }
}
