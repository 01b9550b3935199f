/** The string operations the system relies on: `String(n)` on integers,
    `padStart`, `split` on a one-character separator, `parseInt(s, 10)`
    and `toLowerCase`, on strings as sequences of characters. */
module Text {
  import opened Wrappers

  predicate IsDigit(c: char) {
    '0' <= c <= '9'
  }

  predicate AllDigits(s: string) {
    forall i :: 0 <= i < |s| ==> IsDigit(s[i])
  }

  function DigitChar(d: nat): (c: char)
    requires d < 10
    ensures IsDigit(c) && c as int - '0' as int == d
  {
    "0123456789"[d]
  }

  /** The value of a string of decimal digits. */
  function DigitsValue(s: string): nat
    requires AllDigits(s)
  {
    if s == [] then 0
    else DigitsValue(s[..|s| - 1]) * 10 + (s[|s| - 1] as int - '0' as int)
  }

  /** `String(n)` for a non-negative integer. */
  function NatToString(n: nat): string {
    if n < 10 then [DigitChar(n)] else NatToString(n / 10) + [DigitChar(n % 10)]
  }

  /** `String(i)` for any integer: a minus sign before a negative one. */
  function IntToString(i: int): string {
    if i < 0 then "-" + NatToString(-i) else NatToString(i)
  }

  /** `s.padStart(len, [c])`. */
  function PadStart(s: string, len: nat, c: char): string
    decreases len - |s|
  {
    if |s| >= len then s else PadStart([c] + s, len, c)
  }

  /** `s.split(sep)` for a one-character separator: always at least one
      part, and exactly one more part than there are separators. */
  function Split(s: string, sep: char): (parts: seq<string>)
    ensures |parts| >= 1
  {
    if s == [] then [[]]
    else
      var rest := Split(s[1..], sep);
      if s[0] == sep then [[]] + rest else [[s[0]] + rest[0]] + rest[1..]
  }

  /** The longest prefix of `s` made of decimal digits. */
  function LeadingDigits(s: string): (d: string)
    ensures AllDigits(d) && |d| <= |s| && d == s[..|d|]
  {
    if s == [] || !IsDigit(s[0]) then [] else [s[0]] + LeadingDigits(s[1..])
  }

  /** `parseInt(s, 10)` without leading white space: an optional sign, then
      the leading digits; `None` stands for `NaN` (no digit at all). */
  function ParseInt(s: string): Option<int> {
    var sign := if s != [] && s[0] == '-' then -1 else 1;
    var body := if s != [] && (s[0] == '-' || s[0] == '+') then s[1..] else s;
    var digits := LeadingDigits(body);
    if digits == [] then None else Some(sign * DigitsValue(digits))
  }

  function LowerChar(c: char): char {
    if 'A' <= c <= 'Z' then (c as int - 'A' as int + 'a' as int) as char else c
  }

  /** `s.toLowerCase()` on the ASCII letters. */
  function ToLower(s: string): (r: string)
    ensures |r| == |s|
    ensures forall i :: 0 <= i < |s| ==> r[i] == LowerChar(s[i])
  {
    seq(|s|, i requires 0 <= i < |s| => LowerChar(s[i]))
  }

  // ---------------------------------------------------------------------
  // Shapes of the formatted strings (kept out of the functions' contracts so
  // that formatting a date does not drag them into every proof about it)

  /** The decimal form of `n` is a non-empty run of digits, one digit long
      below 10 and two digits long below 100. */
  lemma {:induction false} NatToStringDigits(n: nat)
    ensures var s := NatToString(n);
      |s| >= 1 && AllDigits(s)
      && (n < 10 ==> |s| == 1)
      && (10 <= n < 100 ==> |s| == 2)
  {
    if n >= 10 {
      NatToStringDigits(n / 10);
    }
  }

  /** `String(i)` holds a minus sign exactly when `i` is negative. */
  lemma IntToStringSign(i: int)
    ensures '-' in IntToString(i) <==> i < 0
  {
    NatToStringDigits(if i < 0 then -i else i);
    if i < 0 {
      assert IntToString(i)[0] == '-';
    }
  }

  /** `padStart` reaches the requested length, keeps `s` at the end and
      fills the front with the pad character. */
  lemma {:induction false} PadStartShape(s: string, len: nat, c: char)
    ensures var r := PadStart(s, len, c);
      && |r| == (if |s| >= len then |s| else len)
      && r[|r| - |s|..] == s
      && forall i :: 0 <= i < |r| - |s| ==> r[i] == c
    decreases len - |s|
  {
    if |s| < len {
      var r := PadStart([c] + s, len, c);
      PadStartShape([c] + s, len, c);
      var k := |r| - |s| - 1;
      assert r[k..] == [c] + s;
      assert r[k] == c && r[k + 1..] == s by {
        assert r[k..][0] == c && r[k..][1..] == s;
      }
    }
  }

  // ---------------------------------------------------------------------
  // Round trips

  lemma {:induction false} DigitsValueAppend(s: string, d: nat)
    requires AllDigits(s) && d < 10
    ensures AllDigits(s + [DigitChar(d)])
    ensures DigitsValue(s + [DigitChar(d)]) == DigitsValue(s) * 10 + d
  {
    assert (s + [DigitChar(d)])[..|s|] == s;
  }

  /** Reading back the decimal form of `n` gives `n`. */
  lemma {:induction false} NatToStringValue(n: nat)
    ensures AllDigits(NatToString(n)) && DigitsValue(NatToString(n)) == n
  {
    NatToStringDigits(n);
    if n < 10 {
      assert NatToString(n)[..0] == [];
    } else {
      NatToStringValue(n / 10);
      DigitsValueAppend(NatToString(n / 10), n % 10);
    }
  }

  /** Leading zeros do not change the value of a digit string. */
  lemma {:induction false} LeadingZeroValue(s: string)
    requires AllDigits(s)
    ensures AllDigits("0" + s) && DigitsValue("0" + s) == DigitsValue(s)
  {
    if s != [] {
      var init := s[..|s| - 1];
      LeadingZeroValue(init);
      assert ("0" + s)[..|s|] == "0" + init;
    }
  }

  /** Every leading digit is read: a string of digits is its own digit prefix. */
  lemma {:induction false} LeadingDigitsOfDigits(d: string, rest: string)
    requires AllDigits(d)
    requires rest == [] || !IsDigit(rest[0])
    ensures LeadingDigits(d + rest) == d
  {
    if d != [] {
      assert (d + rest)[1..] == d[1..] + rest;
      LeadingDigitsOfDigits(d[1..], rest);
    } else {
      assert d + rest == rest;
    }
  }

  /** A part without the separator is split off as it stands. */
  lemma {:induction false} SplitFirst(x: string, sep: char, rest: string)
    requires sep !in x
    ensures Split(x + [sep] + rest, sep) == [x] + Split(rest, sep)
  {
    if x == [] {
      assert x + [sep] + rest == [sep] + rest;
      assert ([sep] + rest)[1..] == rest;
    } else {
      var s := x + [sep] + rest;
      assert s[0] == x[0] && s[1..] == x[1..] + [sep] + rest;
      SplitFirst(x[1..], sep, rest);
      assert [x[0]] + x[1..] == x;
    }
  }

  /** Without the separator there is nothing to split. */
  lemma {:induction false} SplitNone(x: string, sep: char)
    requires sep !in x
    ensures Split(x, sep) == [x]
  {
    if x != [] {
      SplitNone(x[1..], sep);
      assert [x[0]] + x[1..] == x;
    }
  }

  /** The last part is what follows the last separator. */
  lemma {:induction false} SplitLast(x: string, sep: char, y: string)
    requires sep !in y
    ensures |Split(x + [sep] + y, sep)| >= 2
    ensures Split(x + [sep] + y, sep)[|Split(x + [sep] + y, sep)| - 1] == y
  {
    var s := x + [sep] + y;
    if x == [] {
      assert s == [sep] + y && s[1..] == y;
      SplitNone(y, sep);
    } else {
      assert s[0] == x[0] && s[1..] == x[1..] + [sep] + y;
      SplitLast(x[1..], sep, y);
    }
  }
}
