/**
 * The small part of JavaScript's string and number semantics that the screens
 * rely on: `String.prototype.trim`, `parseInt`, `Number(string)`, decimal
 * rendering of integers, `split`, truthiness and `toLowerCase` on the
 * letters the screens pass to it.
 *
 * JavaScript numbers are modelled as integers or NaN; every value the
 * screens compute from user text is one of those two.
 */
module JsText {

  datatype Option<T> = None | Some(value: T)

  /** A JavaScript number as produced by `parseInt` / `Number`: an integer or NaN. */
  datatype JsNum = NaN | Num(n: int)

  /** JavaScript truthiness of a number: NaN and 0 are falsy. */
  predicate NumTruthy(x: JsNum) {
    x.Num? && x.n != 0
  }

  /** `a <= b` on JavaScript numbers: false as soon as either side is NaN. */
  predicate JsLe(a: JsNum, b: JsNum) {
    a.Num? && b.Num? && a.n <= b.n
  }

  /** `a * k + b` on JavaScript numbers: NaN is absorbing. */
  function JsMulAdd(a: JsNum, k: int, b: JsNum): (r: JsNum)
    ensures r.Num? <==> a.Num? && b.Num?
  {
    if a.Num? && b.Num? then Num(a.n * k + b.n) else NaN
  }

  // ---------------------------------------------------------------------
  // Whitespace and trimming

  /** The characters `trim` removes: WhiteSpace and LineTerminator of ECMAScript. */
  predicate IsJsWhitespace(c: char) {
    || c == '\U{0009}' || c == '\U{000A}' || c == '\U{000B}' || c == '\U{000C}'
    || c == '\U{000D}' || c == '\U{0020}' || c == '\U{00A0}' || c == '\U{1680}'
    || ('\U{2000}' <= c <= '\U{200A}')
    || c == '\U{2028}' || c == '\U{2029}' || c == '\U{202F}' || c == '\U{205F}'
    || c == '\U{3000}' || c == '\U{FEFF}'
  }

  /** Leading whitespace removed. */
  function TrimStart(s: string): (r: string)
    ensures |r| <= |s|
  {
    if s != [] && IsJsWhitespace(s[0]) then TrimStart(s[1..]) else s
  }

  /** Trailing whitespace removed. */
  function TrimEnd(s: string): (r: string)
    ensures |r| <= |s|
  {
    if s != [] && IsJsWhitespace(s[|s| - 1]) then TrimEnd(s[..|s| - 1]) else s
  }

  /** `TrimStart` drops a whitespace prefix and stops at the first other character. */
  lemma {:induction false} TrimStartSpec(s: string)
    ensures var r := TrimStart(s);
      && r == s[|s| - |r|..]
      && (r != [] ==> !IsJsWhitespace(r[0]))
      && (forall i :: 0 <= i < |s| - |r| ==> IsJsWhitespace(s[i]))
  {
    if s != [] && IsJsWhitespace(s[0]) {
      TrimStartSpec(s[1..]);
    }
  }

  /** `TrimEnd` drops a whitespace suffix and stops at the last other character. */
  lemma {:induction false} TrimEndSpec(s: string)
    ensures var r := TrimEnd(s);
      && r == s[..|r|]
      && (r != [] ==> !IsJsWhitespace(r[|r| - 1]))
      && (forall i :: |r| <= i < |s| ==> IsJsWhitespace(s[i]))
  {
    if s != [] && IsJsWhitespace(s[|s| - 1]) {
      TrimEndSpec(s[..|s| - 1]);
    }
  }

  /** The number of whitespace characters `s` starts with. */
  function LeadingWhitespace(s: string): (k: nat)
    ensures k <= |s|
  {
    |s| - |TrimStart(s)|
  }

  /** `s.trim()`: whitespace removed from both ends. */
  function Trim(s: string): (r: string)
    ensures |r| <= |s|
  {
    TrimEnd(TrimStart(s))
  }

  /**
   * What `Trim` leaves: the infix of `s` that follows its leading whitespace,
   * with only whitespace after it, and neither starting nor ending with
   * whitespace.
   */
  lemma TrimSpec(s: string)
    ensures var r := Trim(s);
      && (r != [] ==> !IsJsWhitespace(r[0]) && !IsJsWhitespace(r[|r| - 1]))
      && LeadingWhitespace(s) + |r| <= |s|
      && r == s[LeadingWhitespace(s)..LeadingWhitespace(s) + |r|]
      && (forall i :: 0 <= i < LeadingWhitespace(s) ==> IsJsWhitespace(s[i]))
      && (forall i :: LeadingWhitespace(s) + |r| <= i < |s| ==> IsJsWhitespace(s[i]))
  {
    var a := TrimStart(s);
    var b := TrimEnd(a);
    var k := |s| - |a|;
    TrimStartSpec(s);
    TrimEndSpec(a);
    assert b == s[k..k + |b|];
  }

  /** Blanks around a string are trimmed away whatever the string is. */
  lemma PaddedTrim(pad: string, x: string, pad2: string)
    requires forall i :: 0 <= i < |pad| ==> IsJsWhitespace(pad[i])
    requires forall i :: 0 <= i < |pad2| ==> IsJsWhitespace(pad2[i])
    ensures Trim(pad + x + pad2) == Trim(x)
  {
    TrimStartPadded(pad, x + pad2);
    assert pad + x + pad2 == pad + (x + pad2);
    TrimStartAppend(x, pad2);
    if TrimStart(x) != [] {
      TrimEndPadded(TrimStart(x), pad2);
    } else {
      TrimStartPadded(pad2, []);
      assert pad2 + [] == pad2;
    }
  }

  lemma {:induction false} TrimStartPadded(pad: string, x: string)
    requires forall i :: 0 <= i < |pad| ==> IsJsWhitespace(pad[i])
    ensures TrimStart(pad + x) == TrimStart(x)
  {
    if pad != [] {
      assert (pad + x)[0] == pad[0] && (pad + x)[1..] == pad[1..] + x;
      TrimStartPadded(pad[1..], x);
    } else {
      assert pad + x == x;
    }
  }

  lemma {:induction false} TrimEndPadded(x: string, pad: string)
    requires forall i :: 0 <= i < |pad| ==> IsJsWhitespace(pad[i])
    ensures TrimEnd(x + pad) == TrimEnd(x)
  {
    if pad != [] {
      assert (x + pad)[..|x + pad| - 1] == x + pad[..|pad| - 1];
      TrimEndPadded(x, pad[..|pad| - 1]);
    } else {
      assert x + pad == x;
    }
  }

  /** Trimming the start of `x + y` either stops inside `x` or trims `y`. */
  lemma {:induction false} TrimStartAppend(x: string, y: string)
    ensures TrimStart(x) != [] ==> TrimStart(x + y) == TrimStart(x) + y
    ensures TrimStart(x) == [] ==> TrimStart(x + y) == TrimStart(y)
  {
    if x == [] {
      assert x + y == y;
    } else if IsJsWhitespace(x[0]) {
      assert (x + y)[1..] == x[1..] + y;
      TrimStartAppend(x[1..], y);
    }
  }

  /** Trimming is idempotent. */
  lemma TrimIdempotent(s: string)
    ensures Trim(Trim(s)) == Trim(s)
  {
    var t := Trim(s);
    TrimSpec(s);
    TrimOfTrimmed(t);
  }

  /** A string with no whitespace at either end is its own trim. */
  lemma TrimOfTrimmed(s: string)
    requires s != [] ==> !IsJsWhitespace(s[0]) && !IsJsWhitespace(s[|s| - 1])
    ensures Trim(s) == s
  {
    assert TrimStart(s) == s;
    assert TrimEnd(s) == s;
  }

  // ---------------------------------------------------------------------
  // Decimal digits

  predicate IsDigit(c: char) {
    '0' <= c <= '9'
  }

  predicate AllDigits(s: string) {
    forall i :: 0 <= i < |s| ==> IsDigit(s[i])
  }

  function DigitValue(c: char): (d: int)
    requires IsDigit(c)
    ensures 0 <= d < 10
  {
    c as int - '0' as int
  }

  function DigitChar(d: int): (c: char)
    requires 0 <= d < 10
    ensures IsDigit(c) && DigitValue(c) == d
  {
    ('0' as int + d) as char
  }

  /** The value of a string of decimal digits, most significant first. */
  function DigitsValue(s: string): (v: nat)
    requires AllDigits(s)
  {
    if s == [] then 0 else DigitsValue(s[..|s| - 1]) * 10 + DigitValue(s[|s| - 1])
  }

  /** `String(n)` for a natural number: decimal, no leading zeros. */
  function NatToString(n: nat): (s: string)
    ensures s != [] && AllDigits(s)
    ensures DigitsValue(s) == n
    ensures s[0] == '0' ==> n == 0
  {
    if n < 10 then [DigitChar(n)]
    else
      var prefix := NatToString(n / 10);
      var s := prefix + [DigitChar(n % 10)];
      assert s[..|s| - 1] == prefix;
      s
  }

  /** Distinct numbers render as distinct strings. */
  lemma NatToStringInjective(m: nat, n: nat)
    requires NatToString(m) == NatToString(n)
    ensures m == n
  {
    assert DigitsValue(NatToString(m)) == m;
  }

  /** `String(n)` for an integer. */
  function IntToString(n: int): (s: string)
    ensures s != []
  {
    if n < 0 then "-" + NatToString(-n) else NatToString(n)
  }

  // ---------------------------------------------------------------------
  // parseInt

  predicate IsHexDigit(c: char) {
    IsDigit(c) || 'a' <= c <= 'f' || 'A' <= c <= 'F'
  }

  function HexDigitValue(c: char): (d: int)
    requires IsHexDigit(c)
    ensures 0 <= d < 16
  {
    if IsDigit(c) then DigitValue(c)
    else if 'a' <= c <= 'f' then c as int - 'a' as int + 10
    else c as int - 'A' as int + 10
  }

  /** The longest prefix of `s` made of decimal digits. */
  function DigitPrefix(s: string): (p: string)
    ensures AllDigits(p) && p <= s
    ensures |p| < |s| ==> !IsDigit(s[|p|])
  {
    if s != [] && IsDigit(s[0]) then [s[0]] + DigitPrefix(s[1..]) else []
  }

  /** The longest prefix of `s` made of hexadecimal digits. */
  function HexPrefix(s: string): (p: string)
    ensures p <= s && forall i :: 0 <= i < |p| ==> IsHexDigit(p[i])
    ensures |p| < |s| ==> !IsHexDigit(s[|p|])
  {
    if s != [] && IsHexDigit(s[0]) then [s[0]] + HexPrefix(s[1..]) else []
  }

  function HexValue(s: string): nat
    requires forall i :: 0 <= i < |s| ==> IsHexDigit(s[i])
  {
    if s == [] then 0 else HexValue(s[..|s| - 1]) * 16 + HexDigitValue(s[|s| - 1])
  }

  /**
   * `parseInt(s)` with no radix: leading whitespace is skipped, one sign is
   * read, a `0x`/`0X` prefix switches to base 16, and the longest run of
   * digits that follows is the value; no digits at all gives NaN.
   */
  function ParseInt(s: string): (r: JsNum)
    ensures r.Num? ==> TrimStart(s) != []
    ensures r.Num? && r.n < 0 ==> TrimStart(s)[0] == '-'
  {
    var t := TrimStart(s);
    var sign := if t != [] && t[0] == '-' then -1 else 1;
    var u := if t != [] && (t[0] == '-' || t[0] == '+') then t[1..] else t;
    var v := ParseUnsigned(u);
    if v.NaN? then NaN else Num(sign * v.n)
  }

  /** The digits after the sign: hexadecimal after `0x`/`0X`, decimal otherwise. */
  function ParseUnsigned(u: string): (r: JsNum)
    ensures r.Num? ==> r.n >= 0
  {
    if |u| >= 2 && u[0] == '0' && (u[1] == 'x' || u[1] == 'X') then
      var h := HexPrefix(u[2..]);
      if h == [] then NaN else Num(HexValue(h))
    else
      var d := DigitPrefix(u);
      if d == [] then NaN else Num(DigitsValue(d))
  }

  lemma DigitPrefixOfDigits(s: string)
    requires AllDigits(s)
    ensures DigitPrefix(s) == s
  {
    if s != [] {
      DigitPrefixOfDigits(s[1..]);
    }
  }

  /** `parseInt` reads back any non-empty string of decimal digits exactly. */
  lemma ParseIntDigits(s: string)
    requires s != [] && AllDigits(s)
    ensures ParseInt(s) == Num(DigitsValue(s))
  {
    assert TrimStart(s) == s;
    DigitPrefixOfDigits(s);
  }

  /** Round trip: `parseInt(String(n)) == n`. */
  lemma ParseIntOfNatToString(n: nat)
    ensures ParseInt(NatToString(n)) == Num(n)
  {
    ParseIntDigits(NatToString(n));
  }

  /** `parseInt` stops at the first non-digit: trailing garbage is ignored. */
  lemma ParseIntIgnoresSuffix(digits: string, rest: string)
    requires digits != [] && AllDigits(digits)
    requires rest != [] ==> !IsDigit(rest[0]) && rest[0] != 'x' && rest[0] != 'X'
    ensures ParseInt(digits + rest) == Num(DigitsValue(digits))
  {
    var s := digits + rest;
    assert s[0] == digits[0];
    assert TrimStart(s) == s;
    if |digits| >= 2 {
      assert s[1] == digits[1];
    } else if rest != [] {
      assert s[1] == rest[0];
    }
    DigitPrefixSplit(digits, rest);
    assert ParseUnsigned(s) == Num(DigitsValue(digits));
  }

  /** The digits of a natural number followed by a non-digit read back as that number. */
  lemma ParseUnsignedOfNatToString(m: nat, rest: string)
    requires rest != [] ==> !IsDigit(rest[0]) && rest[0] != 'x' && rest[0] != 'X'
    ensures ParseUnsigned(NatToString(m) + rest) == Num(m)
  {
    var d := NatToString(m);
    var u := d + rest;
    DigitPrefixSplit(d, rest);
    if |u| >= 2 && u[0] == '0' {
      assert m == 0 && d == [DigitChar(0)];
      assert u[1] == rest[0];
    }
  }

  /**
   * Round trip with trailing text: `parseInt(String(n) + rest)` is `n` for any
   * integer, negative ones included, when `rest` does not start with a digit
   * or an `x`.
   */
  lemma ParseIntOfIntToString(n: int, rest: string)
    requires rest != [] ==> !IsDigit(rest[0]) && rest[0] != 'x' && rest[0] != 'X'
    ensures ParseInt(IntToString(n) + rest) == Num(n)
  {
    var m: nat := if n < 0 then -n else n;
    var u := NatToString(m) + rest;
    ParseUnsignedOfNatToString(m, rest);
    if n < 0 {
      assert IntToString(n) + rest == ['-'] + u;
      ParseIntNegative(u);
    } else {
      assert IntToString(n) + rest == u;
      ParseIntUnsigned(u);
    }
  }

  /** A leading minus sign negates what follows it. */
  lemma ParseIntNegative(u: string)
    ensures ParseInt(['-'] + u) == if ParseUnsigned(u).NaN? then NaN else Num(-ParseUnsigned(u).n)
  {
    var s := ['-'] + u;
    assert TrimStart(s) == s;
    assert s[1..] == u;
  }

  /** Text that starts with a digit is read with no sign. */
  lemma ParseIntUnsigned(u: string)
    requires u != [] && IsDigit(u[0])
    ensures ParseInt(u) == ParseUnsigned(u)
  {
    assert TrimStart(u) == u;
  }

  lemma DigitPrefixSplit(digits: string, rest: string)
    requires AllDigits(digits)
    requires rest != [] ==> !IsDigit(rest[0])
    ensures DigitPrefix(digits + rest) == digits
  {
    if digits != [] {
      assert (digits + rest)[1..] == digits[1..] + rest;
      DigitPrefixSplit(digits[1..], rest);
    } else {
      assert digits + rest == rest;
    }
  }

  // ---------------------------------------------------------------------
  // Number(string)

  /**
   * `Number(s)` for the strings the screens feed it: after trimming, the empty
   * string is 0 and a run of decimal digits is its value; anything else is NaN
   * (signs, fractions, exponents and hexadecimal are not modelled).
   */
  function NumberOf(s: string): (r: JsNum)
    ensures r.Num? ==> r.n >= 0
  {
    var t := Trim(s);
    if t == [] then Num(0) else if AllDigits(t) then Num(DigitsValue(t)) else NaN
  }

  /** `Number(undefined)`, for a missing element of a destructured array. */
  function NumberOfPart(parts: seq<string>, i: nat): JsNum {
    if i < |parts| then NumberOf(parts[i]) else NaN
  }

  // ---------------------------------------------------------------------
  // split

  /** `s.split(sep)` for a one-character separator. */
  function Split(s: string, sep: char): (parts: seq<string>)
    ensures |parts| >= 1
    ensures forall i :: 0 <= i < |parts| ==> sep !in parts[i]
  {
    if s == [] then [[]]
    else
      var rest := Split(s[1..], sep);
      if s[0] == sep then [[]] + rest else [[s[0]] + rest[0]] + rest[1..]
  }

  /** The inverse of `Split`: the parts joined back with the separator. */
  function Join(parts: seq<string>, sep: char): string
    requires |parts| >= 1
  {
    if |parts| == 1 then parts[0] else parts[0] + [sep] + Join(parts[1..], sep)
  }

  /** Splitting then joining gives back the string. */
  lemma {:induction false} SplitJoin(s: string, sep: char)
    ensures Join(Split(s, sep), sep) == s
  {
    if s != [] {
      var rest := Split(s[1..], sep);
      SplitJoin(s[1..], sep);
      if s[0] == sep {
        assert Split(s, sep)[1..] == rest;
      } else {
        var parts := Split(s, sep);
        if |rest| == 1 {
          assert parts == [[s[0]] + rest[0]];
        } else {
          assert parts[1..] == rest[1..];
          assert Join(rest, sep) == rest[0] + [sep] + Join(rest[1..], sep);
        }
      }
    }
  }

  /** A string without the separator splits into itself alone. */
  lemma {:induction false} SplitNoSeparator(s: string, sep: char)
    requires sep !in s
    ensures Split(s, sep) == [s]
  {
    if s != [] {
      SplitNoSeparator(s[1..], sep);
      assert [s[0]] + s[1..] == s;
    }
  }

  /** Splitting `a + sep + b` where `a` has no separator puts `a` first. */
  lemma {:induction false} SplitAfter(a: string, b: string, sep: char)
    requires sep !in a
    ensures Split(a + [sep] + b, sep) == [a] + Split(b, sep)
  {
    if a == [] {
      assert a + [sep] + b == [sep] + b;
      assert ([sep] + b)[1..] == b;
    } else {
      assert (a + [sep] + b)[1..] == a[1..] + [sep] + b;
      SplitAfter(a[1..], b, sep);
      assert [a[0]] + a[1..] == a;
    }
  }

  // ---------------------------------------------------------------------
  // toLowerCase

  /** `toLowerCase` on ASCII letters (the only letters the screens lower-case). */
  function LowerAscii(s: string): (r: string)
    ensures |r| == |s|
    ensures forall i :: 0 <= i < |s| ==> (if 'A' <= s[i] <= 'Z' then r[i] == (s[i] as int + 32) as char else r[i] == s[i])
  {
    if s == [] then [] else
      var c := if 'A' <= s[0] <= 'Z' then (s[0] as int + 32) as char else s[0];
      [c] + LowerAscii(s[1..])
  }
}
