/** The handful of Python string operations the relay's wire protocol is built
    from: `str.strip`, `str.split`, `str.join`, `str.lower`, `int()`, `str()` on
    an int and `repr()` of a str (the last only for the text of `int()`'s error). */
module Text {

  datatype Option<T> = None | Some(value: T)

  // ---------------------------------------------------------------- whitespace

  /** `str.isspace` for one character: the characters Python's `str.strip()`
      removes when called without an argument. */
  predicate IsSpace(c: char) {
    var n := c as int;
    || (9 <= n <= 13)          // \t \n \v \f \r
    || (28 <= n <= 32)         // \x1c .. \x1f and ' '
    || n == 0x85 || n == 0xA0 || n == 0x1680
    || (0x2000 <= n <= 0x200A)
    || n == 0x2028 || n == 0x2029 || n == 0x202F || n == 0x205F || n == 0x3000
  }

  /** Which characters count as padding: `str.strip()` removes every `str.isspace`
      character, while `int()` skips only " \t\n\v\f\r" among the ASCII characters
      (it leaves U+001C..U+001F alone) and every non-ASCII `str.isspace` character. */
  datatype Blanks = StrBlanks | IntBlanks

  predicate Blank(b: Blanks, c: char) {
    IsSpace(c) && (b == IntBlanks ==> !(0x1C <= c as int <= 0x1F))
  }

  function TrimStart(s: string, b: Blanks): (r: string)
    ensures |r| <= |s| && r == s[|s| - |r|..]
    ensures forall k :: 0 <= k < |s| - |r| ==> Blank(b, s[k])
    ensures r != [] ==> !Blank(b, r[0])
  {
    if s != [] && Blank(b, s[0]) then TrimStart(s[1..], b) else s
  }

  function TrimEnd(s: string, b: Blanks): (r: string)
    ensures |r| <= |s| && r == s[..|r|]
    ensures forall k :: |r| <= k < |s| ==> Blank(b, s[k])
    ensures r != [] ==> !Blank(b, r[|r| - 1])
  {
    if s != [] && Blank(b, s[|s| - 1]) then TrimEnd(s[..|s| - 1], b) else s
  }

  /** `s` without its leading and trailing padding: `s.strip()` for `StrBlanks`,
      what `int(s)` ignores around the number for `IntBlanks`. */
  function Strip(s: string, b: Blanks): (r: string)
    ensures |r| <= |s|
    ensures r != [] ==> !Blank(b, r[0]) && !Blank(b, r[|r| - 1])
    ensures r == [] <==> forall k :: 0 <= k < |s| ==> Blank(b, s[k])
  {
    TrimEnd(TrimStart(s, b), b)
  }

  /** Stripping leaves alone a string that neither starts nor ends with padding. */
  lemma StripUnpadded(s: string, b: Blanks)
    requires s != [] ==> !Blank(b, s[0]) && !Blank(b, s[|s| - 1])
    ensures Strip(s, b) == s
  {
  }

  /** Padding before and after a string that neither starts nor ends with
      padding is exactly what stripping removes. */
  lemma {:induction false} StripPadded(pre: string, s: string, post: string, b: Blanks)
    requires s != [] && !Blank(b, s[0]) && !Blank(b, s[|s| - 1])
    requires forall k :: 0 <= k < |pre| ==> Blank(b, pre[k])
    requires forall k :: 0 <= k < |post| ==> Blank(b, post[k])
    ensures Strip(pre + s + post, b) == s
  {
    TrimStartPadded(pre, s + post, b);
    assert pre + s + post == pre + (s + post);
    TrimEndPadded(s, post, b);
  }

  lemma {:induction false} TrimStartPadded(pre: string, s: string, b: Blanks)
    requires s != [] && !Blank(b, s[0])
    requires forall k :: 0 <= k < |pre| ==> Blank(b, pre[k])
    ensures TrimStart(pre + s, b) == s
  {
    if pre != [] {
      assert (pre + s)[1..] == pre[1..] + s;
      TrimStartPadded(pre[1..], s, b);
    } else {
      assert pre + s == s;
    }
  }

  lemma {:induction false} TrimEndPadded(s: string, post: string, b: Blanks)
    requires s != [] && !Blank(b, s[|s| - 1])
    requires forall k :: 0 <= k < |post| ==> Blank(b, post[k])
    ensures TrimEnd(s + post, b) == s
  {
    if post != [] {
      var init := post[..|post| - 1];
      assert (s + post)[..|s + post| - 1] == s + init;
      TrimEndPadded(s, init, b);
    } else {
      assert s + post == s;
    }
  }

  // ---------------------------------------------------------- split and join

  /** `s.split(sep)` with an explicit one-character separator: the pieces between
      separators, empty pieces kept, and never an empty list. */
  function Split(s: string, sep: char): (parts: seq<string>)
    ensures |parts| >= 1
    ensures forall i :: 0 <= i < |parts| ==> sep !in parts[i]
  {
    if s == [] then [[]]
    else
      var rest := Split(s[1..], sep);
      if s[0] == sep then [[]] + rest
      else [[s[0]] + rest[0]] + rest[1..]
  }

  /** `sep.join(parts)` for a one-character separator. */
  function Join(parts: seq<string>, sep: char): (r: string)
    ensures |parts| >= 1 ==> parts[0] <= r
    ensures |parts| >= 2 ==> |r| > |parts[0]| && r[|parts[0]|] == sep
  {
    if parts == [] then []
    else if |parts| == 1 then parts[0]
    else parts[0] + [sep] + Join(parts[1..], sep)
  }

  /** A join starts with its first piece. */
  lemma {:induction false} JoinStartsWithFirst(parts: seq<string>, sep: char)
    requires |parts| >= 1
    ensures parts[0] <= Join(parts, sep)
  {
    if |parts| > 1 {
      assert Join(parts, sep) == parts[0] + ([sep] + Join(parts[1..], sep));
    }
  }

  /** A character that no piece holds and that is not the separator is not in
      the join. */
  lemma {:induction false} JoinAvoids(parts: seq<string>, sep: char, c: char)
    requires c != sep && forall i :: 0 <= i < |parts| ==> c !in parts[i]
    ensures c !in Join(parts, sep)
  {
    if |parts| > 1 {
      JoinAvoids(parts[1..], sep, c);
    }
  }

  /** Joining the pieces of a split gives back the original string. */
  lemma {:induction false} JoinSplit(s: string, sep: char)
    ensures Join(Split(s, sep), sep) == s
  {
    if s != [] {
      var rest := Split(s[1..], sep);
      JoinSplit(s[1..], sep);
      if s[0] == sep {
        assert Split(s, sep) == [[]] + rest;
      } else {
        var parts := Split(s, sep);
        assert parts == [[s[0]] + rest[0]] + rest[1..];
        if |rest| == 1 {
          assert Join(rest, sep) == rest[0];
        } else {
          assert Join(rest, sep) == rest[0] + [sep] + Join(rest[1..], sep);
          assert parts[1..] == rest[1..];
        }
      }
    }
  }

  /** Splitting a string whose first `|a|` characters hold no separator. */
  lemma {:induction false} SplitAfterPlain(a: string, b: string, sep: char)
    requires sep !in a
    ensures Split(a + b, sep) == [a + Split(b, sep)[0]] + Split(b, sep)[1..]
  {
    var x := Split(b, sep);
    if a != [] {
      SplitAfterPlain(a[1..], b, sep);
      assert (a + b)[1..] == a[1..] + b;
      var rest := Split(a[1..] + b, sep);
      assert rest == [a[1..] + x[0]] + x[1..];
      assert Split(a + b, sep) == [[a[0]] + rest[0]] + rest[1..];
      assert [a[0]] + (a[1..] + x[0]) == a + x[0];
    } else {
      assert a + b == b;
      assert a + x[0] == x[0];
      assert x == [x[0]] + x[1..];
    }
  }

  /** Splitting a join gives back the pieces, provided no piece holds the
      separator. */
  lemma {:induction false} SplitJoin(parts: seq<string>, sep: char)
    requires |parts| >= 1
    requires forall i :: 0 <= i < |parts| ==> sep !in parts[i]
    ensures Split(Join(parts, sep), sep) == parts
  {
    if |parts| == 1 {
      SplitAfterPlain(parts[0], [], sep);
      assert Split([], sep) == [[]];
      assert parts[0] + [] == parts[0];
    } else {
      var tail := Join(parts[1..], sep);
      SplitJoin(parts[1..], sep);
      SplitAfterPlain(parts[0], [sep] + tail, sep);
      assert Join(parts, sep) == parts[0] + ([sep] + tail);
      assert ([sep] + tail)[1..] == tail;
      var y := Split([sep] + tail, sep);
      assert y == [[]] + parts[1..];
      assert y[1..] == parts[1..];
      assert parts[0] + y[0] == parts[0];
      assert parts == [parts[0]] + parts[1..];
    }
  }

  // ---------------------------------------------------------------- lower case

  /** `str.lower` for one character, restricted to the ASCII letters. */
  function LowerChar(c: char): char {
    if 'A' <= c <= 'Z' then (c as int + 32) as char else c
  }

  /** `s.lower()`, character by character. */
  function Lower(s: string): (r: string)
    ensures |r| == |s|
    ensures forall i :: 0 <= i < |s| ==> r[i] == LowerChar(s[i])
  {
    if s == [] then [] else [LowerChar(s[0])] + Lower(s[1..])
  }

  /** Lower-casing twice is lower-casing once. */
  lemma LowerIdempotent(s: string)
    ensures Lower(Lower(s)) == Lower(s)
  {
    assert forall i :: 0 <= i < |s| ==> LowerChar(LowerChar(s[i])) == LowerChar(s[i]);
  }

  // ---------------------------------------------------------------- integers

  predicate IsDigit(c: char) {
    '0' <= c <= '9'
  }

  predicate AllDigits(s: string) {
    forall i :: 0 <= i < |s| ==> IsDigit(s[i])
  }

  function DigitValue(c: char): nat
    requires IsDigit(c)
  {
    c as int - '0' as int
  }

  function DigitChar(d: nat): (c: char)
    requires d < 10
    ensures IsDigit(c) && DigitValue(c) == d
  {
    ('0' as int + d) as char
  }

  /** `str(n)` for a natural number: its decimal digits, most significant first,
      without leading zeros. */
  function NatToDecimal(n: nat): (s: string)
    ensures s != [] && AllDigits(s)
  {
    if n < 10 then [DigitChar(n)] else NatToDecimal(n / 10) + [DigitChar(n % 10)]
  }

  /** The number a string of decimal digits denotes. */
  function DecimalValue(s: string): nat
    requires AllDigits(s)
  {
    if s == [] then 0 else 10 * DecimalValue(s[..|s| - 1]) + DigitValue(s[|s| - 1])
  }

  /** Reading back the digits of `n` gives `n`. */
  lemma {:induction false} DecimalRoundTrip(n: nat)
    ensures DecimalValue(NatToDecimal(n)) == n
  {
    var s := NatToDecimal(n);
    if n < 10 {
      assert s[..|s| - 1] == [];
    } else {
      DecimalRoundTrip(n / 10);
      assert s[..|s| - 1] == NatToDecimal(n / 10);
    }
  }

  /** Different numbers have different decimal forms. */
  lemma NatToDecimalInjective(m: nat, n: nat)
    requires NatToDecimal(m) == NatToDecimal(n)
    ensures m == n
  {
    DecimalRoundTrip(m);
    DecimalRoundTrip(n);
  }

  /** `str(i)` for an int: a minus sign before the digits of a negative number. */
  function IntToString(i: int): (s: string)
    ensures s != [] && !IsSpace(s[0]) && !IsSpace(s[|s| - 1])
    ensures forall k :: 0 <= k < |s| ==> s[k] == '-' || IsDigit(s[k])
  {
    if i < 0 then "-" + NatToDecimal(-i) else NatToDecimal(i)
  }

  /** The shape `int()` accepts once the padding is gone: an optional sign and
      then at least one ASCII digit. */
  predicate IsIntLiteral(t: string) {
    && t != []
    && (IsDigit(t[0]) || (|t| > 1 && (t[0] == '+' || t[0] == '-')))
    && forall k :: 0 < k < |t| ==> IsDigit(t[k])
  }

  /** The digits of a literal, without its sign. */
  function Magnitude(t: string): string {
    if t != [] && (t[0] == '+' || t[0] == '-') then t[1..] else t
  }

  /** -1 for a literal with a minus sign, 1 otherwise. */
  function SignOf(t: string): int {
    if t != [] && t[0] == '-' then -1 else 1
  }

  /** `int(s)` in base 10: padding around the number is ignored, then an optional
      sign and at least one decimal digit; anything else is `None` (Python's
      `ValueError`). */
  function ParseInt(s: string): (r: Option<int>)
    ensures r.Some? <==> IsIntLiteral(Strip(s, IntBlanks))
    ensures var t := Strip(s, IntBlanks);
      r.Some? ==> AllDigits(Magnitude(t)) && r.value == SignOf(t) * DecimalValue(Magnitude(t))
  {
    var t := Strip(s, IntBlanks);
    if t != [] && (t[0] == '+' || t[0] == '-') then
      if |t| > 1 && AllDigits(t[1..]) then
        var v: int := DecimalValue(t[1..]);
        Some(if t[0] == '-' then -v else v)
      else None
    else if t != [] && AllDigits(t) then Some(DecimalValue(t))
    else None
  }

  /** `int(str(i)) == i`: a port the relay prints reads back as the same port. */
  lemma ParseIntToString(i: int)
    ensures ParseInt(IntToString(i)) == Some(i)
  {
    var s := IntToString(i);
    StripUnpadded(s, IntBlanks);
    if i < 0 {
      DecimalRoundTrip(-i);
      assert s[1..] == NatToDecimal(-i);
    } else {
      DecimalRoundTrip(i);
    }
  }

  /** `int()` reads a printed number back whatever padding surrounds it. */
  lemma ParseIntPadded(pre: string, i: int, post: string)
    requires forall k :: 0 <= k < |pre| ==> Blank(IntBlanks, pre[k])
    requires forall k :: 0 <= k < |post| ==> Blank(IntBlanks, post[k])
    ensures ParseInt(pre + IntToString(i) + post) == Some(i)
  {
    var s := IntToString(i);
    StripPadded(pre, s, post, IntBlanks);
    StripUnpadded(s, IntBlanks);
    ParseIntToString(i);
  }

  /** A control character U+001C..U+001F in front of a number is not padding
      for `int()`, although `str.strip()` removes it: `int("\x1c6000")` fails
      where `int("6000")` succeeds. */
  lemma SeparatorBlocksInt(c: char, s: string)
    requires 0x1C <= c as int <= 0x1F
    ensures ParseInt([c] + s) == None
    ensures Strip([c] + s, StrBlanks) == Strip(s, StrBlanks)
  {
    var x := [c] + s;
    assert x[1..] == s;
    assert Blank(StrBlanks, x[0]);
    assert TrimStart(x, StrBlanks) == TrimStart(s, StrBlanks);
    NotPaddingFirst(x);
  }

  /** A text that starts with a non-padding character that is neither a digit
      nor a sign is not a number. */
  lemma NotPaddingFirst(x: string)
    requires x != [] && !Blank(IntBlanks, x[0]) && !IsDigit(x[0]) && x[0] != '+' && x[0] != '-'
    ensures ParseInt(x) == None
  {
    assert TrimStart(x, IntBlanks) == x;
    var t := Strip(x, IntBlanks);
    assert t != [] && t[0] == x[0];
  }

  // ---------------------------------------------------------------- repr

  function HexDigit(d: nat): char
    requires d < 16
  {
    if d < 10 then DigitChar(d) else ('a' as int + d - 10) as char
  }

  /** The quote `repr` puts around `s`: a double quote only when `s` holds a
      single quote and no double quote. */
  function QuoteFor(s: string): char {
    if '\'' in s && '"' !in s then '"' else '\''
  }

  /** How `repr` writes one character inside quotes `q`. */
  function EscapeChar(c: char, q: char): string {
    var n := c as int;
    if c == q || c == '\\' then ['\\', c]
    else if c == '\t' then "\\t"
    else if c == '\n' then "\\n"
    else if c == '\r' then "\\r"
    else if n < 0x20 || (0x7F <= n <= 0xA0) || n == 0xAD then
      ['\\', 'x', HexDigit(n / 16), HexDigit(n % 16)]
    else [c]
  }

  function Escape(s: string, q: char): (r: string)
    ensures |r| >= |s|
  {
    if s == [] then [] else EscapeChar(s[0], q) + Escape(s[1..], q)
  }

  /** `repr(s)` for a str. */
  function PyRepr(s: string): (r: string)
    ensures |r| >= |s| + 2 && r[0] == QuoteFor(s) && r[|r| - 1] == QuoteFor(s)
  {
    [QuoteFor(s)] + Escape(s, QuoteFor(s)) + [QuoteFor(s)]
  }

  /** A printable ASCII character that `repr` writes as itself inside single quotes. */
  predicate Plain(c: char) {
    ' ' <= c <= '~' && c != '\'' && c != '\\'
  }

  /** `repr` of plain text is the text in single quotes. */
  lemma {:induction false} PlainRepr(s: string)
    requires forall i :: 0 <= i < |s| ==> Plain(s[i])
    ensures PyRepr(s) == "'" + s + "'"
  {
    assert '\'' !in s;
    PlainEscape(s);
  }

  lemma {:induction false} PlainEscape(s: string)
    requires forall i :: 0 <= i < |s| ==> Plain(s[i])
    ensures Escape(s, '\'') == s
  {
    if s != [] {
      PlainEscape(s[1..]);
      assert s == [s[0]] + s[1..];
    }
  }

  const IntLiteralPrefix := "invalid literal for int() with base 10: "

  /** The text of the `ValueError` that `int(s)` raises for a non-number: the
      prefix, then `repr(s)` cut to its first 200 characters (`%.200R`). */
  function IntLiteralError(s: string): (r: string)
    ensures |r| >= 40 && r[..40] == IntLiteralPrefix
    ensures |PyRepr(s)| <= 200 ==> r == IntLiteralPrefix + PyRepr(s)
    ensures |PyRepr(s)| > 200 ==> |r| == 240 && r[40..] == PyRepr(s)[..200]
  {
    var q := PyRepr(s);
    IntLiteralPrefix + (if |q| <= 200 then q else q[..200])
  }

  /** For plain text of at most 198 characters the message quotes the text
      whole; from 199 characters on the cut drops the closing quote and more. */
  lemma IntLiteralErrorPlain(s: string)
    requires forall i :: 0 <= i < |s| ==> Plain(s[i])
    ensures |s| <= 198 ==> IntLiteralError(s) == IntLiteralPrefix + "'" + s + "'"
    ensures |s| >= 199 ==> IntLiteralError(s) == IntLiteralPrefix + "'" + s[..199]
  {
    PlainRepr(s);
    if |s| >= 199 {
      assert ("'" + s + "'")[..200] == "'" + s[..199];
    }
  }
}
