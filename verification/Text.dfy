/**
 The string operations the daemon, the njs module and the manager use:
 decimal printing, the integer parser of JavaScript, splitting and trimming.
 */
module Text {
  import opened Prelude

  // ---------- characters ----------

  predicate IsDigit(c: char) {
    '0' <= c <= '9'
  }

  ghost predicate AllDigits(s: string) {
    forall i :: 0 <= i < |s| ==> IsDigit(s[i])
  }

  /** White space for `String.prototype.trim` and for the integer parser. */
  predicate IsJsSpace(c: char) {
    '\t' <= c <= '\r' || '\U{2000}' <= c <= '\U{200a}'
    || c in [' ', '\U{a0}', '\U{1680}', '\U{2028}', '\U{2029}', '\U{202f}', '\U{205f}', '\U{3000}', '\U{feff}']
  }

  /** White space for `\s` and for `str.strip` in Python. */
  predicate IsPySpace(c: char) {
    '\t' <= c <= '\r' || '\U{1c}' <= c <= '\U{1f}' || '\U{2000}' <= c <= '\U{200a}'
    || c in [' ', '\U{85}', '\U{a0}', '\U{1680}', '\U{2028}', '\U{2029}', '\U{202f}', '\U{205f}', '\U{3000}']
  }

  /** White space for `strings.TrimSpace` in Go. */
  predicate IsGoSpace(c: char) {
    IsPySpace(c) && !('\U{1c}' <= c <= '\U{1f}')
  }

  /** White space by code point, as ECMAScript lists it: WhiteSpace and LineTerminator. */
  predicate JsBlank(code: int) {
    9 <= code <= 13 || code in {0x20, 0xA0, 0x1680, 0x2028, 0x2029, 0x202F, 0x205F, 0x3000, 0xFEFF}
      || 0x2000 <= code <= 0x200A
  }

  /** White space by code point, as Python's `str.isspace` takes it. */
  predicate PyBlank(code: int) {
    9 <= code <= 13 || 0x1C <= code <= 0x20 || 0x2000 <= code <= 0x200A
    || code in {0x85, 0xA0, 0x1680, 0x2028, 0x2029, 0x202F, 0x205F, 0x3000}
  }

  lemma SpacesByCode(c: char)
    ensures IsJsSpace(c) <==> JsBlank(c as int)
    ensures IsPySpace(c) <==> PyBlank(c as int)
    ensures IsGoSpace(c) <==> PyBlank(c as int) && !(0x1C <= c as int <= 0x1F)
  {
  }

  // ---------- decimal numbers ----------

  function DigitChar(d: nat): (c: char)
    requires d < 10
    ensures IsDigit(c) && (c as int) - ('0' as int) == d
  {
    ('0' as int + d) as char
  }

  function DigitValue(c: char): (d: nat)
    requires IsDigit(c)
    ensures d < 10
  {
    c as int - '0' as int
  }

  function Decimal(n: nat): (s: string)
    ensures |s| > 0 && AllDigits(s)
  {
    if n < 10 then [DigitChar(n)] else Decimal(n / 10) + [DigitChar(n % 10)]
  }

  function DecimalValue(s: string): nat
    requires AllDigits(s)
  {
    if s == "" then 0 else DecimalValue(s[..|s| - 1]) * 10 + DigitValue(s[|s| - 1])
  }

  lemma {:induction false} DecimalRoundTrip(n: nat)
    ensures DecimalValue(Decimal(n)) == n
  {
    var s := Decimal(n);
    if n < 10 {
      assert s[..|s| - 1] == "";
    } else {
      assert s[..|s| - 1] == Decimal(n / 10);
      DecimalRoundTrip(n / 10);
    }
  }

  lemma DecimalInjective(m: nat, n: nat)
    requires Decimal(m) == Decimal(n)
    ensures m == n
  {
    DecimalRoundTrip(m);
    DecimalRoundTrip(n);
  }

  // ---------- JavaScript integers ----------

  /** `Number.prototype.toString` on an integer. */
  function IntToString(i: int): string {
    if i < 0 then "-" + Decimal(-i) else Decimal(i)
  }

  /** A number that may be NaN (`None`), printed. */
  function NumberToString(x: Option<int>): string {
    match x
    case None => "NaN"
    case Some(i) => IntToString(i)
  }

  function SkipSpaces(s: string): string {
    if s != "" && IsJsSpace(s[0]) then SkipSpaces(s[1..]) else s
  }

  function LeadingDigits(s: string): (r: string)
    ensures AllDigits(r) && r <= s
    ensures |r| < |s| ==> !IsDigit(s[|r|])
  {
    if s != "" && IsDigit(s[0]) then [s[0]] + LeadingDigits(s[1..]) else ""
  }

  function HexDigitValue(c: char): Option<nat> {
    if IsDigit(c) then Some(DigitValue(c))
    else if 'a' <= c <= 'f' then Some(c as int - 'a' as int + 10)
    else if 'A' <= c <= 'F' then Some(c as int - 'A' as int + 10)
    else None
  }

  function LeadingHexValue(s: string, acc: nat): nat {
    if s != "" && HexDigitValue(s[0]).Some? then LeadingHexValue(s[1..], acc * 16 + HexDigitValue(s[0]).value) else acc
  }

  /** The digits part of `parseInt`: hexadecimal after 0x, decimal otherwise; `None` is NaN. */
  function ParseUnsigned(s: string): Option<nat> {
    if |s| >= 2 && s[0] == '0' && s[1] in "xX" then
      if |s| > 2 && HexDigitValue(s[2]).Some? then Some(LeadingHexValue(s[2..], 0)) else None
    else if LeadingDigits(s) == "" then None
    else Some(DecimalValue(LeadingDigits(s)))
  }

  function Signed(u: Option<nat>, sign: int): Option<int> {
    if u.None? then None else Some(sign * u.value)
  }

  /** `parseInt` with no radix given. */
  function ParseInt(s: string): Option<int> {
    var t := SkipSpaces(s);
    if t != "" && t[0] == '-' then Signed(ParseUnsigned(t[1..]), -1)
    else if t != "" && t[0] == '+' then Signed(ParseUnsigned(t[1..]), 1)
    else Signed(ParseUnsigned(t), 1)
  }

  lemma {:induction false} LeadingDigitsOfDigits(s: string)
    requires AllDigits(s)
    ensures LeadingDigits(s) == s
  {
    if s != "" {
      LeadingDigitsOfDigits(s[1..]);
    }
  }

  lemma DigitIsNotSpace(c: char)
    requires IsDigit(c)
    ensures !IsJsSpace(c) && !IsPySpace(c)
  {
  }

  /** A non-empty digit string is read as its value. */
  lemma ParseIntDigits(s: string)
    requires s != "" && AllDigits(s)
    ensures ParseInt(s) == Some(DecimalValue(s))
  {
    DigitIsNotSpace(s[0]);
    assert SkipSpaces(s) == s;
    LeadingDigitsOfDigits(s);
    assert |s| >= 2 ==> !(s[1] in "xX");
    assert ParseUnsigned(s) == Some(DecimalValue(s));
  }

  /** The parser reads back every natural number the printer writes. */
  lemma ParseIntRoundTrip(n: nat)
    ensures ParseInt(Decimal(n)) == Some(n)
  {
    ParseIntDigits(Decimal(n));
    DecimalRoundTrip(n);
  }

  /** Behind white space and a sign, the digits in front decide, whatever follows them. */
  lemma {:induction false} ParseIntReads(blanks: string, n: nat, junk: string)
    requires forall i :: 0 <= i < |blanks| ==> JsBlank(blanks[i] as int)
    requires junk != "" ==> !('0' <= junk[0] <= '9') && (n == 0 ==> junk[0] != 'x' && junk[0] != 'X')
    ensures ParseInt(blanks + (Decimal(n) + junk)) == Some(n)
    ensures var negative := ParseInt(blanks + ("-" + (Decimal(n) + junk))); negative.Some? && negative.value + n == 0
  {
    ReadsDigits(n, junk);
    SpacesByCode('-');
    SpacesByCode(Decimal(n)[0]);
    SkipsBlanks(blanks, Decimal(n) + junk);
    SkipsBlanks(blanks, "-" + (Decimal(n) + junk));
    assert ("-" + (Decimal(n) + junk))[1..] == Decimal(n) + junk;
  }

  lemma {:induction false} SkipsBlanks(blanks: string, rest: string)
    requires forall i :: 0 <= i < |blanks| ==> JsBlank(blanks[i] as int)
    requires rest != "" && !IsJsSpace(rest[0])
    ensures SkipSpaces(blanks + rest) == rest
  {
    if blanks == "" {
      assert blanks + rest == rest;
    } else {
      SpacesByCode(blanks[0]);
      SkipsBlanks(blanks[1..], rest);
      HeadOfAppend(blanks, rest);
    }
  }

  lemma {:induction false} LeadingDigitsStop(digits: string, junk: string)
    requires AllDigits(digits) && (junk != "" ==> !IsDigit(junk[0]))
    ensures LeadingDigits(digits + junk) == digits
  {
    if digits == "" {
      assert digits + junk == junk;
    } else {
      LeadingDigitsStop(digits[1..], junk);
      HeadOfAppend(digits, junk);
      assert digits == [digits[0]] + digits[1..];
    }
  }

  lemma {:induction false} NoLeadingZero(n: nat)
    ensures n > 0 ==> Decimal(n)[0] != '0'
    ensures n == 0 ==> Decimal(n) == "0"
  {
    if n >= 10 {
      NoLeadingZero(n / 10);
    }
  }

  lemma ReadsDigits(n: nat, junk: string)
    requires junk != "" ==> !IsDigit(junk[0]) && (n == 0 ==> junk[0] != 'x' && junk[0] != 'X')
    ensures ParseUnsigned(Decimal(n) + junk) == Some(n)
  {
    LeadingDigitsStop(Decimal(n), junk);
    DecimalRoundTrip(n);
    NoLeadingZero(n);
    var s := Decimal(n) + junk;
    assert s[0] == Decimal(n)[0] && (n == 0 && junk != "" ==> s[1] == junk[0]);
  }

  /** Text whose first character is neither white space, sign nor digit is not a number. */
  lemma ParseIntRefuses(s: string)
    requires s == "" || !(JsBlank(s[0] as int) || s[0] in "+-0123456789")
    ensures ParseInt(s) == None
  {
    if s != "" {
      SpacesByCode(s[0]);
      assert forall d :: '0' <= d <= '9' ==> d in "0123456789";
    }
  }

  // ---------- splitting ----------

  /** `split` on a one-character separator: always at least one part. */
  function Split(s: string, sep: char): (parts: seq<string>)
    ensures |parts| > 0
  {
    if s == "" then [""]
    else if s[0] == sep then [""] + Split(s[1..], sep)
    else
      var rest := Split(s[1..], sep);
      [[s[0]] + rest[0]] + rest[1..]
  }

  function Join(parts: seq<string>, sep: char): string {
    if parts == [] then "" else if |parts| == 1 then parts[0] else parts[0] + [sep] + Join(parts[1..], sep)
  }

  /** Splitting loses nothing and leaves no separator inside a part. */
  lemma {:induction false} SplitSound(s: string, sep: char)
    ensures Join(Split(s, sep), sep) == s
    ensures forall i :: 0 <= i < |Split(s, sep)| ==> sep !in Split(s, sep)[i]
  {
    if s != "" {
      SplitSound(s[1..], sep);
      var parts, rest := Split(s, sep), Split(s[1..], sep);
      assert s == [s[0]] + s[1..];
      if s[0] == sep {
        assert parts[1..] == rest;
      } else if |rest| > 1 {
        assert parts[1..] == rest[1..];
        assert Join(parts, sep) == ([s[0]] + rest[0]) + [sep] + Join(rest[1..], sep);
        assert Join(rest, sep) == rest[0] + [sep] + Join(rest[1..], sep);
      }
    }
  }

  lemma {:induction false} SplitAtom(s: string, sep: char)
    requires sep !in s
    ensures Split(s, sep) == [s]
  {
    if s != "" {
      SplitAtom(s[1..], sep);
      assert [s[0]] + s[1..] == s;
    }
  }

  lemma {:induction false} SplitCons(a: string, sep: char, b: string)
    requires sep !in a
    ensures Split(a + [sep] + b, sep) == [a] + Split(b, sep)
  {
    var s := a + [sep] + b;
    if a == "" {
      assert s[1..] == b;
    } else {
      SplitCons(a[1..], sep, b);
      assert s[1..] == a[1..] + [sep] + b;
      assert [a[0]] + a[1..] == a;
    }
  }

  // ---------- trimming ----------

  function TrimLeft(s: string, space: char -> bool): (r: string)
    ensures |r| <= |s|
    ensures r != "" ==> !space(r[0])
    ensures s != "" && !space(s[0]) ==> r == s
    ensures s != "" && r != "" ==> r[|r| - 1] == s[|s| - 1]
    ensures forall c :: c in r ==> c in s
  {
    if s != "" && space(s[0]) then TrimLeft(s[1..], space) else s
  }

  function TrimRight(s: string, space: char -> bool): (r: string)
    ensures r <= s
    ensures r != "" ==> !space(r[|r| - 1])
    ensures s != "" && !space(s[|s| - 1]) ==> r == s
  {
    if s != "" && space(s[|s| - 1]) then TrimRight(s[..|s| - 1], space) else s
  }

  function Trim(s: string, space: char -> bool): string {
    TrimRight(TrimLeft(s, space), space)
  }

  /** Text that neither starts nor ends with white space is left alone. */
  lemma TrimKeeps(s: string, space: char -> bool)
    requires s != "" ==> !space(s[0]) && !space(s[|s| - 1])
    ensures Trim(s, space) == s
  {
  }

  /** Trimming takes white space, and only that, from the two ends. */
  lemma TrimTakesSpaces(s: string, space: char -> bool)
    ensures exists before, after :: Wraps(before, Trim(s, space), after, s, space)
  {
    var t := TrimLeft(s, space);
    var r := TrimRight(t, space);
    TrimLeftTakes(s, space);
    TrimRightTakes(t, space);
    WrapsTwice(s, t, r, space);
    assert r == Trim(s, space) && Wraps(s[..|s| - |t|], r, t[|r|..], s, space);
  }

  lemma WrapsTwice(s: string, t: string, r: string, space: char -> bool)
    requires |t| <= |s| && s[|s| - |t|..] == t && r <= t
    requires AllSpaces(s[..|s| - |t|], space) && AllSpaces(t[|r|..], space)
    requires r != "" ==> !space(t[0]) && !space(r[|r| - 1])
    ensures Wraps(s[..|s| - |t|], r, t[|r|..], s, space)
  {
    var before := s[..|s| - |t|];
    assert s == before + t && t == r + t[|r|..];
  }

  ghost predicate AllSpaces(s: string, space: char -> bool) {
    forall c :: c in s ==> space(c)
  }

  ghost predicate Wraps(before: string, inner: string, after: string, s: string, space: char -> bool) {
    && s == before + inner + after
    && AllSpaces(before, space) && AllSpaces(after, space)
    && (inner != "" ==> !space(inner[0]) && !space(inner[|inner| - 1]))
  }

  lemma {:induction false} TrimLeftTakes(s: string, space: char -> bool)
    ensures var r := TrimLeft(s, space); s[|s| - |r|..] == r && AllSpaces(s[..|s| - |r|], space)
  {
    if s != "" && space(s[0]) {
      TrimLeftTakes(s[1..], space);
      var r := TrimLeft(s, space);
      assert s[1..][|s[1..]| - |r|..] == s[|s| - |r|..];
      assert s[..|s| - |r|] == [s[0]] + s[1..][..|s[1..]| - |r|];
    }
  }

  lemma {:induction false} TrimRightTakes(s: string, space: char -> bool)
    ensures AllSpaces(s[|TrimRight(s, space)|..], space)
  {
    if s != "" && space(s[|s| - 1]) {
      var front := s[..|s| - 1];
      TrimRightTakes(front, space);
      var n := |TrimRight(s, space)|;
      assert s[n..] == front[n..] + [s[|s| - 1]];
    }
  }

  lemma TrimIdempotent(s: string, space: char -> bool)
    ensures Trim(Trim(s, space), space) == Trim(s, space)
  {
    var t := Trim(s, space);
    if t != "" {
      assert t[0] == TrimLeft(s, space)[0];
    }
  }
}
