/**
 The proof-of-work predicate, which the njs module and the challenge page
 each carry a copy of, and what it means as arithmetic.
 */
module Difficulty {
  import opened Prelude

  // ---------- powers of two ----------

  function Pow2(n: nat): (p: nat)
    ensures p > 0
  {
    if n == 0 then 1 else 2 * Pow2(n - 1)
  }

  lemma {:induction false} Pow2Add(m: nat, n: nat)
    ensures Pow2(m + n) == Pow2(m) * Pow2(n)
  {
    if m > 0 {
      Pow2Add(m - 1, n);
      assert Pow2(m + n) == 2 * (Pow2(m - 1) * Pow2(n));
    }
  }

  // ---------- hexadecimal digests ----------

  predicate IsHexDigit(c: char) {
    '0' <= c <= '9' || 'a' <= c <= 'f'
  }

  ghost predicate IsHex(s: string) {
    forall i :: 0 <= i < |s| ==> IsHexDigit(s[i])
  }

  function HexDigit(v: nat): (c: char)
    requires v < 16
    ensures IsHexDigit(c)
  {
    if v < 10 then ('0' as int + v) as char else ('a' as int + v - 10) as char
  }

  /**
   The number a lower-case hexadecimal digit stands for; 0 for what `parseInt` makes NaN, as the bit
   operators read it.
   */
  function Nibble(c: char): (v: nat)
    ensures v < 16
    ensures IsHexDigit(c) ==> c == HexDigit(v)
    ensures forall w: nat :: w < 16 && c == HexDigit(w) ==> v == w
  {
    if '0' <= c <= '9' then c as int - '0' as int
    else if 'a' <= c <= 'f' then c as int - 'a' as int + 10
    else 0
  }

  /** The digits in their order. */
  lemma NibbleIsPosition(v: nat)
    requires v < 16
    ensures var digits := "0123456789abcdef"; HexDigit(v) == digits[v] && Nibble(digits[v]) == v
  {
  }

  /** A digest read as a base-16 number, most significant digit first. */
  function Value(s: string): nat {
    if s == "" then 0 else 16 * Value(s[..|s| - 1]) + Nibble(s[|s| - 1])
  }

  lemma Pow2Nibble(n: nat)
    ensures Pow2(4 * (n + 1)) == 16 * Pow2(4 * n)
  {
    Pow2Add(4, 4 * n);
    assert Pow2(4) == 16;
  }

  lemma TimesSixteen(v: nat, p: nat)
    ensures v * (16 * p) == 16 * (v * p)
  {
  }

  lemma {:induction false} ValueBound(s: string)
    ensures Value(s) < Pow2(4 * |s|)
  {
    if s != "" {
      ValueBound(s[..|s| - 1]);
      Pow2Nibble(|s| - 1);
    }
  }

  /** The same number, its first digit split off. */
  lemma {:induction false} ValueFront(s: string)
    requires s != ""
    ensures Value(s) == Nibble(s[0]) * Pow2(4 * (|s| - 1)) + Value(s[1..])
  {
    if |s| > 1 {
      var t := s[..|s| - 1];
      ValueFront(t);
      assert t[1..] == s[1..][..|s[1..]| - 1];
      Pow2Nibble(|s| - 2);
      TimesSixteen(Nibble(s[0]), Pow2(4 * (|s| - 2)));
    } else {
      assert s[..0] == "" && s[1..] == "";
    }
  }

  // ---------- the check ----------

  /** The nibble as the 32-bit operand of `&`. */
  function NibbleBits(c: char): bv32 {
    match Nibble(c)
    case 0 => 0 case 1 => 1 case 2 => 2 case 3 => 3 case 4 => 4 case 5 => 5 case 6 => 6 case 7 => 7
    case 8 => 8 case 9 => 9 case 10 => 10 case 11 => 11 case 12 => 12 case 13 => 13 case 14 => 14 case _ => 15
  }

  /** The mask step: `(nextChar & ~((1 << (4 - bits)) - 1)) === 0`. */
  predicate MaskClear(c: char, bits: nat)
    requires 0 < bits < 4
  {
    var shift: nat := 4 - bits;
    var mask: bv32 := (1 << shift) - 1;
    NibbleBits(c) & !mask == 0
  }

  function Zeros(n: nat): (s: string)
    ensures |s| == n && forall i :: 0 <= i < n ==> s[i] == '0'
  {
    if n == 0 then "" else ['0'] + Zeros(n - 1)
  }

  /**
   `checkDifficulty`. `None` is the RangeError that `'0'.repeat` throws on a
   negative count. One past the end of the digest, `charAt` gives the empty
   string, whose NaN passes the mask.
   */
  function CheckDifficulty(hash: string, difficulty: int): Option<bool> {
    if difficulty < 0 then None else
      var requiredZeros := difficulty / 4;
      if !(Zeros(requiredZeros) <= hash) then Some(false) else
        var remainingBits := difficulty % 4;
        if remainingBits > 0 then
          Some(requiredZeros == |hash| || MaskClear(hash[requiredZeros], remainingBits))
        else Some(true)
  }

  // ---------- what it means ----------

  lemma MaskIsBound(c: char, bits: nat)
    requires 0 < bits < 4
    ensures MaskClear(c, bits) <==> Nibble(c) * Pow2(bits) < 16
  {
    assert Pow2(1) == 2 && Pow2(2) == 4 && Pow2(3) == 8;
    if bits == 1 {
      assert MaskClear(c, 1) == (NibbleBits(c) & !(((1 as bv32) << 3) - 1) == 0);
    } else if bits == 2 {
      assert MaskClear(c, 2) == (NibbleBits(c) & !(((1 as bv32) << 2) - 1) == 0);
    } else {
      assert MaskClear(c, 3) == (NibbleBits(c) & !(((1 as bv32) << 1) - 1) == 0);
    }
  }

  // Multiplication facts, kept apart from the digests they are used on.

  lemma ScaleStrict(a: nat, b: nat, q: nat)
    requires q > 0
    ensures a * q < b * q <==> a < b
  {
    if a < b {
      assert a * q < (a + 1) * q <= b * q;
    } else {
      assert a * q >= b * q;
    }
  }

  lemma LargerFactor(v: nat, a: nat, b: nat)
    requires a <= b
    ensures v * a <= v * b
  {
  }

  lemma Pow2Monotone(m: nat, n: nat)
    requires m <= n
    ensures Pow2(m) <= Pow2(n)
  {
  }

  lemma LeadingDigitDecides(v: nat, p: nat, rest: nat, q: nat)
    requires v < 16 && rest < p && q in {1, 2, 4, 8}
    ensures (v * p + rest) * q < 16 * p <==> v * q < 16
  {
    var k := if q == 1 then 16 else if q == 2 then 8 else if q == 4 then 4 else 2;
    var w := v * p;
    if v < k {
      assert w <= (k - 1) * p;
    } else {
      assert w >= k * p;
    }
  }

  /** Below 4 bits only the first digit matters. */
  lemma FirstDigit(s: string, d: nat)
    requires s != "" && d < 4
    ensures Nibble(s[0]) * Pow2(d) < 16 <==> Value(s) * Pow2(d) < Pow2(4 * |s|)
  {
    var v, p, rest, q := Nibble(s[0]), Pow2(4 * (|s| - 1)), Value(s[1..]), Pow2(d);
    assert q in {1, 2, 4, 8} by {
      assert Pow2(0) == 1 && Pow2(1) == 2 && Pow2(2) == 4 && Pow2(3) == 8;
    }
    Pow2Nibble(|s| - 1);
    ValueFront(s);
    ValueBound(s[1..]);
    LeadingDigitDecides(v, p, rest, q);
  }

  /** A whole required zero strips one digit. */
  lemma DropDigit(s: string, d: nat)
    requires s != "" && d >= 4 && IsHexDigit(s[0])
    ensures Value(s) * Pow2(d) < Pow2(4 * |s|)
       <==> s[0] == '0' && Value(s[1..]) * Pow2(d - 4) < Pow2(4 * |s[1..]|)
  {
    var v, p, q, rest := Nibble(s[0]), Pow2(4 * (|s| - 1)), Pow2(d - 4), Value(s[1..]);
    Pow2Add(4, 4 * (|s| - 1));
    Pow2Add(4, d - 4);
    assert Pow2(4) == 16;
    ValueFront(s);
    ValueBound(s[1..]);
    StripFactor(v, p, rest, q);
  }

  lemma StripFactor(v: nat, p: nat, rest: nat, q: nat)
    requires rest < p && q > 0
    ensures (v * p + rest) * (16 * q) < 16 * p <==> v == 0 && rest * q < p
  {
    var t := v * p + rest;
    assert t * (16 * q) == 16 * (t * q);
    if v == 0 {
      assert t == rest;
    } else {
      assert v * p >= p;
      assert t * q >= t >= p;
    }
  }

  lemma CheckStep(s: string, d: nat)
    requires d >= 4
    ensures CheckDifficulty(s, d) == if s != "" && s[0] == '0' then CheckDifficulty(s[1..], d - 4) else Some(false)
  {
    var k := d / 4;
    assert Zeros(k) == ['0'] + Zeros(k - 1);
    if s != "" && s[0] == '0' {
      assert s == ['0'] + s[1..];
      assert Zeros(k) <= s <==> Zeros(k - 1) <= s[1..] by {
        if Zeros(k) <= s {
          assert forall i :: 0 <= i < k - 1 ==> s[1..][i] == s[i + 1] == Zeros(k)[i + 1];
        }
        if Zeros(k - 1) <= s[1..] {
          assert forall i :: 0 < i < k ==> s[i] == s[1..][i - 1] == Zeros(k - 1)[i - 1];
        }
      }
    }
  }

  ghost predicate Below(s: string, d: nat) {
    Value(s) * Pow2(d) < Pow2(4 * |s|)
  }

  lemma CheckFewBits(s: string, d: nat)
    requires d < 4
    ensures CheckDifficulty(s, d) == Some(Below(s, d))
  {
    if s == "" {
      assert Value(s) * Pow2(d) == 0;
    } else {
      FirstDigit(s, d);
      if d > 0 {
        MaskIsBound(s[0], d);
      }
    }
  }

  /**
   The difficulty check refines arithmetic, for every digest length and every
   non-negative difficulty: a digest of n digits passes d exactly when, read
   as a number, it times 2^d stays below 2^(4n), except that nothing passes
   from 4n+4 on.
   */
  lemma {:induction false} CheckIsBound(s: string, d: nat)
    requires IsHex(s)
    ensures CheckDifficulty(s, d) == Some(d < 4 * |s| + 4 && Below(s, d))
  {
    if d < 4 {
      CheckFewBits(s, d);
    } else {
      CheckStep(s, d);
      if s != "" {
        DropDigit(s, d);
        CheckIsBound(s[1..], d - 4);
      }
    }
  }

  /** The reading the page shows as "bits": the digest is below 2^(4n-d). */
  lemma CheckIsThreshold(s: string, d: nat)
    requires IsHex(s) && d <= 4 * |s|
    ensures CheckDifficulty(s, d) == Some(Value(s) < Pow2(4 * |s| - d))
  {
    CheckIsBound(s, d);
    assert CheckDifficulty(s, d) == Some(Below(s, d));
    Pow2Add(4 * |s| - d, d);
    ScaleStrict(Value(s), Pow2(4 * |s| - d), Pow2(d));
  }

  /** Lowering the difficulty keeps every solution already found. */
  lemma EasierKeepsSolutions(s: string, d: nat, e: nat)
    requires IsHex(s) && e <= d
    requires CheckDifficulty(s, d) == Some(true)
    ensures CheckDifficulty(s, e) == Some(true)
  {
    CheckIsBound(s, d);
    CheckIsBound(s, e);
    Pow2Monotone(e, d);
    LargerFactor(Value(s), Pow2(e), Pow2(d));
  }

  /**
   A difficulty above the digest's own bits still passes the zero digest, up
   to three bits too many, and then never: 4n+3 and 4n+4 differ.
   */
  lemma PastTheLastDigit(n: nat, d: nat)
    requires d > 4 * n
    ensures CheckDifficulty(Zeros(n), d) == Some(d < 4 * n + 4)
  {
    var s := Zeros(n);
    if d / 4 > n {
      assert |Zeros(d / 4)| > |s|;
    } else {
      assert d / 4 == n;
    }
  }
}
