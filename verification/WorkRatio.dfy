/**
 How much work a difficulty asks for: the number of digests that pass, and
 the attempts figure the challenge page shows.
 */
module WorkRatio {
  import opened Prelude
  import opened Difficulty

  /** The digest of n digits that reads as v. */
  function DigestOf(v: nat, n: nat): (s: string)
    requires v < Pow2(4 * n)
    ensures |s| == n && IsHex(s) && Value(s) == v
  {
    if n == 0 then "" else
      Pow2Nibble(n - 1);
      var front := DigestOf(v / 16, n - 1);
      var s := front + [HexDigit(v % 16)];
      assert s[..n - 1] == front;
      s
  }

  /** Two digests of the same length with the same value are the same digest. */
  lemma {:induction false} ValueInjective(s: string, t: string)
    requires IsHex(s) && IsHex(t) && |s| == |t| && Value(s) == Value(t)
    ensures s == t
  {
    if s != "" {
      var n := |s| - 1;
      assert s[n] == HexDigit(Nibble(s[n])) && t[n] == HexDigit(Nibble(t[n]));
      ValueInjective(s[..n], t[..n]);
      assert s == s[..n] + [s[n]] && t == t[..n] + [t[n]];
    }
  }

  /** The digests of n digits whose value is below m. */
  ghost function DigestsBelow(n: nat, m: nat): (r: set<string>)
    requires m <= Pow2(4 * n)
    ensures forall s :: s in r <==> |s| == n && IsHex(s) && Value(s) < m
  {
    var r := set v | 0 <= v < m :: DigestOf(v, n);
    assert forall s :: |s| == n && IsHex(s) && Value(s) < m ==> s in r by {
      forall s | |s| == n && IsHex(s) && Value(s) < m ensures s in r {
        ValueInjective(s, DigestOf(Value(s), n));
      }
    }
    r
  }

  lemma {:induction false} CountBelow(n: nat, m: nat)
    requires m <= Pow2(4 * n)
    ensures |DigestsBelow(n, m)| == m
  {
    if m > 0 {
      CountBelow(n, m - 1);
      var last := DigestOf(m - 1, n);
      forall s | s in DigestsBelow(n, m) ensures s in DigestsBelow(n, m - 1) + {last} {
        if Value(s) == m - 1 {
          ValueInjective(s, last);
        }
      }
      assert DigestsBelow(n, m) == DigestsBelow(n, m - 1) + {last};
    } else {
      assert DigestsBelow(n, 0) == {};
    }
  }

  ghost function Digests(n: nat): (r: set<string>)
    ensures forall s :: s in r <==> |s| == n && IsHex(s)
  {
    var r := DigestsBelow(n, Pow2(4 * n));
    assert forall s :: |s| == n && IsHex(s) ==> s in r by {
      forall s | |s| == n && IsHex(s) ensures s in r { ValueBound(s); }
    }
    r
  }

  ghost function Passing(n: nat, d: nat): set<string> {
    set s | s in Digests(n) && CheckDifficulty(s, d) == Some(true)
  }

  lemma PassesIff(s: string, n: nat, d: nat)
    requires d <= 4 * n
    ensures s in Passing(n, d) <==> |s| == n && IsHex(s) && Value(s) < Pow2(4 * n - d)
  {
    if |s| == n && IsHex(s) {
      CheckIsThreshold(s, d);
    }
  }

  lemma DigestsCount(n: nat)
    ensures |Digests(n)| == Pow2(4 * n)
  {
    CountBelow(n, Pow2(4 * n));
  }

  /** Exactly 2^(4n-d) of the 16^n digests of n digits pass difficulty d. */
  lemma PassingCount(n: nat, d: nat)
    requires d <= 4 * n
    ensures |Passing(n, d)| == Pow2(4 * n - d)
  {
    var m := Pow2(4 * n - d);
    Pow2Monotone(4 * n - d, 4 * n);
    forall s ensures s in Passing(n, d) <==> s in DigestsBelow(n, m) {
      PassesIff(s, n, d);
    }
    assert Passing(n, d) == DigestsBelow(n, m);
    CountBelow(n, m);
  }

  /** `Math.pow(2, diff)`, the attempts the page expects. */
  function ExpectedAttempts(diff: nat): nat {
    Pow2(diff)
  }

  /** The expected attempts are the exact ratio of all digests to accepted ones. */
  lemma ExpectedAttemptsIsRatio(n: nat, d: nat)
    requires d <= 4 * n
    ensures |Digests(n)| == ExpectedAttempts(d) * |Passing(n, d)|
  {
    calc {
      |Digests(n)|;
      { DigestsCount(n); }
      Pow2(4 * n);
      { Pow2Add(d, 4 * n - d); }
      Pow2(d) * Pow2(4 * n - d);
      { PassingCount(n, d); }
      Pow2(d) * |Passing(n, d)|;
    }
  }

  /** Past 4n the ratio breaks: one digest passes for three more bits, then none. */
  lemma PassingPastTheLastDigit(n: nat, d: nat)
    requires d > 4 * n
    ensures |Passing(n, d)| == if d < 4 * n + 4 then 1 else 0
  {
    var zero := Zeros(n);
    PastTheLastDigit(n, d);
    assert IsHex(zero);
    forall s | s in Passing(n, d) ensures s == zero && d < 4 * n + 4 {
      CheckIsBound(s, d);
      CheckIsThreshold(s, 4 * n);
      EasierKeepsSolutions(s, d, 4 * n);
      CheckIsThreshold(zero, 4 * n);
      assert Pow2(0) == 1;
      CheckIsBound(zero, 4 * n);
      ZeroValue(n);
      ValueInjective(s, zero);
    }
    assert Passing(n, d) == if d < 4 * n + 4 then {zero} else {};
  }

  lemma {:induction false} ZeroValue(n: nat)
    ensures Value(Zeros(n)) == 0
  {
    if n > 0 {
      assert Zeros(n)[..n - 1] == Zeros(n - 1) by { ZerosPrefix(n); }
      ZeroValue(n - 1);
    }
  }

  lemma ZerosPrefix(n: nat)
    requires n > 0
    ensures Zeros(n)[..n - 1] == Zeros(n - 1)
  {
    var a, b := Zeros(n)[..n - 1], Zeros(n - 1);
    assert forall i :: 0 <= i < n - 1 ==> a[i] == b[i];
  }
}
