/** Decimal digits of natural numbers: printing, padding, grouping, and reading back. */
module Digits {
  import opened Arith

  function Pow10(k: nat): (p: nat)
    ensures p > 0
  {
    if k == 0 then 1 else 10 * Pow10(k - 1)
  }

  function DigitChar(d: nat): char
    requires d < 10
  {
    '0' + d as char
  }

  predicate IsDigit(c: char) {
    '0' <= c <= '9'
  }

  function DigitValue(c: char): nat {
    if IsDigit(c) then (c - '0') as nat else 0
  }

  /** Digits, by code. */
  lemma DigitsByCode(d: nat)
    requires d < 10
    ensures DigitChar(d) as int == 48 + d && DigitValue(DigitChar(d)) == d
  {
  }

  predicate AllDigits(s: string) {
    forall i | 0 <= i < |s| :: IsDigit(s[i])
  }

  /** The decimal digits of `n`, without leading zeros. */
  function DigitsOf(n: nat): (s: string)
    ensures |s| > 0 && AllDigits(s)
  {
    if n < 10 then [DigitChar(n)] else DigitsOf(n / 10) + [DigitChar(n % 10)]
  }

  function Value(s: string): nat {
    ValueTo(s, |s|)
  }

  /** The value of the first `n` digits. */
  function ValueTo(s: string, n: nat): nat
    requires n <= |s|
  {
    if n == 0 then 0 else 10 * ValueTo(s, n - 1) + DigitValue(s[n - 1])
  }

  function Zeros(k: nat): (s: string)
    ensures |s| == k && AllDigits(s) && forall i | 0 <= i < k :: s[i] == '0'
  {
    if k == 0 then "" else Zeros(k - 1) + "0"
  }

  /** At least `width` digits, with leading zeros. */
  function Pad(n: nat, width: nat): (s: string)
    ensures |s| >= width && |s| > 0 && AllDigits(s)
  {
    var s := DigitsOf(n);
    if |s| >= width then s else Zeros(width - |s|) + s
  }

  lemma {:induction false} ValueOfPrefix(s: string, t: string, n: nat)
    requires n <= |s| && n <= |t| && s[..n] == t[..n]
    ensures ValueTo(s, n) == ValueTo(t, n)
  {
    if n > 0 {
      assert s[..n][n - 1] == t[..n][n - 1];
      assert s[..n - 1] == s[..n][..n - 1] == t[..n - 1];
      ValueOfPrefix(s, t, n - 1);
    }
  }

  lemma ValueAppend(s: string, c: char)
    ensures Value(s + [c]) == 10 * Value(s) + DigitValue(c)
  {
    assert (s + [c])[..|s|] == s[..|s|];
    ValueOfPrefix(s + [c], s, |s|);
  }

  lemma {:induction false} DigitsReadBack(n: nat)
    ensures Value(DigitsOf(n)) == n
  {
    if n < 10 {
      ValueAppend("", DigitChar(n));
      assert [DigitChar(n)] == "" + [DigitChar(n)];
    } else {
      DigitsReadBack(n / 10);
      ValueAppend(DigitsOf(n / 10), DigitChar(n % 10));
    }
  }

  lemma {:induction false} ZerosAreZero(k: nat)
    ensures Value(Zeros(k)) == 0
  {
    if k > 0 {
      ZerosAreZero(k - 1);
      ValueAppend(Zeros(k - 1), '0');
    }
  }

  lemma {:induction false} ValueOfZeros(k: nat, s: string)
    ensures Value(Zeros(k) + s) == Value(s)
  {
    if s == "" {
      ZerosAreZero(k);
      assert Zeros(k) + s == Zeros(k);
    } else {
      var init, last := s[..|s| - 1], s[|s| - 1];
      ValueOfZeros(k, init);
      assert Zeros(k) + s == Zeros(k) + init + [last];
      ValueAppend(Zeros(k) + init, last);
      assert s == init + [last];
      ValueAppend(init, last);
    }
  }

  lemma PadReadsBack(n: nat, width: nat)
    ensures Value(Pad(n, width)) == n
  {
    DigitsReadBack(n);
    if |DigitsOf(n)| < width {
      ValueOfZeros(width - |DigitsOf(n)|, DigitsOf(n));
    }
  }

  /** `n` has at most `k` digits exactly when it is below the k-th power of ten. */
  lemma {:induction false} DigitsBound(n: nat, k: nat)
    requires k > 0
    ensures |DigitsOf(n)| <= k <==> n < Pow10(k)
  {
    if n >= 10 && k > 1 {
      DigitsBound(n / 10, k - 1);
    }
  }

  lemma {:induction false} Pow10Splits(a: nat, b: nat)
    ensures Pow10(a + b) == Pow10(a) * Pow10(b)
  {
    if a > 0 {
      Pow10Splits(a - 1, b);
      MulAssoc(10, Pow10(a - 1), Pow10(b));
    }
  }

  lemma MulAssoc(a: nat, b: nat, c: nat)
    ensures a * b * c == a * (b * c)
  {
  }

  lemma MulSwap(a: nat, p: nat)
    ensures a * (10 * p) == 10 * (a * p)
  {
  }

  // ------------------------------------------------------------------ grouping

  /** A space before every group of three digits, counted from the right. */
  function Group(s: string): string {
    if |s| <= 3 then s else Group(s[..|s| - 3]) + " " + s[|s| - 3..]
  }

  function NoSpaces(s: string): string {
    if s == "" then ""
    else NoSpaces(s[..|s| - 1]) + if s[|s| - 1] == ' ' then "" else [s[|s| - 1]]
  }

  lemma {:induction false} NoSpacesConcat(a: string, b: string)
    ensures NoSpaces(a + b) == NoSpaces(a) + NoSpaces(b)
  {
    if b == "" {
      assert a + b == a;
    } else {
      NoSpacesConcat(a, b[..|b| - 1]);
      assert (a + b)[..|a + b| - 1] == a + b[..|b| - 1];
    }
  }

  lemma {:induction false} DigitsHaveNoSpaces(s: string)
    requires AllDigits(s)
    ensures NoSpaces(s) == s
  {
    if s != "" {
      DigitsHaveNoSpaces(s[..|s| - 1]);
    }
  }

  lemma {:induction false} UngroupGroup(s: string)
    requires AllDigits(s)
    ensures NoSpaces(Group(s)) == s
  {
    if |s| <= 3 {
      DigitsHaveNoSpaces(s);
    } else {
      var head, tail := s[..|s| - 3], s[|s| - 3..];
      UngroupGroup(head);
      DigitsHaveNoSpaces(tail);
      NoSpacesAroundOne(Group(head), tail);
    }
  }

  lemma NoSpacesAroundOne(a: string, b: string)
    ensures NoSpaces(a + " " + b) == NoSpaces(a) + NoSpaces(b)
  {
    assert (a + " ")[..|a|] == a;
    NoSpacesConcat(a + " ", b);
  }

  /** Grouped digits hold no comma and end in a digit. */
  lemma {:induction false} GroupIsPlain(s: string)
    requires AllDigits(s) && s != ""
    ensures |Group(s)| > 0 && IsDigit(Group(s)[0])
    ensures forall i | 0 <= i < |Group(s)| :: Group(s)[i] == ' ' || IsDigit(Group(s)[i])
  {
    if |s| > 3 {
      GroupIsPlain(s[..|s| - 3]);
    }
  }

  /** From the right, every fourth character of grouped digits is a space and no other is. */
  predicate InThrees(g: string) {
    forall i | 0 <= i < |g| :: g[i] == ' ' <==> (|g| - 1 - i) % 4 == 3
  }

  lemma {:induction false} GroupedInThrees(s: string)
    requires AllDigits(s) && s != ""
    ensures InThrees(Group(s))
  {
    if |s| <= 3 {
      assert forall i | 0 <= i < |s| :: IsDigit(s[i]);
    } else {
      var head, tail := Group(s[..|s| - 3]), s[|s| - 3..];
      GroupedInThrees(s[..|s| - 3]);
      assert forall i | 0 <= i < 3 :: tail[i] == s[|s| - 3 + i] && IsDigit(tail[i]);
      OneMoreGroup(head, tail);
    }
  }

  lemma OneMoreGroup(head: string, tail: string)
    requires InThrees(head) && |tail| == 3 && AllDigits(tail)
    ensures InThrees(head + " " + tail)
  {
    var g := head + " " + tail;
    forall i | 0 <= i < |g| ensures g[i] == ' ' <==> (|g| - 1 - i) % 4 == 3 {
      if i < |head| {
        assert g[i] == head[i];
        assert |g| - 1 - i == (|head| - 1 - i) + 4;
      } else if i > |head| {
        assert g[i] == tail[i - |head| - 1] && IsDigit(tail[i - |head| - 1]);
      }
    }
  }

  lemma {:induction false} NoLeadingZero(n: nat)
    requires n > 0
    ensures DigitsOf(n)[0] != '0'
  {
    if n >= 10 {
      NoLeadingZero(n / 10);
    }
  }
}
