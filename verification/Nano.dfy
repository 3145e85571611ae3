/** Canonical decimal nanosecond strings: their order is the order of the numbers they spell. */
module Nano {
  import opened Lex

  const MAX_NANO_LEN: nat := 32

  predicate IsDigit(c: char) { '0' <= c <= '9' }

  predicate Digits(s: string) { forall i :: 0 <= i < |s| ==> IsDigit(s[i]) }

  /** "0", or a digit string without a leading zero, of bounded length. */
  predicate IsCanonicalNanoDecimal(s: string) {
    && 0 < |s| <= MAX_NANO_LEN
    && (s == "0" || ('1' <= s[0] <= '9' && forall i :: 1 <= i < |s| ==> IsDigit(s[i])))
  }

  /** Shorter is smaller; equal lengths compare byte by byte. */
  function CmpCanonicalNano(a: string, b: string): int {
    if |a| < |b| then -1
    else if |a| > |b| then 1
    else if a == b then 0
    else if Less(a, b) then -1
    else 1
  }

  function Digit(c: char): nat
    requires IsDigit(c)
  {
    c as nat - '0' as nat
  }

  function Value(s: string): nat
    requires Digits(s)
  {
    if s == [] then 0 else 10 * Value(s[..|s| - 1]) + Digit(s[|s| - 1])
  }

  function Power10(n: nat): nat { if n == 0 then 1 else 10 * Power10(n - 1) }

  function Spell(n: nat): string {
    if n < 10 then [('0' as nat + n) as char] else Spell(n / 10) + [('0' as nat + n % 10) as char]
  }

  lemma {:induction false} ValueBelow(s: string)
    requires Digits(s)
    ensures Value(s) < Power10(|s|)
  {
    if s != [] { ValueBelow(s[..|s| - 1]); }
  }

  lemma {:induction false} ValueAbove(s: string)
    requires Digits(s) && |s| > 0 && s[0] != '0'
    ensures Power10(|s| - 1) <= Value(s)
  {
    if |s| > 1 { ValueAbove(s[..|s| - 1]); }
  }

  lemma {:induction false} Power10Monotone(i: nat, j: nat)
    requires i <= j
    ensures Power10(i) <= Power10(j)
  {
    if i < j { Power10Monotone(i, j - 1); }
  }

  /** On equal lengths the order is decided by everything but the last byte, then by it. */
  lemma {:induction false} LessSnoc(a: string, b: string)
    requires |a| == |b| > 0
    ensures Less(a, b) <==>
              || Less(a[..|a| - 1], b[..|b| - 1])
              || (a[..|a| - 1] == b[..|b| - 1] && a[|a| - 1] < b[|b| - 1])
  {
    var p, q := a[..|a| - 1], b[..|b| - 1];
    if |a| == 1 {
      assert !Less(a[1..], b[1..]);
    } else {
      LessSnoc(a[1..], b[1..]);
      assert a[1..][..|a| - 2] == p[1..] && b[1..][..|b| - 2] == q[1..];
      assert p == [a[0]] + p[1..] && q == [b[0]] + q[1..];
      LessIrreflexive(p);
    }
  }

  lemma {:induction false} LessIsSmaller(a: string, b: string)
    requires Digits(a) && Digits(b) && |a| == |b| && Less(a, b)
    ensures Value(a) < Value(b)
  {
    LessSnoc(a, b);
    var p, q := a[..|a| - 1], b[..|b| - 1];
    if Less(p, q) { LessIsSmaller(p, q); }
  }

  /** Comparing canonical strings compares the numbers, and only equal strings spell equal numbers. */
  lemma CmpIsNumeric(a: string, b: string)
    requires IsCanonicalNanoDecimal(a) && IsCanonicalNanoDecimal(b)
    ensures Digits(a) && Digits(b)
    ensures CmpCanonicalNano(a, b) < 0 <==> Value(a) < Value(b)
    ensures CmpCanonicalNano(a, b) == 0 <==> Value(a) == Value(b)
    ensures CmpCanonicalNano(a, b) == 0 <==> a == b
  {
    if |a| < |b| { ShorterIsSmaller(a, b); }
    else if |b| < |a| { ShorterIsSmaller(b, a); }
    else if a != b {
      LessTotal(a, b);
      if Less(a, b) { LessIsSmaller(a, b); } else { LessIsSmaller(b, a); }
    }
  }

  lemma ShorterIsSmaller(a: string, b: string)
    requires IsCanonicalNanoDecimal(a) && IsCanonicalNanoDecimal(b) && |a| < |b|
    ensures Digits(a) && Digits(b) && Value(a) < Value(b)
  {
    ValueBelow(a);
    ValueAbove(b);
    Power10Monotone(|a|, |b| - 1);
  }

  /** Spelling a number and reading it back. */
  lemma {:induction false} SpellValue(n: nat)
    ensures Digits(Spell(n)) && Value(Spell(n)) == n
    ensures |Spell(n)| > 0 && (Spell(n)[0] == '0' ==> n == 0) && (n == 0 ==> Spell(n) == "0")
  {
    if n < 10 {
      assert Spell(n)[..0] == [];
    } else {
      SpellValue(n / 10);
      assert Spell(n)[..|Spell(n)| - 1] == Spell(n / 10);
    }
  }

  /** The number is small enough for the agent to spell. */
  predicate Spellable(n: nat) { n < Power10(32) }

  lemma {:induction false} SpellLength(n: nat, k: nat)
    requires n < Power10(k) && k > 0
    ensures |Spell(n)| <= k
  {
    if n >= 10 {
      assert Power10(k) == 10 * Power10(k - 1);
      assert k > 1 by { assert Power10(0) == 1; }
      SpellLength(n / 10, k - 1);
    }
  }

  /** The canonical strings are exactly the spellings of the numbers below 10^32, each read back as its number. */
  lemma CanonicalIsSpelling(s: string)
    ensures IsCanonicalNanoDecimal(s) <==> exists n: nat :: Spellable(n) && s == Spell(n)
    ensures IsCanonicalNanoDecimal(s) ==> Digits(s) && s == Spell(Value(s))
  {
    if IsCanonicalNanoDecimal(s) {
      CanonicalIsSpelled(s);
      assert Spellable(Value(s));
    }
    if n: nat :| Spellable(n) && s == Spell(n) {
      SpellValue(n);
      SpellLength(n, MAX_NANO_LEN);
    }
  }

  lemma CanonicalIsSpelled(s: string)
    requires IsCanonicalNanoDecimal(s)
    ensures Digits(s) && s == Spell(Value(s)) && Spellable(Value(s))
  {
    SpellValue(Value(s));
    SameNumberSameText(s, Spell(Value(s)));
    ValueBelow(s);
    Power10Monotone(|s|, MAX_NANO_LEN);
  }

  lemma SameNumberSameText(a: string, b: string)
    requires Digits(a) && Digits(b) && |a| > 0 && |b| > 0 && Value(a) == Value(b)
    requires (a[0] == '0' ==> a == "0") && (b[0] == '0' ==> b == "0")
    ensures a == b
  {
    if a[0] == '0' || b[0] == '0' {
      ZeroText(a);
      ZeroText(b);
    } else {
      LengthFromValue(a, b);
      LengthFromValue(b, a);
      LessTotal(a, b);
      if Less(a, b) { LessIsSmaller(a, b); }
      if Less(b, a) { LessIsSmaller(b, a); }
    }
  }

  /** Without a leading zero a shorter text spells a smaller number. */
  lemma LengthFromValue(a: string, b: string)
    requires Digits(a) && Digits(b) && |b| > 0 && b[0] != '0' && Value(b) <= Value(a)
    ensures |b| <= |a|
  {
    ValueBelow(a);
    ValueAbove(b);
    Power10Reflects(|b| - 1, |a|);
  }

  /** A power that is below another one has the smaller exponent. */
  lemma Power10Reflects(i: nat, j: nat)
    requires Power10(i) < Power10(j)
    ensures i < j
  {
    if j <= i { Power10Monotone(j, i); }
  }

  lemma {:induction false} Power10Positive(n: nat)
    ensures Power10(n) > 0
  {
    if n > 0 { Power10Positive(n - 1); }
  }

  lemma ZeroText(a: string)
    requires Digits(a) && |a| > 0 && (a[0] == '0' ==> a == "0")
    ensures Value(a) == 0 <==> a == "0"
  {
    if a[0] != '0' {
      ValueAbove(a);
      Power10Positive(|a| - 1);
    } else {
      assert a[..0] == [];
    }
  }
}
