/** The canonical text key of an observed state, `row,col|mask|t<time>|e<energy>|c<chores>`,
    as the value table uses it. Numbers are written in decimal, negatives
    with a leading '-'. The key is injective: distinct observations never
    share a table row. */
module StateKey {
  import opened Types

  // ------------------------------------------------------ decimal numerals

  predicate IsDigit(c: char) { '0' <= c <= '9' }

  function DigitChar(d: nat): (c: char)
    requires d < 10
    ensures IsDigit(c)
  {
    "0123456789"[d]
  }

  function DigitValue(c: char): (d: nat)
    requires IsDigit(c)
    ensures d < 10
  {
    (c as int - '0' as int) as nat
  }

  lemma DigitRoundTrip(d: nat)
    requires d < 10
    ensures DigitValue(DigitChar(d)) == d
  {
  }

  /** Decimal numeral of a natural number, without leading zeros. */
  function NatToString(n: nat): (s: string)
    ensures |s| >= 1
    ensures forall i :: 0 <= i < |s| ==> IsDigit(s[i])
    decreases n
  {
    if n < 10 then [DigitChar(n)] else NatToString(n / 10) + [DigitChar(n % 10)]
  }

  /** Reads a string of digits back as a number. */
  function DigitsToNat(s: string): nat
    requires forall i :: 0 <= i < |s| ==> IsDigit(s[i])
    decreases |s|
  {
    if |s| == 0 then 0 else DigitsToNat(s[..|s| - 1]) * 10 + DigitValue(s[|s| - 1])
  }

  /** Reading a numeral gives back the number it was written from. */
  lemma {:induction false} NatRoundTrip(n: nat)
    ensures DigitsToNat(NatToString(n)) == n
    decreases n
  {
    var s := NatToString(n);
    if n < 10 {
      DigitRoundTrip(n);
    } else {
      NatRoundTrip(n / 10);
      DigitRoundTrip(n % 10);
      assert s[..|s| - 1] == NatToString(n / 10);
    }
  }

  lemma NatToStringInjective(m: nat, n: nat)
    requires NatToString(m) == NatToString(n)
    ensures m == n
  {
    NatRoundTrip(m);
    NatRoundTrip(n);
  }

  /** Decimal numeral of an integer, with '-' in front of negatives. */
  function IntToString(i: int): (s: string)
    ensures |s| >= 1
    ensures forall k :: 0 <= k < |s| ==> IsDigit(s[k]) || s[k] == '-'
  {
    if i < 0 then "-" + NatToString(-i) else NatToString(i)
  }

  /** The sign is visible in the first character. */
  lemma IntToStringSign(i: int)
    ensures IntToString(i)[0] == '-' <==> i < 0
  {
    if i >= 0 {
      assert IsDigit(NatToString(i)[0]);
    }
  }

  lemma IntToStringInjective(i: int, j: int)
    requires IntToString(i) == IntToString(j)
    ensures i == j
  {
    IntToStringSign(i);
    IntToStringSign(j);
    if i < 0 && j < 0 {
      assert IntToString(i)[1..] == NatToString(-i);
      assert IntToString(j)[1..] == NatToString(-j);
      NatToStringInjective(-i, -j);
    } else if i >= 0 && j >= 0 {
      NatToStringInjective(i, j);
    }
  }

  // ------------------------------------------------------------ the key

  // The key is built from the right: each tail holds the fields after a
  // separator, so the key can be peeled one field at a time.

  function ChoresTail(s: ObservedState): string {
    NatToString(s.choresDone)
  }

  function EnergyTail(s: ObservedState): string {
    NatToString(s.energyBucket) + ("|c" + ChoresTail(s))
  }

  function TimeTail(s: ObservedState): string {
    NatToString(s.timeBucket) + ("|e" + EnergyTail(s))
  }

  function MaskTail(s: ObservedState): string {
    NatToString(s.visitMask) + ("|t" + TimeTail(s))
  }

  function ColumnTail(s: ObservedState): string {
    IntToString(s.position.col) + ("|" + MaskTail(s))
  }

  /** `row,col|mask|t<timeBucket>|e<energyBucket>|c<choresDone>`. */
  function StateToString(s: ObservedState): string {
    IntToString(s.position.row) + ("," + ColumnTail(s))
  }

  /** A numeral holds no separator character. */
  predicate NoSeparator(x: string, c: char) {
    forall i :: 0 <= i < |x| ==> x[i] != c
  }

  /** In `x + c + r` with `x` free of `c`, the first `c` sits right after `x`. */
  lemma FirstSeparator(x: string, c: char, r: string)
    requires NoSeparator(x, c)
    ensures var s := x + ([c] + r);
      |x| < |s| && s[|x|] == c && forall i :: 0 <= i < |x| ==> s[i] != c
  {
  }

  /** Splitting at the first occurrence of a separator: when neither prefix
      contains `c`, equal strings have equal prefixes and equal tails. */
  lemma SplitAtSeparator(x: string, y: string, c: char, r1: string, r2: string)
    requires NoSeparator(x, c) && NoSeparator(y, c)
    requires x + ([c] + r1) == y + ([c] + r2)
    ensures x == y && r1 == r2
  {
    var s1 := x + ([c] + r1);
    var s2 := y + ([c] + r2);
    FirstSeparator(x, c, r1);
    FirstSeparator(y, c, r2);
    assert |x| == |y|;
    assert x == s1[..|x|] && y == s2[..|y|];
    assert r1 == s1[|x| + 1..] && r2 == s2[|y| + 1..];
  }

  /** Splits off a natural-number field followed by `|` and a letter. */
  lemma SplitNatField(m: nat, n: nat, c: char, r1: string, r2: string)
    requires NatToString(m) + (['|', c] + r1) == NatToString(n) + (['|', c] + r2)
    ensures m == n && r1 == r2
  {
    assert ['|', c] + r1 == ['|'] + ([c] + r1);
    assert ['|', c] + r2 == ['|'] + ([c] + r2);
    SplitAtSeparator(NatToString(m), NatToString(n), '|', [c] + r1, [c] + r2);
    NatToStringInjective(m, n);
    assert r1 == ([c] + r1)[1..];
  }

  lemma EnergyTailInjective(s1: ObservedState, s2: ObservedState)
    requires EnergyTail(s1) == EnergyTail(s2)
    ensures s1.energyBucket == s2.energyBucket && s1.choresDone == s2.choresDone
  {
    SplitNatField(s1.energyBucket, s2.energyBucket, 'c', ChoresTail(s1), ChoresTail(s2));
    NatToStringInjective(s1.choresDone, s2.choresDone);
  }

  lemma TimeTailInjective(s1: ObservedState, s2: ObservedState)
    requires TimeTail(s1) == TimeTail(s2)
    ensures s1.timeBucket == s2.timeBucket && s1.energyBucket == s2.energyBucket && s1.choresDone == s2.choresDone
  {
    SplitNatField(s1.timeBucket, s2.timeBucket, 'e', EnergyTail(s1), EnergyTail(s2));
    EnergyTailInjective(s1, s2);
  }

  lemma MaskTailInjective(s1: ObservedState, s2: ObservedState)
    requires MaskTail(s1) == MaskTail(s2)
    ensures s1.visitMask == s2.visitMask && s1.timeBucket == s2.timeBucket
    ensures s1.energyBucket == s2.energyBucket && s1.choresDone == s2.choresDone
  {
    SplitNatField(s1.visitMask, s2.visitMask, 't', TimeTail(s1), TimeTail(s2));
    TimeTailInjective(s1, s2);
  }

  /** Two observations that differ in any field get different keys. */
  lemma StateToStringInjective(s1: ObservedState, s2: ObservedState)
    requires StateToString(s1) == StateToString(s2)
    ensures s1 == s2
  {
    SplitAtSeparator(IntToString(s1.position.row), IntToString(s2.position.row), ',', ColumnTail(s1), ColumnTail(s2));
    SplitAtSeparator(IntToString(s1.position.col), IntToString(s2.position.col), '|', MaskTail(s1), MaskTail(s2));
    IntToStringInjective(s1.position.row, s2.position.row);
    IntToStringInjective(s1.position.col, s2.position.col);
    MaskTailInjective(s1, s2);
  }

  /** The visit mask alone separates two otherwise equal observations. */
  lemma MaskSeparatesKeys(s: ObservedState, m: nat)
    requires m != s.visitMask
    ensures StateToString(s) != StateToString(s.(visitMask := m))
  {
    if StateToString(s) == StateToString(s.(visitMask := m)) {
      StateToStringInjective(s, s.(visitMask := m));
    }
  }
}
