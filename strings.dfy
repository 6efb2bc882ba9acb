/**
 * The string operations the leaderboard uses: the decimal rendering of a
 * number (`toString()`, a template literal), lower-casing and `includes`.
 * Lower-casing is ASCII only.
 */
module Strings {

  predicate IsDigit(c: char) {
    '0' <= c <= '9'
  }

  predicate AllDigits(s: string) {
    forall i :: 0 <= i < |s| ==> IsDigit(s[i])
  }

  function DigitChar(d: nat): (c: char)
    requires d < 10
    ensures IsDigit(c) && DigitValue(c) == d
  {
    (('0' as int) + d) as char
  }

  function DigitValue(c: char): nat
    requires IsDigit(c)
  {
    (c as int) - ('0' as int)
  }

  /** The number a string of decimal digits denotes, most significant first. */
  function ParseNat(s: string): nat
    requires AllDigits(s)
  {
    if s == [] then 0 else ParseNat(s[..|s| - 1]) * 10 + DigitValue(s[|s| - 1])
  }

  /**
   * The shortest decimal rendering of `n`: a non-empty string of digits with
   * no leading zero except for `n == 0` itself.
   */
  function NatToString(n: nat): (s: string)
    ensures |s| >= 1 && AllDigits(s)
    ensures s[0] == '0' <==> n == 0
    ensures s[0] == '0' ==> |s| == 1
    decreases n
  {
    if n < 10 then [DigitChar(n)] else NatToString(n / 10) + [DigitChar(n % 10)]
  }

  /** Reading back a rendered number gives the number. */
  lemma {:induction false} NatToStringRoundTrip(n: nat)
    ensures ParseNat(NatToString(n)) == n
    decreases n
  {
    var s := NatToString(n);
    if n >= 10 {
      NatToStringRoundTrip(n / 10);
      assert s[..|s| - 1] == NatToString(n / 10);
    } else {
      assert s[..0] == [];
    }
  }

  /** A digit string whose first digit is not `0` denotes at least 1. */
  lemma {:induction false} LeadingDigitPositive(t: string)
    requires |t| >= 1 && AllDigits(t) && t[0] != '0'
    ensures ParseNat(t) >= 1
    decreases |t|
  {
    if |t| == 1 {
      assert t[..0] == [];
    } else {
      var front := t[..|t| - 1];
      assert front[0] == t[0];
      LeadingDigitPositive(front);
    }
  }

  /**
   * The shortest rendering is the only one: every non-empty digit string
   * without a leading zero (other than `"0"` itself) that denotes `n` is
   * `NatToString(n)`.
   */
  lemma {:induction false} NatToStringCanonical(t: string, n: nat)
    requires |t| >= 1 && AllDigits(t) && (t[0] == '0' ==> |t| == 1)
    requires ParseNat(t) == n
    ensures t == NatToString(n)
    decreases |t|
  {
    var front, last := t[..|t| - 1], t[|t| - 1];
    if |t| == 1 {
      assert front == [];
      assert DigitChar(n) == last;
    } else {
      assert front[0] == t[0];
      LeadingDigitPositive(front);
      assert n / 10 == ParseNat(front) && n % 10 == DigitValue(last);
      NatToStringCanonical(front, n / 10);
      assert DigitChar(n % 10) == last;
      assert t == front + [last];
    }
  }

  /**
   * `t` is the canonical decimal of `i`: digits without a leading zero (other
   * than `"0"` itself), preceded by `-` when `i` is negative.
   */
  ghost predicate IsDecimalOf(t: string, i: int) {
    if i >= 0 then
      |t| >= 1 && AllDigits(t) && (t[0] == '0' ==> |t| == 1) && ParseNat(t) == i
    else
      |t| >= 2 && t[0] == '-' && AllDigits(t[1..]) && t[1] != '0' && ParseNat(t[1..]) == -i
  }

  /** JavaScript's `String(i)` for an integral number `i`. */
  function IntToString(i: int): (s: string)
    ensures IsDecimalOf(s, i)
  {
    NatToStringRoundTrip(if i < 0 then -i else i);
    if i < 0 then
      var s := "-" + NatToString(-i);
      assert s[1..] == NatToString(-i);
      s
    else NatToString(i)
  }

  /** The canonical decimal is unique: whatever string is the decimal of `i` is `IntToString(i)`. */
  lemma IntToStringCanonical(t: string, i: int)
    requires IsDecimalOf(t, i)
    ensures t == IntToString(i)
  {
    if i >= 0 {
      NatToStringCanonical(t, i);
    } else {
      NatToStringCanonical(t[1..], -i);
      assert t == "-" + t[1..];
    }
  }

  /** `IntToString` is injective, so a rank text identifies its rank. */
  lemma IntToStringInjective(a: int, b: int)
    requires IntToString(a) == IntToString(b)
    ensures a == b
  {
  }

  /** ASCII case folding of one character. */
  function LowerChar(c: char): (r: char)
    ensures 'A' <= c <= 'Z' ==> 'a' <= r <= 'z' && r as int == c as int + 32
    ensures !('A' <= c <= 'Z') ==> r == c
  {
    if 'A' <= c <= 'Z' then (c as int + 32) as char else c
  }

  /** `s.toLowerCase()`, ASCII only. */
  function ToLower(s: string): (r: string)
    ensures |r| == |s|
    ensures forall i :: 0 <= i < |s| ==> r[i] == LowerChar(s[i])
    ensures forall i :: 0 <= i < |r| ==> !('A' <= r[i] <= 'Z')
  {
    seq(|s|, i requires 0 <= i < |s| => LowerChar(s[i]))
  }

  /** `t` occurs in `s` starting at index `i`. */
  predicate OccursAt(s: string, t: string, i: nat) {
    i + |t| <= |s| && s[i..i + |t|] == t
  }

  lemma OccursAtTail(s: string, t: string, i: nat)
    requires 1 <= i <= |s|
    ensures OccursAt(s, t, i) <==> OccursAt(s[1..], t, i - 1)
  {
    if i + |t| <= |s| {
      assert s[1..][i - 1..i - 1 + |t|] == s[i..i + |t|];
    }
  }

  /** `t` is a prefix of `s`. */
  predicate StartsWith(s: string, t: string) {
    |t| <= |s| && s[..|t|] == t
  }

  /** `s.includes(t)`: `t` occurs somewhere in `s` (the empty string everywhere). */
  function Includes(s: string, t: string): (r: bool)
    ensures r <==> exists i: nat :: i <= |s| && OccursAt(s, t, i)
  {
    if StartsWith(s, t) then
      assert OccursAt(s, t, 0);
      true
    else if s == [] then false
    else
      var r := Includes(s[1..], t);
      assert !OccursAt(s, t, 0);
      assert r ==> exists i: nat :: i <= |s| && OccursAt(s, t, i) by {
        if r {
          var j: nat :| j <= |s| - 1 && OccursAt(s[1..], t, j);
          OccursAtTail(s, t, j + 1);
        }
      }
      assert (exists i: nat :: i <= |s| && OccursAt(s, t, i)) ==> r by {
        if exists i: nat :: i <= |s| && OccursAt(s, t, i) {
          var i: nat :| i <= |s| && OccursAt(s, t, i);
          OccursAtTail(s, t, i);
        }
      }
      r
  }
}
