/** The ORCID check character (app/applicant/fields.py, _valid_orcid): pure system MOD 11-2 of ISO/IEC 7064:2003. */
module Orcid {
  import opened Base

  /**
   * The decimal value that Python's `\d` and `int` give a character. Every ASCII digit has its own; so do the decimal
   * digits of other scripts.
   */
  type Digits = char -> Option<nat>

  ghost predicate DecimalDigits(digits: Digits) {
    && (forall c :: digits(c).Some? ==> digits(c).value <= 9)
    && (forall c :: '0' <= c <= '9' ==> digits(c) == Some(c as int - '0' as int))
    && digits('X') == None && digits('-') == None
  }

  function CheckCharacter(result: nat): char
    requires result <= 10
  {
    if result == 10 then 'X' else '0' + result as char
  }

  function Compact(value: string): string {
    if value == "" then ""
    else Compact(value[..|value| - 1]) + if value[|value| - 1] == '-' then "" else [value[|value| - 1]]
  }

  /** The digit values of a string all of whose characters are digits. */
  ghost function Values(digits: Digits, s: string): seq<int>
    requires forall i :: 0 <= i < |s| ==> digits(s[i]).Some?
  {
    seq(|s|, i requires 0 <= i < |s| => digits(s[i]).value)
  }

  /** Horner's rule for the sum of the values, each weighted by the power of two of its distance from the right. */
  function Weighted(values: seq<int>): int {
    if values == [] then 0 else 2 * Weighted(values[..|values| - 1]) + values[|values| - 1]
  }

  function Expected(total: int): char {
    CheckCharacter((12 - total % 11) % 11)
  }

  /** Digits followed by the check character that the doubling loop over them yields. */
  ghost predicate Accepted(digits: Digits, s: string) {
    && |s| > 0
    && (forall i :: 0 <= i < |s| - 1 ==> digits(s[i]).Some?)
    && s[|s| - 1] == Expected(2 * Weighted(Values(digits, s[..|s| - 1])))
  }

  method ValidOrcid(value: string, digits: Digits) returns (valid: bool)
    requires DecimalDigits(digits)
    ensures valid <==> |Compact(value)| == 16 && Accepted(digits, Compact(value))
  {
    var compact := Compact(value);
    if |compact| != 16 {
      return false;
    }
    for i := 0 to 15
      invariant forall j :: 0 <= j < i ==> digits(compact[j]).Some?
    {
      if digits(compact[i]).None? {
        return false;
      }
    }
    var total: nat := 0;
    assert Values(digits, compact[..0]) == [];
    for i := 0 to 15
      invariant total == 2 * Weighted(Values(digits, compact[..i]))
    {
      var next := Values(digits, compact[..i + 1]);
      assert next[..i] == Values(digits, compact[..i]);
      total := (total + digits(compact[i]).value) * 2;
    }
    assert compact[..|compact| - 1] == compact[..15];
    valid := compact[15] == Expected(total);
  }

  // ------------------------------------------------------------------
  // The weighted sum
  // ------------------------------------------------------------------

  function Pow2(k: nat): nat {
    if k == 0 then 1 else 2 * Pow2(k - 1)
  }

  /** The sum as the standard writes it. */
  function PowerSum(values: seq<int>, n: nat): int
    requires n <= |values|
  {
    if n == 0 then 0 else PowerSum(values, n - 1) + values[n - 1] * Pow2(|values| - n)
  }

  lemma {:induction false} PowerSumOfLonger(values: seq<int>, n: nat)
    requires n < |values|
    ensures PowerSum(values, n) == 2 * PowerSum(values[..|values| - 1], n)
  {
    if n > 0 {
      PowerSumOfLonger(values, n - 1);
      var k := |values| - n - 1;
      assert Pow2(k + 1) == 2 * Pow2(k);
      assert values[n - 1] * (2 * Pow2(k)) == 2 * (values[n - 1] * Pow2(k));
    }
  }

  lemma {:induction false} WeightedIsPowerSum(values: seq<int>)
    ensures Weighted(values) == PowerSum(values, |values|)
  {
    if values != [] {
      var n := |values| - 1;
      WeightedIsPowerSum(values[..n]);
      PowerSumOfLonger(values, n);
    }
  }

  /** The value of the last character, where X stands for ten. */
  function CheckValue(c: char): int {
    if c == 'X' then 10 else c as int - '0' as int
  }

  predicate CheckLike(c: char) {
    c == 'X' || '0' <= c <= '9'
  }

  /** The loop accepts exactly the strings whose weighted sum, check character included, is 1 modulo 11. */
  lemma AcceptedIffSumIsOne(digits: Digits, s: string)
    requires DecimalDigits(digits) && |s| > 0 && forall i :: 0 <= i < |s| - 1 ==> digits(s[i]).Some?
    ensures var values := Values(digits, s[..|s| - 1]) + [CheckValue(s[|s| - 1])];
            Accepted(digits, s) <==> CheckLike(s[|s| - 1]) && PowerSum(values, |values|) % 11 == 1
  {
    var n := |s| - 1;
    var prior := Values(digits, s[..n]);
    var values := prior + [CheckValue(s[n])];
    assert values[..|values| - 1] == prior;
    WeightedIsPowerSum(values);
    CheckIsUnique(2 * Weighted(prior), s[n]);
  }

  lemma CheckIsUnique(total: int, c: char)
    ensures c == Expected(total) <==> CheckLike(c) && (total + CheckValue(c)) % 11 == 1
  {
    var r := total % 11;
    assert total == 11 * (total / 11) + r;
    if CheckLike(c) {
      assert (total + CheckValue(c)) % 11 == (r + CheckValue(c)) % 11;
    }
  }

  // ------------------------------------------------------------------
  // Error detection
  // ------------------------------------------------------------------

  lemma TwiceIsNotZero(x: int)
    requires x % 11 != 0
    ensures (2 * x) % 11 != 0
  {
  }

  lemma {:induction false} NoZeroDivisors(d: int, k: nat)
    requires -10 <= d <= 10 && d != 0
    ensures (d * Pow2(k)) % 11 != 0
  {
    if k > 0 {
      NoZeroDivisors(d, k - 1);
      TwiceIsNotZero(d * Pow2(k - 1));
      assert d * Pow2(k) == 2 * (d * Pow2(k - 1));
    }
  }

  lemma {:induction false} ChangeOne(values: seq<int>, i: nat, v: int, n: nat)
    requires i < |values| && n <= |values|
    ensures PowerSum(values[i := v], n)
            == PowerSum(values, n) + if i < n then (v - values[i]) * Pow2(|values| - 1 - i) else 0
  {
    if n > 0 {
      ChangeOne(values, i, v, n - 1);
      if i == n - 1 {
        var w := Pow2(|values| - n);
        assert v * w == values[i] * w + (v - values[i]) * w;
      }
    }
  }

  lemma AddingMoves(a: int, x: int)
    ensures (a + x) % 11 == a % 11 <==> x % 11 == 0
  {
  }

  /** The digit values followed by the value of the check character. */
  ghost function FullValues(digits: Digits, s: string): seq<int>
    requires |s| > 0 && forall i :: 0 <= i < |s| - 1 ==> digits(s[i]).Some?
  {
    Values(digits, s[..|s| - 1]) + [CheckValue(s[|s| - 1])]
  }

  /** Moving the weighted sum by a small multiple of a power of two always shows. */
  lemma SumMoved(values: seq<int>, values': seq<int>, d: int, k: nat)
    requires PowerSum(values', |values'|) == PowerSum(values, |values|) + d * Pow2(k)
    requires -10 <= d <= 10 && PowerSum(values, |values|) % 11 == 1
    ensures PowerSum(values', |values'|) % 11 == 1 <==> d == 0
  {
    if d != 0 { NoZeroDivisors(d, k); }
    AddingMoves(PowerSum(values, |values|), d * Pow2(k));
  }

  /**
   * Replacing one character of an accepted string by a different one is rejected, at any length, unless a digit is
   * replaced by the same digit of another script.
   */
  lemma SingleChangeAcceptedIff(digits: Digits, s: string, i: nat, c: char)
    requires DecimalDigits(digits) && Accepted(digits, s) && i < |s| && c != s[i]
    ensures Accepted(digits, s[i := c]) <==> i < |s| - 1 && digits(c) == digits(s[i])
  {
    var n := |s| - 1;
    var s' := s[i := c];
    AcceptedIffSumIsOne(digits, s);
    if i == n {
      assert s'[..n] == s[..n];
    } else if digits(c).Some? {
      AcceptedIffSumIsOne(digits, s');
      var values, v := FullValues(digits, s), digits(c).value;
      assert FullValues(digits, s') == values[i := v];
      ChangeOne(values, i, v, |values|);
      SumMoved(values, values[i := v], v - values[i], n - i);
    } else {
      assert digits(s'[i]).None?;
    }
  }

  lemma SwapMoves(values: seq<int>, i: nat)
    requires i + 1 < |values|
    ensures PowerSum(values[i := values[i + 1]][i + 1 := values[i]], |values|)
            == PowerSum(values, |values|) + (values[i + 1] - values[i]) * Pow2(|values| - 2 - i)
  {
    var x, y := values[i], values[i + 1];
    ChangeOne(values, i, y, |values|);
    ChangeOne(values[i := y], i + 1, x, |values|);
    var w := Pow2(|values| - 2 - i);
    assert Pow2(|values| - 1 - i) == 2 * w;
    assert (y - x) * (2 * w) + (x - y) * w == (y - x) * w;
  }

  /**
   * Swapping two different neighbouring characters of an accepted string is rejected, at any length, unless both are the
   * same digit in different scripts.
   */
  lemma SwapAcceptedIff(digits: Digits, s: string, i: nat)
    requires DecimalDigits(digits) && Accepted(digits, s) && i + 1 < |s| && s[i] != s[i + 1]
    ensures Accepted(digits, s[i := s[i + 1]][i + 1 := s[i]]) <==> i + 1 < |s| - 1 && digits(s[i]) == digits(s[i + 1])
  {
    var n := |s| - 1;
    var s' := s[i := s[i + 1]][i + 1 := s[i]];
    AcceptedIffSumIsOne(digits, s);
    if digits(s'[i]).Some? && CheckLike(s'[n]) {
      AcceptedIffSumIsOne(digits, s');
      var values := FullValues(digits, s);
      var swapped := values[i := values[i + 1]][i + 1 := values[i]];
      assert FullValues(digits, s') == swapped;
      SwapMoves(values, i);
      SumMoved(values, swapped, values[i + 1] - values[i], n - i - 1);
    } else if digits(s'[i]).None? {
      assert i + 1 == n;
    }
  }

  /** With ASCII digits only, every single change and every swap of different neighbours is caught. */
  lemma AsciiErrorsAreCaught(digits: Digits, s: string, i: nat, c: char)
    requires DecimalDigits(digits) && Accepted(digits, s) && i < |s|
    requires forall j :: 0 <= j < |s| ==> CheckLike(s[j])
    ensures CheckLike(c) && c != s[i] ==> !Accepted(digits, s[i := c])
    ensures i + 1 < |s| && s[i] != s[i + 1] ==> !Accepted(digits, s[i := s[i + 1]][i + 1 := s[i]])
  {
    if c != s[i] { SingleChangeAcceptedIff(digits, s, i, c); }
    if i + 1 < |s| && s[i] != s[i + 1] { SwapAcceptedIff(digits, s, i); }
  }

  // ------------------------------------------------------------------
  // A digit of another script
  // ------------------------------------------------------------------

  /** ASCII and Arabic-Indic digits. */
  const TWO_SCRIPTS: Digits := c =>
    if '0' <= c <= '9' then Some(c as int - '0' as int)
    else if '\U{0660}' <= c <= '\U{0669}' then Some(c as int - '\U{0660}' as int)
    else None

  lemma {:induction false} WeightedZeros(values: seq<int>)
    requires forall i :: 0 <= i < |values| ==> values[i] == 0
    ensures Weighted(values) == 0
  {
    if values != [] { WeightedZeros(values[..|values| - 1]); }
  }

  lemma {:induction false} CompactWithoutHyphens(s: string)
    requires '-' !in s
    ensures Compact(s) == s
  {
    if s != "" { CompactWithoutHyphens(s[..|s| - 1]); }
  }

  /** Fifteen zeros and their check character. */
  function ZeroIdentifier(): string {
    seq(15, _ => '0') + ['1']
  }

  lemma ZeroIdentifierIsAccepted()
    ensures DecimalDigits(TWO_SCRIPTS) && Accepted(TWO_SCRIPTS, ZeroIdentifier())
  {
    var s := ZeroIdentifier();
    assert forall i :: 0 <= i < 15 ==> s[i] == '0';
    assert s[..|s| - 1] == s[..15];
    WeightedZeros(Values(TWO_SCRIPTS, s[..15]));
    assert Expected(0) == '1';
  }

  /** It stays valid when its first zero is written in Arabic-Indic digits. */
  lemma OtherScriptIsAccepted()
    ensures var s := ZeroIdentifier(); var t := s[0 := '\U{0660}'];
      && t != s && |Compact(s)| == |Compact(t)| == 16
      && Accepted(TWO_SCRIPTS, Compact(s)) && Accepted(TWO_SCRIPTS, Compact(t))
  {
    var s := ZeroIdentifier();
    var t := s[0 := '\U{0660}'];
    assert s[0] == '0' && t[0] == '\U{0660}';
    CompactWithoutHyphens(s);
    CompactWithoutHyphens(t);
    ZeroIdentifierIsAccepted();
    SingleChangeAcceptedIff(TWO_SCRIPTS, s, 0, '\U{0660}');
  }

  lemma {:induction false} CompactOfSum(a: string, b: string)
    ensures Compact(a + b) == Compact(a) + Compact(b)
    decreases |b|
  {
    if b == [] {
      assert a + b == a;
    } else {
      assert (a + b)[..|a + b| - 1] == a + b[..|b| - 1];
      CompactOfSum(a, b[..|b| - 1]);
    }
  }

  /** Hyphens may stand anywhere and do not matter; every other character does. */
  lemma {:induction false} HyphensDoNotMatter(a: string, b: string)
    ensures Compact(a + "-" + b) == Compact(a + b)
    ensures '-' !in a ==> Compact(a) == a
    decreases |a|
  {
    CompactOfSum(a + "-", b);
    CompactOfSum(a, b);
    CompactOfSum(a, "-");
    assert "-"[..0] == "" && Compact("-") == "";
    if a != [] {
      HyphensDoNotMatter(a[..|a| - 1], b);
      assert a == a[..|a| - 1] + [a[|a| - 1]];
    }
  }
}
