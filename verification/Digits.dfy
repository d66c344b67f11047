/** Natural numbers printed in decimal, as C++ streams and `to_string` do. */
module Digits {
  predicate Digit(c: char) {
    '0' <= c <= '9'
  }

  function DecimalText(n: nat): (s: string)
    ensures s != ""
    decreases n
  {
    (if n < 10 then "" else DecimalText(n / 10)) + ['0' + (n % 10) as char]
  }

  /** The value of a run of digits. */
  function ValueOf(s: string): nat
    requires forall i :: 0 <= i < |s| ==> Digit(s[i])
    decreases |s|
  {
    if s == "" then 0 else
      assert Digit(s[|s| - 1]);
      10 * ValueOf(s[..|s| - 1]) + (s[|s| - 1] - '0') as nat
  }

  lemma {:induction false} DecimalDigits(n: nat)
    ensures forall i :: 0 <= i < |DecimalText(n)| ==> Digit(DecimalText(n)[i])
    ensures n > 0 ==> DecimalText(n)[0] != '0'
    ensures n == 0 ==> DecimalText(n) == "0"
    decreases n
  {
    if n >= 10 {
      DecimalDigits(n / 10);
    }
  }

  lemma DigitValue(d: nat)
    requires d < 10
    ensures Digit('0' + d as char) && ('0' + d as char - '0') as nat == d
  {
    assert '0' + d as char - '0' == d as char;
  }

  lemma {:induction false} DecimalReadsBack(n: nat)
    ensures forall i :: 0 <= i < |DecimalText(n)| ==> Digit(DecimalText(n)[i])
    ensures ValueOf(DecimalText(n)) == n
    decreases n
  {
    var s := DecimalText(n);
    DecimalDigits(n);
    DigitValue(n % 10);
    if n < 10 {
      assert s[..|s| - 1] == "";
    } else {
      DecimalReadsBack(n / 10);
      assert s[..|s| - 1] == DecimalText(n / 10);
    }
  }

  /** The end of the run of digits at `i`. */
  function DigitsEnd(s: string, i: nat): (e: nat)
    ensures i <= e && (i <= |s| ==> e <= |s|)
    decreases |s| - i
  {
    if i < |s| && Digit(s[i]) then DigitsEnd(s, i + 1) else i
  }

  lemma {:induction false} DigitsInRun(s: string, i: nat, k: nat)
    requires i <= k < DigitsEnd(s, i) && i <= |s|
    ensures k < |s| && Digit(s[k])
    decreases |s| - i
  {
    if i < k {
      DigitsInRun(s, i + 1, k);
    }
  }

  /** A run of digits followed by something else ends where it ends. */
  lemma {:induction false} DigitsRun(s: string, rest: string, i: nat)
    requires i <= |s| && (rest != "" ==> !Digit(rest[0])) && forall k :: 0 <= k < |s| ==> Digit(s[k])
    ensures DigitsEnd(s + rest, i) == |s|
    decreases |s| - i
  {
    if i < |s| {
      assert (s + rest)[i] == s[i];
      DigitsRun(s, rest, i + 1);
    } else if rest != "" {
      assert (s + rest)[i] == rest[0];
    }
  }
}
