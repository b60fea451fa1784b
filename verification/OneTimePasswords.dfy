/** What counter-based and time-based one-time passwords share. */
module OneTimePasswords {

  /** Unicode normalisation of a submitted code to form NFKC. */
  type Normaliser = string -> string

  datatype Error = NotEnrolled | AlreadyEnrolled | AlreadyEnabled | NotEnabled | InvalidCode

  predicate AllDigits(code: string) {
    forall i | 0 <= i < |code| :: '0' <= code[i] <= '9'
  }

  /** ASCII digits of the right number, at least one. */
  predicate WellFormed(code: string, length: int) {
    |code| == length && code != "" && AllDigits(code)
  }

  const DIGITS := "0123456789"

  /** The last `n` decimal digits of a value, the form that a one-time password has (section 5.3 of RFC 4226). */
  function Numeral(value: nat, n: nat): string {
    if n == 0 then "" else Numeral(value / 10, n - 1) + [DIGITS[value % 10]]
  }

  lemma DigitAt(d: nat)
    requires d < 10
    ensures DIGITS[d] as int == '0' as int + d
  {
  }

  lemma LastDigit(q: nat, d: nat)
    requires d < 10
    ensures (q * 10 + d) / 10 == q && (q * 10 + d) % 10 == d
  {
  }

  lemma NumeralAppends(q: nat, d: nat, n: nat) returns (value: nat)
    requires d < 10
    ensures Numeral(value, n + 1) == Numeral(q, n) + [('0' as int + d) as char]
  {
    value := q * 10 + d;
    LastDigit(q, d);
    DigitAt(d);
  }

  lemma {:induction false} NumeralIsDigits(value: nat, n: nat)
    ensures |Numeral(value, n)| == n && AllDigits(Numeral(value, n))
    decreases n
  {
    if n != 0 {
      NumeralIsDigits(value / 10, n - 1);
      DigitAt(value % 10);
    }
  }

  lemma {:induction false} DigitsAreNumeral(code: string) returns (value: nat)
    requires AllDigits(code)
    ensures code == Numeral(value, |code|)
    decreases |code|
  {
    if code == "" {
      value := 0;
    } else {
      var front, last := code[..|code|-1], code[|code|-1];
      value := DigitsAreNumeral(front);
      value := NumeralAppends(value, last as int - '0' as int, |front|);
      assert code == front + [last];
    }
  }

  /** The codes let through are exactly those that a one-time password of this length can be. */
  lemma WellFormedIffNumeral(code: string, length: int)
    ensures WellFormed(code, length) <==> 1 <= length && exists value: nat :: code == Numeral(value, length)
  {
    if WellFormed(code, length) {
      var value := DigitsAreNumeral(code);
    } else if 1 <= length {
      forall value: nat ensures code != Numeral(value, length) {
        NumeralIsDigits(value, length);
      }
    }
  }
}
