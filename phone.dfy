/**
 * Phone canonicalisation of the check-in dashboard (`formatPhone`): every
 * character other than an ASCII digit is stripped; when exactly ten digits
 * remain the number is displayed as `(DDD) DDD-DDDD`, and otherwise the input
 * is passed through untouched (a malformed number is not rejected).
 */
module Phone {

  /** `\d` of a JavaScript regular expression without the `u` flag. */
  predicate IsDigit(c: char) {
    '0' <= c <= '9'
  }

  /** `phone.replace(/\D/g, '')`: the digits of `s`, in order. */
  function Digits(s: string): (d: string)
    ensures |d| <= |s|
    ensures forall i :: 0 <= i < |d| ==> IsDigit(d[i])
  {
    if |s| == 0 then ""
    else if IsDigit(s[0]) then [s[0]] + Digits(s[1..])
    else Digits(s[1..])
  }

  /** The display form `(DDD) DDD-DDDD` of ten digits. */
  function Canonical(d: string): (r: string)
    requires |d| == 10
    ensures |r| == 14
    ensures r[0] == '(' && r[1..4] == d[0..3] && r[4..6] == ") "
    ensures r[6..9] == d[3..6] && r[9] == '-' && r[10..14] == d[6..10]
  {
    "(" + d[0..3] + ") " + d[3..6] + "-" + d[6..10]
  }

  /** `formatPhone(phone)`. */
  function FormatPhone(phone: string): (r: string)
    ensures |Digits(phone)| == 10 ==> r == Canonical(Digits(phone))
    ensures |Digits(phone)| != 10 ==> r == phone
    ensures |Digits(phone)| == 10 ==>
      && |r| == 14 && Digits(r) == Digits(phone)
      && r[0] == '(' && r[4..6] == ") " && r[9] == '-'
  {
    var cleaned := Digits(phone);
    if |cleaned| == 10 then
      CanonicalDigits(cleaned);
      Canonical(cleaned)
    else phone
  }

  /** Stripping non-digits distributes over concatenation. */
  lemma {:induction false} DigitsConcat(a: string, b: string)
    ensures Digits(a + b) == Digits(a) + Digits(b)
  {
    if |a| == 0 {
      assert a + b == b;
    } else {
      assert (a + b)[1..] == a[1..] + b;
      DigitsConcat(a[1..], b);
    }
  }

  /** A string of digits is its own digit string. */
  lemma {:induction false} DigitsOfDigits(d: string)
    requires forall i :: 0 <= i < |d| ==> IsDigit(d[i])
    ensures Digits(d) == d
  {
    if |d| > 0 {
      DigitsOfDigits(d[1..]);
    }
  }

  /** A string without digits has no digits to keep. */
  lemma {:induction false} DigitsOfNonDigits(t: string)
    requires forall i :: 0 <= i < |t| ==> !IsDigit(t[i])
    ensures Digits(t) == ""
  {
    if |t| > 0 {
      DigitsOfNonDigits(t[1..]);
    }
  }

  /** The canonical form carries exactly the ten digits it was built from, in order. */
  lemma CanonicalDigits(d: string)
    requires |d| == 10
    requires forall i :: 0 <= i < |d| ==> IsDigit(d[i])
    ensures Digits(Canonical(d)) == d
    ensures |Canonical(d)| == 14
  {
    DigitsConcat("(" + d[0..3] + ") " + d[3..6] + "-", d[6..10]);
    DigitsConcat("(" + d[0..3] + ") " + d[3..6], "-");
    DigitsConcat("(" + d[0..3] + ") ", d[3..6]);
    DigitsConcat("(" + d[0..3], ") ");
    DigitsConcat("(", d[0..3]);
    DigitsOfDigits(d[0..3]);
    DigitsOfDigits(d[3..6]);
    DigitsOfDigits(d[6..10]);
    assert d == d[0..3] + d[3..6] + d[6..10];
  }

  /** Formatting an already formatted (or passed-through) number changes nothing. */
  lemma FormatPhoneIdempotent(phone: string)
    ensures FormatPhone(FormatPhone(phone)) == FormatPhone(phone)
  {
  }

  /**
   * Two inputs with the same ten digits, whatever their punctuation, format to
   * the same number, and the formatted number keeps those digits.
   */
  lemma FormatPhoneCanonical(a: string, b: string)
    requires |Digits(a)| == 10 && Digits(a) == Digits(b)
    ensures FormatPhone(a) == FormatPhone(b)
    ensures Digits(FormatPhone(a)) == Digits(a)
  {
  }
}
