/**
 * Go's decimal integer conversions as apache_logpipe uses them: `strconv.Atoi`
 * (for response times and status codes) and `strconv.FormatInt` / `%d`
 * (for metric values and metric keys), on a 64-bit platform.
 */
module Strconv {
  import opened Wrappers

  const Int64Min: int := -0x8000_0000_0000_0000
  const Int64Max: int := 0x7FFF_FFFF_FFFF_FFFF

  /** Values representable by Go's `int` on a 64-bit platform. */
  predicate InInt64(n: int) {
    Int64Min <= n <= Int64Max
  }

  predicate IsDigit(c: char) {
    '0' <= c <= '9'
  }

  predicate AllDigits(s: string) {
    forall i :: 0 <= i < |s| ==> IsDigit(s[i])
  }

  /** The numeric value of a string of decimal digits, most significant first. */
  function DigitsValue(s: string): nat
    requires AllDigits(s)
  {
    if |s| == 0 then 0
    else DigitsValue(s[..|s| - 1]) * 10 + (s[|s| - 1] as int - '0' as int)
  }

  /** The text after an optional leading '+' or '-'. */
  function Unsigned(s: string): string {
    if |s| > 0 && (s[0] == '+' || s[0] == '-') then s[1..] else s
  }

  /** Whether the text is an optional sign followed by at least one decimal digit and nothing else. */
  predicate WellFormedDecimal(s: string) {
    |Unsigned(s)| > 0 && AllDigits(Unsigned(s))
  }

  /** The number a well-formed decimal text denotes, before any range check. */
  function Denoted(s: string): int
    requires WellFormedDecimal(s)
  {
    var magnitude: int := DigitsValue(Unsigned(s));
    if s[0] == '-' then -magnitude else magnitude
  }

  /**
   * `strconv.Atoi`: an optional sign followed by at least one decimal digit
   * and nothing else; values outside the 64-bit range are a range error.
   */
  function Atoi(s: string): (r: Option<int>)
    ensures r.Some? <==> WellFormedDecimal(s) && InInt64(Denoted(s))
    ensures r.Some? ==> r.value == Denoted(s)
    ensures r.Some? ==> InInt64(r.value)
    ensures r.Some? ==> |s| > 0 && AllDigits(Unsigned(s)) && |Unsigned(s)| > 0
    ensures r.Some? ==> (r.value < 0 ==> s[0] == '-')
  {
    var digits := Unsigned(s);
    if |digits| == 0 || !AllDigits(digits) then None
    else
      var magnitude: int := DigitsValue(digits);
      var v: int := if s[0] == '-' then -magnitude else magnitude;
      if InInt64(v) then Some(v) else None
  }

  /** The decimal digits of a natural number, without leading zeros. */
  function NatDigits(n: nat): (s: string)
    ensures |s| > 0 && AllDigits(s)
    ensures |s| > 1 ==> s[0] != '0'
  {
    if n < 10 then ['0' + n as char]
    else NatDigits(n / 10) + ['0' + (n % 10) as char]
  }

  /** `strconv.FormatInt(n, 10)`, equivalently `fmt.Sprintf("%d", n)`. */
  function Itoa(n: int): (s: string)
    ensures |s| > 0
    ensures s[0] == '-' <==> n < 0
  {
    if n < 0 then "-" + NatDigits(-n) else NatDigits(n)
  }

  lemma {:induction false} DigitsValueOfNatDigits(n: nat)
    ensures DigitsValue(NatDigits(n)) == n
    decreases n
  {
    var s := NatDigits(n);
    if n >= 10 {
      DigitsValueOfNatDigits(n / 10);
      assert s[..|s| - 1] == NatDigits(n / 10);
    }
  }

  /** Parsing what FormatInt printed gives the number back. */
  lemma AtoiItoa(n: int)
    requires InInt64(n)
    ensures Atoi(Itoa(n)) == Some(n)
  {
    var s := Itoa(n);
    if n < 0 {
      DigitsValueOfNatDigits(-n);
      assert Unsigned(s) == NatDigits(-n);
    } else {
      DigitsValueOfNatDigits(n);
      assert Unsigned(s) == NatDigits(n);
    }
  }

  /** A run of `k` zero digits. */
  function Zeros(k: nat): (z: string)
    ensures |z| == k && AllDigits(z)
  {
    seq(k, _ => '0')
  }

  /** Leading zeros do not change the value of a digit string. */
  lemma {:induction false} DigitsValueLeadingZeros(k: nat, s: string)
    requires AllDigits(s)
    ensures AllDigits(Zeros(k) + s) && DigitsValue(Zeros(k) + s) == DigitsValue(s)
    decreases |s|
  {
    var t := Zeros(k) + s;
    assert AllDigits(t) by {
      forall i | 0 <= i < |t| ensures IsDigit(t[i]) {
        if i < k { assert t[i] == Zeros(k)[i]; } else { assert t[i] == s[i - k]; }
      }
    }
    if |s| == 0 {
      ZerosValue(k);
      assert t == Zeros(k);
    } else {
      var init := s[..|s| - 1];
      DigitsValueLeadingZeros(k, init);
      assert t[..|t| - 1] == Zeros(k) + init;
      assert t[|t| - 1] == s[|s| - 1];
    }
  }

  lemma {:induction false} ZerosValue(k: nat)
    ensures DigitsValue(Zeros(k)) == 0
    decreases k
  {
    if k > 0 {
      assert Zeros(k)[..k - 1] == Zeros(k - 1);
      ZerosValue(k - 1);
    }
  }

  /**
   * Atoi accepts more texts than FormatInt prints: any number of leading
   * zeros, with or without a '+', denotes the same non-negative number.
   */
  lemma AtoiPaddedItoa(n: int, k: nat)
    requires 0 <= n <= Int64Max
    ensures Atoi(Zeros(k) + Itoa(n)) == Some(n)
    ensures Atoi("+" + Zeros(k) + Itoa(n)) == Some(n)
  {
    var digits := NatDigits(n);
    DigitsValueOfNatDigits(n);
    DigitsValueLeadingZeros(k, digits);
    assert Itoa(n) == digits;
    var t := Zeros(k) + digits;
    AtoiOfDigits(t);
    assert Zeros(k) + Itoa(n) == t;
    assert "+" + Zeros(k) + Itoa(n) == "+" + t;
  }

  /** An unsigned or '+'-signed digit string in range converts to its value. */
  lemma AtoiOfDigits(t: string)
    requires |t| > 0 && AllDigits(t) && DigitsValue(t) <= Int64Max
    ensures Atoi(t) == Some(DigitsValue(t))
    ensures Atoi("+" + t) == Some(DigitsValue(t))
  {
    assert IsDigit(t[0]);
    assert Unsigned(t) == t;
    assert Unsigned("+" + t) == t;
  }

  /** Distinct numbers print differently, so printed numbers can serve as keys. */
  lemma ItoaInjective(a: int, b: int)
    requires Itoa(a) == Itoa(b)
    ensures a == b
  {
    if a < 0 {
      assert NatDigits(-a) == Itoa(a)[1..] == Itoa(b)[1..] == NatDigits(-b);
      DigitsValueOfNatDigits(-a);
      DigitsValueOfNatDigits(-b);
    } else {
      DigitsValueOfNatDigits(a);
      DigitsValueOfNatDigits(b);
    }
  }

  /** Any character other than a digit, past the optional sign, makes the text invalid. */
  lemma AtoiRejectsNonDigit(s: string, i: nat)
    requires i < |s| && !IsDigit(s[i])
    requires i > 0 || (s[0] != '+' && s[0] != '-')
    ensures Atoi(s) == None
  {
    var digits := Unsigned(s);
    if |s| > 0 && (s[0] == '+' || s[0] == '-') {
      assert digits[i - 1] == s[i];
    } else {
      assert digits[i] == s[i];
    }
  }

  /** The inputs of the accounting tests: malformed times are rejected, signs are accepted. */
  lemma AtoiExamples()
    ensures Atoi("HONK0") == None
    ensures Atoi("") == None
    ensures Atoi("+") == None
    ensures Atoi("12a") == None
    ensures Atoi("-5") == Some(-5)
    ensures Atoi("+007") == Some(7)
  {
    AtoiRejectsNonDigit("HONK0", 0);
    AtoiRejectsNonDigit("12a", 2);
    assert DigitsValue("5") == 5;
    assert DigitsValue("007") == 7 by {
      assert "007"[..2] == "00";
      assert "00"[..1] == "0";
    }
  }
}
