/** Decimal numbers as Go prints and parses them. */
module Decimals {
  import opened Octets
  import opened Text

  predicate IsDigit(c: Byte) {
    '0' <= c <= '9'
  }

  function Decimal(n: nat): (s: Text)
    ensures s != []
  {
    if n < 10 then [('0' as int + n) as char] else Decimal(n / 10) + [('0' as int + n % 10) as char]
  }

  function DigitsValue(s: Text): Option<nat> {
    if s == [] then Some(0)
    else if !IsDigit(s[|s| - 1]) || DigitsValue(s[..|s| - 1]).None? then None
    else Some(10 * DigitsValue(s[..|s| - 1]).value + (s[|s| - 1] as int - '0' as int))
  }

  const MAX_INT64 := 0x7FFF_FFFF_FFFF_FFFF

  /** `strconv.ParseInt(s, 10, 64)`: a sign and leading zeros are fine. */
  function ParseInt(s: Text): Option<int> {
    var signed := s != [] && (s[0] == '+' || s[0] == '-');
    var digits := if signed then s[1..] else s;
    if digits == [] || DigitsValue(digits).None? then None
    else
      var n: int := DigitsValue(digits).value;
      if signed && s[0] == '-' then if n > MAX_INT64 + 1 then None else Some(-n)
      else if n > MAX_INT64 then None else Some(n)
  }

  lemma {:induction false} DecimalReadsBack(n: nat)
    ensures DigitsValue(Decimal(n)) == Some(n)
    ensures forall k :: 0 <= k < |Decimal(n)| ==> IsDigit(Decimal(n)[k])
  {
    var s := Decimal(n);
    if n < 10 {
      assert s[..0] == [];
    } else {
      DecimalReadsBack(n / 10);
      assert s[..|s| - 1] == Decimal(n / 10);
    }
  }

  lemma {:induction false} DecimalParses(n: nat)
    requires n <= MAX_INT64
    ensures ParseInt(Decimal(n)) == Some(n)
  {
    DecimalReadsBack(n);
    assert IsDigit(Decimal(n)[0]);
  }

  lemma DecimalInjective(a: nat, b: nat)
    requires Decimal(a) == Decimal(b)
    ensures a == b
  {
    DecimalReadsBack(a);
    DecimalReadsBack(b);
  }

  // ---- What is read as which number.

  predicate AllDigits(s: Text) {
    forall k :: 0 <= k < |s| ==> '0' <= s[k] <= '9'
  }

  function Power10(n: nat): nat {
    if n == 0 then 1 else 10 * Power10(n - 1)
  }

  /** Digits by their weights, the first being the heaviest. */
  function Weighed(s: Text): nat
    requires AllDigits(s)
  {
    if s == [] then 0 else (s[0] as int - '0' as int) * Power10(|s| - 1) + Weighed(s[1..])
  }

  lemma Shifts(d: nat, p: nat)
    ensures d * (10 * p) == 10 * (d * p)
  {
  }

  lemma {:induction false} WeighedSnoc(s: Text, c: Byte)
    requires AllDigits(s) && '0' <= c <= '9'
    ensures AllDigits(s + [c]) && Weighed(s + [c]) == 10 * Weighed(s) + (c as int - '0' as int)
  {
    if s == [] {
      assert [] + [c] == [c] && [c][1..] == [];
    } else {
      assert (s + [c])[1..] == s[1..] + [c];
      WeighedSnoc(s[1..], c);
      Shifts(s[0] as int - '0' as int, Power10(|s| - 1));
    }
  }

  lemma {:induction false} DigitsAreWeighed(s: Text)
    ensures DigitsValue(s) == if AllDigits(s) then Some(Weighed(s)) else None
  {
    if s != [] {
      var front, c := s[..|s| - 1], s[|s| - 1];
      DigitsAreWeighed(front);
      assert s == front + [c];
      if AllDigits(front) && '0' <= c <= '9' {
        WeighedSnoc(front, c);
      }
    }
  }

  /** The digits of a number, behind an optional sign. */
  ghost predicate Reads(s: Text, digits: Text, n: int) {
    && digits != [] && AllDigits(digits)
    && if s == "-" + digits then n == 0 - Weighed(digits)
       else (s == digits || s == "+" + digits) && n == Weighed(digits)
  }

  /** Text is read as a number exactly when it is that number's digits, signed or not, within 64 bits. */
  lemma ParseIntExactlyWhen(s: Text, n: int)
    ensures ParseInt(s) == Some(n) <==>
              -0x8000_0000_0000_0000 <= n < 0x8000_0000_0000_0000 && exists digits :: Reads(s, digits, n)
  {
    var signed := s != [] && (s[0] == '+' || s[0] == '-');
    var digits := if signed then s[1..] else s;
    DigitsAreWeighed(digits);
    if signed {
      assert s == [s[0]] + digits;
    }
    if ParseInt(s) == Some(n) {
      assert Reads(s, digits, n);
    }
    if d :| Reads(s, d, n) {
      if s != d {
        assert s[1..] == d;
      } else {
        assert s[0] == d[0];
      }
      assert d == digits;
    }
  }
}
