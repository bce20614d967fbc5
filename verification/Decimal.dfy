/** Decimal text: what std::to_string prints, and what the parser reads back. */
module Decimal {
  import opened Base

  const ZERO: byte := '0' as byte
  const NINE: byte := '9' as byte
  const MINUS: byte := '-' as byte

  predicate IsDigit(c: byte) {
    ZERO <= c <= NINE
  }

  predicate AllDigits(s: Bytes) {
    forall i :: 0 <= i < |s| ==> IsDigit(s[i])
  }

  function DigitValue(c: byte): nat
    requires IsDigit(c)
  {
    (c - ZERO) as nat
  }

  function DigitText(d: nat): byte
    requires d < 10
  {
    ZERO + d as byte
  }

  /** std::to_string of a non-negative number. */
  function NatText(n: nat): Bytes {
    if n < 10 then [DigitText(n)] else NatText(n / 10) + [DigitText(n % 10)]
  }

  /** std::to_string of a signed number. */
  function IntText(n: int): Bytes {
    if n < 0 then [MINUS] + NatText(-n) else NatText(n)
  }

  function NatValue(s: Bytes): nat
    requires AllDigits(s)
  {
    if s == [] then 0 else NatValue(s[..|s| - 1]) * 10 + DigitValue(s[|s| - 1])
  }

  /** The number std::stoll reads from an optional minus sign and digits. */
  function IntValue(s: Bytes): int
    requires IsIntText(s)
  {
    if s[0] == MINUS then -(NatValue(s[1..]) as int) else NatValue(s)
  }

  /** Digits without a superfluous leading zero. */
  predicate IsNatText(s: Bytes) {
    |s| > 0 && AllDigits(s) && (s[0] == ZERO ==> |s| == 1)
  }

  predicate IsIntText(s: Bytes) {
    if s != [] && s[0] == MINUS then IsNatText(s[1..]) && s[1] != ZERO else IsNatText(s)
  }

  lemma {:induction false} NatTextRoundTrip(n: nat)
    ensures IsNatText(NatText(n)) && NatValue(NatText(n)) == n
    ensures n > 0 ==> NatText(n)[0] != ZERO
  {
    if n >= 10 {
      NatTextRoundTrip(n / 10);
      assert NatText(n)[..|NatText(n)| - 1] == NatText(n / 10);
    } else {
      assert NatText(n)[..0] == [];
    }
  }

  lemma {:induction false} NatTextOfValue(s: Bytes)
    requires IsNatText(s)
    ensures NatText(NatValue(s)) == s
    ensures s[0] != ZERO ==> NatValue(s) > 0
  {
    var init, last := s[..|s| - 1], s[|s| - 1];
    if |s| == 1 {
      assert init == [];
    } else {
      NatTextOfValue(init);
      assert NatValue(s) / 10 == NatValue(init) && NatValue(s) % 10 == DigitValue(last);
      assert s == init + [last];
    }
  }

  lemma IntTextRoundTrip(n: int)
    ensures IsIntText(IntText(n)) && IntValue(IntText(n)) == n
  {
    NatTextRoundTrip(if n < 0 then -n else n);
    if n < 0 {
      assert IntText(n)[1..] == NatText(-n);
    }
  }

  lemma IntTextOfValue(s: Bytes)
    requires IsIntText(s)
    ensures IntText(IntValue(s)) == s
  {
    if s[0] == MINUS {
      NatTextOfValue(s[1..]);
      assert s == [MINUS] + s[1..];
    } else {
      NatTextOfValue(s);
    }
  }

  /** The shape predicate and the printer describe the same strings. */
  lemma IntTextIffPrinted(s: Bytes)
    ensures IsIntText(s) <==> exists n: int :: s == IntText(n)
  {
    if IsIntText(s) {
      IntTextOfValue(s);
    }
    forall n: int | s == IntText(n)
      ensures IsIntText(s)
    {
      IntTextRoundTrip(n);
    }
  }

  /** The digits at the front of s: the part of a length field std::stoul converts. */
  function DigitRun(s: Bytes): (d: Bytes)
    ensures AllDigits(d) && |d| <= |s| && d == s[..|d|]
    ensures |d| < |s| ==> !IsDigit(s[|d|])
  {
    if s != [] && IsDigit(s[0]) then [s[0]] + DigitRun(s[1..]) else []
  }

  lemma {:induction false} DigitRunOfDigits(s: Bytes)
    requires AllDigits(s)
    ensures DigitRun(s) == s
  {
    if s != [] {
      DigitRunOfDigits(s[1..]);
    }
  }

  /** _isValidBencodeInt: accepts exactly the printed form of some integer. */
  method IsValidBencodeInt(s: Bytes) returns (valid: bool)
    ensures valid <==> exists n: int :: s == IntText(n)
    ensures valid <==> IsIntText(s)
  {
    IntTextIffPrinted(s);
    if |s| == 0 {
      return false;
    }
    var i := 0;
    if s[0] == MINUS {
      if |s| == 1 {
        return false;
      }
      if s[1] == ZERO {
        return false;
      }
      i := 1;
    }
    if s[i] == ZERO && |s| > i + 1 {
      return false;
    }
    ghost var first := i;
    while i < |s|
      invariant first <= i <= |s|
      invariant forall j :: first <= j < i ==> IsDigit(s[j])
    {
      if !IsDigit(s[i]) {
        return false;
      }
      i := i + 1;
    }
    return true;
  }
}
