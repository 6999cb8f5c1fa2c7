/** Decimal numerals as the source prints them, and the reader that proves no two numbers print alike. */
module Decimals {

  function Digit(d: nat): char
    requires d < 10
  {
    '0' + d as char
  }

  predicate IsDigit(c: char) {
    '0' <= c <= '9'
  }

  function Nat(n: nat): (s: string)
    ensures s != [] && forall c <- s :: IsDigit(c)
  {
    if n < 10 then [Digit(n)] else Nat(n / 10) + [Digit(n % 10)]
  }

  function Int(n: int): string {
    if n < 0 then "-" + Nat(-n) else Nat(n)
  }

  function ReadNat(s: string): nat
    requires forall c <- s :: IsDigit(c)
  {
    if s == [] then 0
    else
      var last := s[|s| - 1];
      assert IsDigit(last);
      ReadNat(s[..|s| - 1]) * 10 + (last as int - '0' as int)
  }

  function ReadInt(s: string): int
    requires forall c <- s :: IsDigit(c) || c == '-'
  {
    if s != [] && s[0] == '-' then 0 - Digits(s[1..]) else Digits(s)
  }

  // Reads a numeral and 0 for anything else.
  function Digits(s: string): nat {
    if forall c <- s :: IsDigit(c) then ReadNat(s) else 0
  }

  lemma {:induction false} ReadNatBack(n: nat)
    ensures ReadNat(Nat(n)) == n
  {
    var s := Nat(n);
    if n >= 10 {
      ReadNatBack(n / 10);
      assert s[..|s| - 1] == Nat(n / 10);
    }
  }

  /** Printing an integer and reading it back gives the integer; so different integers print differently. */
  lemma ReadIntBack(n: int)
    ensures forall c <- Int(n) :: IsDigit(c) || c == '-'
    ensures ReadInt(Int(n)) == n
  {
    ReadNatBack(if n < 0 then -n else n);
    if n < 0 {
      assert Int(n)[1..] == Nat(-n);
    } else {
      assert Int(n)[0] in Int(n);
    }
  }

  lemma IntInjective(a: int, b: int)
    requires Int(a) == Int(b)
    ensures a == b
  {
    ReadIntBack(a);
    ReadIntBack(b);
  }
}
