/**
 Numbers as std::to_string prints them and std::stoul reads them.
 */
module Decimal {
  import opened Url

  predicate AllDigits(s: Bytes) {
    forall i :: 0 <= i < |s| ==> IsNum(s[i])
  }

  function Print(n: nat): (s: Bytes)
    ensures s != [] && AllDigits(s)
  {
    if n < 10 then [Digit(n)] else Print(n / 10) + [Digit(n % 10)]
  }

  function PrintInt(n: int): Bytes {
    if n < 0 then "-" + Print(-n) else Print(n)
  }

  function Value(s: Bytes): nat
    requires AllDigits(s)
  {
    if s == [] then 0 else Value(s[..|s| - 1]) * 10 + HexToInt(s[|s| - 1])
  }

  lemma {:induction false} ValuePrint(n: nat)
    ensures Value(Print(n)) == n
  {
    if n < 10 {
      assert Print(n)[..0] == [];
    } else {
      ValuePrint(n / 10);
      assert Print(n)[..|Print(n)| - 1] == Print(n / 10);
    }
  }

  predicate NoLeadingZero(s: Bytes) {
    s != [] && (|s| > 1 ==> s[0] != '0')
  }

  lemma {:induction false} PrintLeads(n: nat)
    ensures NoLeadingZero(Print(n)) && (n > 0 ==> Print(n)[0] != '0')
  {
    if n >= 10 {
      PrintLeads(n / 10);
    }
  }

  lemma {:induction false} PrintValue(s: Bytes)
    requires AllDigits(s) && NoLeadingZero(s)
    ensures Print(Value(s)) == s && (s[0] != '0' ==> Value(s) > 0)
  {
    if |s| == 1 {
      assert s[..0] == [];
      assert Digit(HexToInt(s[0])) == s[0];
    } else {
      var front, last := s[..|s| - 1], s[|s| - 1];
      PrintValue(front);
      assert Value(s) / 10 == Value(front) && Value(s) % 10 == HexToInt(last);
      assert s == front + [last];
    }
  }

  /** Printing what was read gives the same digits exactly when there was no leading zero. */
  lemma PrintValueIff(s: Bytes)
    requires AllDigits(s)
    ensures Print(Value(s)) == s <==> NoLeadingZero(s)
  {
    PrintLeads(Value(s));
    if NoLeadingZero(s) {
      PrintValue(s);
    }
  }
}
