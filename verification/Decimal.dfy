/** Decimal numbers as std::to_string prints them and as the lenient parser reads them. */
module Decimal {
  import opened Wrappers

  const UINT32_MAX: nat := 0xFFFF_FFFF
  const UINT64_MAX: nat := 0xFFFF_FFFF_FFFF_FFFF

  predicate IsDigit(c: char) { '0' <= c <= '9' }

  function DigitOf(d: nat): (c: char)
    requires d < 10
    ensures IsDigit(c) && ValueOf(c) == d
  {
    ('0' as int + d) as char
  }

  function ValueOf(c: char): (d: nat)
    requires IsDigit(c)
    ensures d < 10 && (d == 0 <==> c == '0')
  {
    c as int - '0' as int
  }

  lemma DigitBack(c: char)
    requires IsDigit(c)
    ensures DigitOf(ValueOf(c)) == c
  {
  }

  /** std::to_string */
  function Print(n: nat): (s: string) {
    if n < 10 then [DigitOf(n)] else Print(n / 10) + [DigitOf(n % 10)]
  }

  predicate AllDigits(s: string) {
    forall i :: 0 <= i < |s| ==> IsDigit(s[i])
  }

  function Number(s: string): nat
    requires AllDigits(s)
    decreases |s|
  {
    if s == "" then 0 else 10 * Number(s[..|s| - 1]) + ValueOf(s[|s| - 1])
  }

  predicate NoLeadingZero(s: string) {
    s != "" && (s[0] != '0' || |s| == 1)
  }

  lemma {:induction false} PrintReads(n: nat)
    ensures AllDigits(Print(n)) && Number(Print(n)) == n && NoLeadingZero(Print(n))
    ensures n > 0 ==> Print(n)[0] != '0'
    decreases n
  {
    if n < 10 {
      assert [DigitOf(n)][..0] == "";
      assert Number("") == 0;
    } else {
      PrintReads(n / 10);
      var s, d := Print(n / 10), DigitOf(n % 10);
      assert (s + [d])[..|s|] == s;
    }
  }

  lemma {:induction false} Positive(s: string)
    requires AllDigits(s) && s != "" && s[0] != '0'
    ensures Number(s) > 0
    decreases |s|
  {
    var t := s[..|s| - 1];
    if t == "" {
      assert Number(t) == 0;
    } else {
      Positive(t);
    }
  }

  /** Printing what was read gives the text back exactly when it has no leading zero. */
  lemma {:induction false} ReadPrints(s: string)
    requires AllDigits(s) && s != ""
    ensures Print(Number(s)) == s <==> NoLeadingZero(s)
    decreases |s|
  {
    PrintReads(Number(s));
    if NoLeadingZero(s) {
      var t, c := s[..|s| - 1], s[|s| - 1];
      assert s == t + [c];
      DigitBack(c);
      if t == "" {
        assert Number(t) == 0;
      } else {
        Positive(t);
        ReadPrints(t);
        assert (10 * Number(t) + ValueOf(c)) / 10 == Number(t);
      }
    }
  }

  function Parse(s: string): Option<nat> {
    if s == "" || !AllDigits(s) || Number(s) > UINT32_MAX then None else Some(Number(s))
  }

  lemma {:induction false} Prefix(s: string, i: nat)
    requires AllDigits(s) && i < |s|
    ensures AllDigits(s[..i]) && AllDigits(s[..i + 1])
    ensures Number(s[..i + 1]) == 10 * Number(s[..i]) + ValueOf(s[i])
  {
    assert s[..i + 1][..i] == s[..i];
  }

  lemma {:induction false} PrefixBelow(s: string, i: nat)
    requires AllDigits(s) && i <= |s|
    ensures AllDigits(s[..i]) && Number(s[..i]) <= Number(s)
    decreases |s| - i
  {
    if i == |s| {
      assert s[..i] == s;
    } else {
      PrefixBelow(s, i + 1);
      Prefix(s, i);
    }
  }

  /** std::stoull on digits; it throws when the value does not fit into 64 bits. */
  method Stoull(s: string) returns (v: Option<nat>)
    requires AllDigits(s)
    ensures v == if Number(s) <= UINT64_MAX then Some(Number(s)) else None
  {
    var n := 0;
    assert s[..0] == "";
    for i := 0 to |s|
      invariant n == Number(s[..i]) <= UINT64_MAX
    {
      Prefix(s, i);
      PrefixBelow(s, i + 1);
      n := 10 * n + ValueOf(s[i]);
      if n > UINT64_MAX { return None; }
    }
    assert s[..|s|] == s;
    return Some(n);
  }

  /** parseU32Decimal */
  method ParseU32(s: string) returns (r: Option<nat>)
    ensures r == Parse(s)
  {
    if s == "" { return None; }
    for i := 0 to |s|
      invariant forall k :: 0 <= k < i ==> IsDigit(s[k])
    {
      if !IsDigit(s[i]) { return None; }
    }
    var v := Stoull(s);
    if v.None? || v.value > UINT32_MAX { return None; }
    return v;
  }
}
