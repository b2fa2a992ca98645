/** What the check character of an account number is for: one wrong symbol, or two swapped
    ones, and the text is rejected. */
module TypoDetection {
  import opened Wrappers
  import opened Decimal
  import opened Luhn
  import opened AccountNumber

  // ---- a text without its dashes ---------------------------------------------------------------

  function Strip(s: string): string {
    if s == "" then "" else if s[0] == '-' then Strip(s[1..]) else [s[0]] + Strip(s[1..])
  }

  lemma {:induction false} StripConcat(s: string, t: string)
    ensures Strip(s + t) == Strip(s) + Strip(t)
    decreases |s|
  {
    if s == "" {
      assert s + t == t;
    } else {
      assert (s + t)[1..] == s[1..] + t;
      StripConcat(s[1..], t);
    }
  }

  lemma {:induction false} StripDashless(s: string)
    requires Dashless(s)
    ensures Strip(s) == s
    decreases |s|
  {
    if s == "" {
    } else {
      StripDashless(s[1..]);
    }
  }

  lemma {:induction false} StripOne(c: char)
    ensures Strip([c]) == if c == '-' then "" else [c]
  {
    assert [c][1..] == "";
  }

  /** Where character k of s is in Strip(s). */
  function Place(s: string, k: nat): nat
    requires k <= |s|
  {
    |Strip(s[..k])|
  }

  lemma {:induction false} StripAt(s: string, k: nat)
    requires k < |s| && s[k] != '-'
    ensures Strip(s) == Strip(s[..k]) + [s[k]] + Strip(s[k + 1..])
  {
    hide Strip;
    assert s == s[..k] + [s[k]] + s[k + 1..];
    StripConcat(s[..k] + [s[k]], s[k + 1..]);
    StripConcat(s[..k], [s[k]]);
    StripOne(s[k]);
  }

  lemma {:induction false} StripSet(s: string, k: nat, x: char)
    requires k < |s| && s[k] != '-' && x != '-'
    ensures Place(s, k) < |Strip(s)| && Strip(s)[Place(s, k)] == s[k]
    ensures Strip(s[k := x]) == Strip(s)[Place(s, k) := x]
  {
    hide Strip;
    var t := s[k := x];
    StripAt(s, k);
    StripAt(t, k);
    assert t[..k] == s[..k] && t[k + 1..] == s[k + 1..];
  }

  // ---- its fields --------------------------------------------------------------------------------

  function Concat(f: seq<string>): string {
    if f == [] then "" else f[0] + Concat(f[1..])
  }

  lemma {:induction false} StripFields(s: string)
    ensures Strip(s) == Concat(Fields(s))
    decreases |s|
  {
    hide Fields, FirstDash, Strip;
    FieldsUnfold(s);
    var k := FirstDash(s);
    FirstIs(s);
    StripDashless(s[..k]);
    if k == |s| {
      assert s[..k] == s;
      assert [s][1..] == [];
    } else {
      var rest := s[k + 1..];
      StripFields(rest);
      assert s == s[..k] + [s[k]] + rest;
      StripConcat(s[..k] + [s[k]], rest);
      StripConcat(s[..k], [s[k]]);
      StripOne(s[k]);
      assert Fields(s)[1..] == Fields(rest);
    }
  }

  lemma {:induction false} FirstIs(s: string)
    ensures FirstDash(s) <= |s| && Dashless(s[..FirstDash(s)])
    ensures FirstDash(s) < |s| ==> s[FirstDash(s)] == '-'
  {
  }

  /** Dashes in the same places. */
  ghost predicate SameShape(s: string, t: string) {
    |s| == |t| && forall i :: 0 <= i < |s| ==> (s[i] == '-' <==> t[i] == '-')
  }

  lemma {:induction false} ShapeFields(s: string, t: string)
    requires SameShape(s, t)
    ensures |Fields(s)| == |Fields(t)| && forall i :: 0 <= i < |Fields(s)| ==> |Fields(s)[i]| == |Fields(t)[i]|
    decreases |s|
  {
    hide Fields, FirstDash;
    FieldsUnfold(s);
    FieldsUnfold(t);
    FirstSame(s, t);
    var k := FirstDash(s);
    if k < |s| {
      ShapeFields(s[k + 1..], t[k + 1..]);
    }
  }

  lemma {:induction false} FirstSame(s: string, t: string)
    requires SameShape(s, t)
    ensures FirstDash(s) == FirstDash(t) <= |s|
  {
  }

  function Dashes(s: string): nat {
    if s == "" then 0 else (if s[0] == '-' then 1 else 0) + Dashes(s[1..])
  }

  lemma {:induction false} DashesConcat(s: string, t: string)
    ensures Dashes(s + t) == Dashes(s) + Dashes(t)
    decreases |s|
  {
    if s == "" {
      assert s + t == t;
    } else {
      assert (s + t)[1..] == s[1..] + t;
      DashesConcat(s[1..], t);
    }
  }

  lemma {:induction false} DashesNone(s: string)
    requires Dashless(s)
    ensures Dashes(s) == 0
    decreases |s|
  {
    if s == "" {
    } else {
      DashesNone(s[1..]);
    }
  }

  lemma {:induction false} DashesOne(c: char)
    ensures Dashes([c]) == if c == '-' then 1 else 0
  {
    assert [c][1..] == "";
  }

  lemma {:induction false} FieldCount(s: string)
    ensures |Fields(s)| == Dashes(s) + 1
    decreases |s|
  {
    hide Fields, FirstDash, Dashes;
    FieldsUnfold(s);
    var k := FirstDash(s);
    FirstIs(s);
    DashesNone(s[..k]);
    if k == |s| {
      assert s[..k] == s;
    } else {
      var rest := s[k + 1..];
      FieldCount(rest);
      assert s == s[..k] + [s[k]] + rest;
      DashesConcat(s[..k] + [s[k]], rest);
      DashesConcat(s[..k], [s[k]]);
      DashesOne(s[k]);
    }
  }

  lemma {:induction false} DashesSet(s: string, k: nat, x: char)
    requires k < |s|
    ensures Dashes(s[k := x]) + (if s[k] == '-' then 1 else 0) == Dashes(s) + if x == '-' then 1 else 0
  {
    hide Dashes;
    var t := s[k := x];
    assert s == s[..k] + [s[k]] + s[k + 1..] && t == s[..k] + [x] + s[k + 1..];
    DashesConcat(s[..k] + [s[k]], s[k + 1..]);
    DashesConcat(s[..k], [s[k]]);
    DashesConcat(s[..k] + [x], s[k + 1..]);
    DashesConcat(s[..k], [x]);
    DashesOne(s[k]);
    DashesOne(x);
  }

  // ---- what is accepted --------------------------------------------------------------------------

  /** The last symbol is the check character of the others. */
  ghost predicate Completed(b: string) {
    b != "" && AllSymbols(b) && CheckValue(Values(b[..|b| - 1])) == SymbolValue(b[|b| - 1])
  }

  /** Exactly which parts are accepted: numbers, four symbols, and a check character over all
      symbols. */
  lemma {:induction false} AcceptedParts(h: string, i: string, a: string, t: string, c: string, deposit: bool)
    ensures Checked(h, i, a, t, c, deposit).Some? <==>
            && |c| == 1 && Parse(h).Some? && Parse(i).Some? && (deposit ==> Parse(t).Some?) && |a| == 4 && AllSymbols(a)
            && Completed(h + i + a + (if deposit then t else "") + c)
  {
    hide Symbol, SymbolValue, CheckValue, Number;
    if |c| == 1 && Parse(h).Some? && Parse(i).Some? && (deposit ==> Parse(t).Some?) && |a| == 4 && AllSymbols(a) {
      var t' := if deposit then t else "";
      var e := Encode(Decode(a).value);
      EncodeDecoded(a);
      DigitsAreSymbols(h);
      DigitsAreSymbols(i);
      DigitsAreSymbols(t');
      var p, q, b := h + i + e + t', h + i + a + t', h + i + a + t' + c;
      assert b[..|b| - 1] == q && b[|b| - 1] == c[0];
      SameValues(h + i, e, a, t');
      CanonicalCheck(q, c[0]);
      assert AllSymbols(b) <==> SymbolValue(c[0]) >= 0 by { LastSymbol(q, c[0]); assert b == q + [c[0]]; }
    }
  }

  lemma {:induction false} LastSymbol(q: string, c: char)
    requires AllSymbols(q)
    ensures AllSymbols(q + [c]) <==> SymbolValue(c) >= 0
  {
    hide SymbolValue;
    assert (q + [c])[|q|] == c;
  }

  /** Canonical symbols have the values of those they stand for. */
  lemma {:induction false} SameValues(p: string, e: string, a: string, q: string)
    requires AllSymbols(p) && AllSymbols(a) && AllSymbols(q) && |e| == |a|
    requires forall i :: 0 <= i < |a| ==> e[i] == Symbol(SymbolValue(a[i]))
    ensures AllSymbols(p + e + q) && AllSymbols(p + a + q) && Values(p + e + q) == Values(p + a + q)
  {
    hide Symbol, SymbolValue;
    forall i | 0 <= i < |a| ensures SymbolValue(e[i]) == SymbolValue(a[i]) {
      SymbolsCanonical(SymbolValue(a[i]));
    }
    var x, y := p + e + q, p + a + q;
    forall i | 0 <= i < |x| ensures SymbolValue(x[i]) == SymbolValue(y[i]) >= 0 {
    }
  }

  lemma {:induction false} CanonicalCheck(q: string, c: char)
    requires AllSymbols(q)
    ensures SymbolValue(c) >= 0 ==>
              (Symbol(SymbolValue(c)) == Symbol(CheckValue(Values(q))) <==> SymbolValue(c) == CheckValue(Values(q)))
  {
    hide Symbol, SymbolValue, CheckValue;
    if SymbolValue(c) >= 0 && Symbol(SymbolValue(c)) == Symbol(CheckValue(Values(q))) {
      SymbolInjective(SymbolValue(c), CheckValue(Values(q)));
    }
  }

  lemma {:induction false} ConcatIs(f: seq<string>)
    ensures |f| == 4 ==> Concat(f) == f[0] + f[1] + f[2] + f[3]
    ensures |f| == 5 ==> Concat(f) == f[0] + f[1] + f[2] + f[3] + f[4]
  {
    if |f| == 4 || |f| == 5 {
      ConcatNext(f);
      ConcatNext(f[1..]);
      ConcatNext(f[2..]);
      ConcatNext(f[3..]);
      assert f[1..][1..] == f[2..] && f[2..][1..] == f[3..] && f[3..][1..] == f[4..];
      if |f| == 5 {
        ConcatNext(f[4..]);
        assert f[4..][1..] == [];
      }
    }
  }

  lemma {:induction false} ConcatNext(f: seq<string>)
    requires f != []
    ensures Concat(f) == f[0] + Concat(f[1..]) && Concat([]) == ""
  {
  }

  /** Which fields are accepted. */
  ghost predicate Accepted(f: seq<string>, deposit: bool) {
    && |f| == (if deposit then 5 else 4)
    && |f[|f| - 1]| == 1 && Parse(f[0]).Some? && Parse(f[1]).Some? && (deposit ==> Parse(f[3]).Some?)
    && |f[2]| == 4 && AllSymbols(f[2])
    && Completed(Concat(f))
  }

  /** Exactly which texts are accepted. */
  lemma {:induction false} AcceptedText(s: string, deposit: bool)
    ensures FromText(s, deposit).Some? <==> Accepted(Fields(s), deposit)
  {
    hide Fields, Checked, Parse, Completed, Concat;
    var f := Fields(s);
    ConcatIs(f);
    if deposit && |f| == 5 {
      AcceptedParts(f[0], f[1], f[2], f[3], f[4], true);
    } else if !deposit && |f| == 4 {
      AcceptedParts(f[0], f[1], f[2], "", f[3], false);
      assert f[0] + f[1] + f[2] + "" == f[0] + f[1] + f[2];
    }
  }

  lemma {:induction false} AcceptedStrip(s: string, deposit: bool)
    requires FromText(s, deposit).Some?
    ensures Completed(Strip(s)) && Dashes(s) == if deposit then 4 else 3
  {
    hide Fields, FromText, Completed, Concat, Strip, Dashes;
    AcceptedText(s, deposit);
    StripFields(s);
    FieldCount(s);
  }

  // ---- one symbol replaced -----------------------------------------------------------------------

  lemma {:induction false} ValuesSet(b: string, k: nat, x: char)
    requires k < |b| && AllSymbols(b) && AllSymbols(b[k := x])
    ensures Values(b) == Values(b[..k]) + [SymbolValue(b[k])] + Values(b[k + 1..])
    ensures Values(b[k := x]) == Values(b[..k]) + [SymbolValue(x)] + Values(b[k + 1..])
  {
    hide SymbolValue;
    assert b == b[..k] + [b[k]] + b[k + 1..] && b[k := x] == b[..k] + [x] + b[k + 1..];
    Luhn.Apart(b[..k], b[k], b[k + 1..]);
    Luhn.Apart(b[..k], x, b[k + 1..]);
  }

  lemma {:induction false} CompletedSet(b: string, k: nat, x: char)
    requires Completed(b) && k < |b| && SymbolValue(x) != SymbolValue(b[k])
    ensures !Completed(b[k := x])
  {
    hide SymbolValue, CheckValue;
    var t, n := b[k := x], |b| - 1;
    if AllSymbols(t) {
      if k == n {
        assert t[..n] == b[..n];
      } else {
        var p := b[..n];
        assert t[..n] == p[k := x] && t[k] == x;
        ValuesSet(p, k, x);
        DetectsSubstitution(Values(p[..k]), SymbolValue(p[k]), SymbolValue(x), Values(p[k + 1..]));
      }
    }
  }

  lemma DashValue()
    ensures SymbolValue('-') == -1
  {
    if SymbolValue('-') >= 0 {
      NoDash('-');
    }
  }

  /** Any one character of an accepted text, in any field, replaced by one of a different
      value: the text is rejected. */
  lemma {:induction false} RejectsSubstitution(s: string, deposit: bool, k: nat, x: char)
    requires FromText(s, deposit).Some? && k < |s| && SymbolValue(x) != SymbolValue(s[k])
    ensures FromText(s[k := x], deposit).None?
  {
    hide FromText, SymbolValue, Completed, Strip, Dashes;
    DashValue();
    var t := s[k := x];
    AcceptedStrip(s, deposit);
    DashesSet(s, k, x);
    if FromText(t, deposit).Some? {
      AcceptedStrip(t, deposit);
      assert s[k] != '-' && x != '-';
      StripSet(s, k, x);
      CompletedSet(Strip(s), Place(s, k), x);
    }
  }

  // ---- two symbols swapped -----------------------------------------------------------------------

  function Swapped(s: string, j: nat, k: nat): string
    requires j < |s| && k < |s|
  {
    s[j := s[k]][k := s[j]]
  }

  lemma {:induction false} SwappedParts(b: string, j: nat)
    requires j + 1 < |b|
    ensures b == b[..j] + [b[j]] + [b[j + 1]] + b[j + 2..]
    ensures Swapped(b, j, j + 1) == b[..j] + [b[j + 1]] + [b[j]] + b[j + 2..]
  {
  }

  lemma {:induction false} CompletedSwap(b: string, j: nat)
    requires Completed(b) && j + 2 < |b| && SymbolValue(b[j]) != SymbolValue(b[j + 1])
    ensures Completed(Swapped(b, j, j + 1)) <==> {SymbolValue(b[j]), SymbolValue(b[j + 1])} == {0, 31}
  {
    hide SymbolValue, CheckValue;
    var n := |b| - 1;
    var t, p := Swapped(b, j, j + 1), b[..n];
    var q := Swapped(p, j, j + 1);
    assert t[..n] == q && t[n] == b[n];
    SwappedParts(p, j);
    var x, y := p[j], p[j + 1];
    Luhn.Apart2(p[..j], x, y, p[j + 2..]);
    assert AllSymbols(q) by { SwapSymbols(p, j); }
    Luhn.Apart2(p[..j], y, x, p[j + 2..]);
    SwapSymbols(b, j);
    DetectsSwap(Values(p[..j]), SymbolValue(x), SymbolValue(y), Values(p[j + 2..]));
    Pair(SymbolValue(x), SymbolValue(y));
  }

  lemma {:induction false} SwapSymbols(b: string, j: nat)
    requires AllSymbols(b) && j + 1 < |b|
    ensures AllSymbols(Swapped(b, j, j + 1))
  {
    hide SymbolValue;
  }

  /** Nothing between two characters but perhaps a dash. */
  predicate Neighbours(s: string, j: nat, k: nat) {
    k < |s| && (k == j + 1 || (k == j + 2 && s[j + 1] == '-')) && s[j] != '-' && s[k] != '-'
  }

  lemma {:induction false} PlaceNext(s: string, j: nat, k: nat)
    requires Neighbours(s, j, k)
    ensures Place(s, k) == Place(s, j) + 1
  {
    hide Strip;
    var p := s[..k];
    StripAt(p, j);
    assert p[..j] == s[..j];
    if k == j + 1 {
      assert p[j + 1..] == "";
      StripDashless("");
    } else {
      assert p[j + 1..] == [s[j + 1]];
      StripOne(s[j + 1]);
    }
  }

  lemma {:induction false} StripSwap(s: string, j: nat, k: nat)
    requires Neighbours(s, j, k)
    ensures var m := Place(s, j);
            m + 1 < |Strip(s)| && Strip(s)[m] == s[j] && Strip(s)[m + 1] == s[k] && Strip(Swapped(s, j,
                   k)) == Swapped(Strip(s), m, m + 1)
  {
    hide Strip;
    var t := s[j := s[k]];
    StripSet(s, j, s[k]);
    StripSet(s, k, s[k]);
    StripSet(t, k, s[j]);
    PlaceNext(s, j, k);
    PlaceNext(t, j, k);
    assert t[..j] == s[..j];
  }

  lemma {:induction false} JoinEnds(f: seq<string>)
    requires f != []
    ensures var last := f[|f| - 1]; |last| <= |Join(f)| && Join(f)[|Join(f)| - |last|..] == last
    decreases |f|
  {
    if |f| == 1 {
    } else {
      JoinEnds(f[1..]);
      var r := Join(f[1..]);
      assert Join(f) == (f[0] + "-") + r;
    }
  }

  /** Behind a symbol of the payload there is at least the check character. */
  lemma {:induction false} MoreBehind(s: string, deposit: bool, k: nat)
    requires FromText(s, deposit).Some? && k < |s| && Dashes(s[k + 1..]) > 0
    ensures Strip(s[k + 1..]) != ""
  {
    hide FromText, Fields, Join, Strip, Dashes, Parse, Completed;
    var f := Fields(s);
    AcceptedText(s, deposit);
    JoinFields(s);
    JoinEnds(f);
    var r := s[k + 1..];
    var c := f[|f| - 1];
    assert s[|s| - 1] == c[0];
    if r == "" {
      DashesNone(r);
    } else {
      assert r == r[..|r| - 1] + [c[0]];
      StripConcat(r[..|r| - 1], [c[0]]);
      StripOne(c[0]);
    }
  }

  lemma {:induction false} PayloadPlace(s: string, deposit: bool, j: nat, k: nat)
    requires FromText(s, deposit).Some? && Neighbours(s, j, k) && Dashes(s[k + 1..]) > 0
    ensures Place(s, j) + 2 < |Strip(s)|
  {
    hide FromText, Strip, Dashes;
    MoreBehind(s, deposit, k);
    PlaceNext(s, j, k);
    StripAt(s, k);
  }

  /** The symbols of A, by their place among all symbols. */
  ghost predicate InA(f: seq<string>, m: nat) {
    |f| >= 2 && |f[0]| + |f[1]| <= m < |f[0]| + |f[1]| + 4
  }

  lemma {:induction false} Slices(f: seq<string>)
    requires |f| == 4 || |f| == 5
    ensures var b, x := Concat(f), |f[0]| + |f[1]|;
            && x + |f[2]| + |f[3]| + (if |f| == 5 then |f[4]| else 0) == |b|
            && b[..|f[0]|] == f[0] && b[|f[0]|..x] == f[1] && b[x..x + |f[2]|] == f[2]
            && b[x + |f[2]|..x + |f[2]| + |f[3]|] == f[3] && (|f| == 5 ==> b[x + |f[2]| + |f[3]|..] == f[4])
  {
    ConcatIs(f);
  }

  lemma DigitValue(c: char)
    requires IsDigit(c)
    ensures 0 <= SymbolValue(c) <= 9
  {
  }

  /** Outside A, accepted texts have only digits. */
  lemma {:induction false} LargeInA(f: seq<string>, deposit: bool, m: nat)
    requires Accepted(f, deposit) && m < |Concat(f)| - 1 && SymbolValue(Concat(f)[m]) == 31
    ensures InA(f, m)
  {
    hide SymbolValue, Concat, Completed, Number;
    Slices(f);
    var b, x := Concat(f), |f[0]| + |f[1]|;
    if m < |f[0]| {
      assert b[m] == f[0][m];
      DigitValue(b[m]);
    } else if m < x {
      assert b[m] == f[1][m - |f[0]|];
      DigitValue(b[m]);
    } else if m >= x + 4 {
      assert b[m] == f[3][m - x - 4];
      DigitValue(b[m]);
    }
  }

  lemma {:induction false} SwapShape(s: string, j: nat, k: nat)
    requires Neighbours(s, j, k)
    ensures SameShape(s, Swapped(s, j, k))
  {
  }

  /** Two neighbouring symbols of different value swapped: the text is rejected, unless they
      have the values 0 and 31 and are both in A; then it is accepted. */
  lemma {:induction false} SwapExactly(s: string, deposit: bool, j: nat, k: nat)
    requires FromText(s, deposit).Some? && Neighbours(s, j, k) && Dashes(s[k + 1..]) > 0
    requires SymbolValue(s[j]) != SymbolValue(s[k])
    ensures FromText(Swapped(s, j, k), deposit).Some? <==>
            && {SymbolValue(s[j]), SymbolValue(s[k])} == {0, 31}
            && InA(Fields(s), Place(s, j)) && InA(Fields(s), Place(s, j) + 1)
  {
    hide FromText, Fields, SymbolValue, Completed, Strip, Dashes, Parse, Concat;
    var t, m := Swapped(s, j, k), Place(s, j);
    var f, g := Fields(s), Fields(t);
    AcceptedText(s, deposit);
    AcceptedText(t, deposit);
    StripFields(s);
    StripFields(t);
    StripSwap(s, j, k);
    PayloadPlace(s, deposit, j, k);
    CompletedSwap(Strip(s), m);
    SwapShape(s, j, k);
    ShapeFields(s, t);
    Pair(SymbolValue(s[j]), SymbolValue(s[k]));
    if Accepted(g, deposit) {
      SwapInA(f, g, deposit, m);
    } else if {SymbolValue(s[j]), SymbolValue(s[k])} == {0, 31} && InA(f, m) && InA(f, m + 1) {
      SwapFields(f, g, deposit, m);
    }
  }

  lemma {:induction false} SwapInA(f: seq<string>, g: seq<string>, deposit: bool, m: nat)
    requires Accepted(f, deposit) && Accepted(g, deposit) && forall i :: 0 <= i < |f| ==> |f[i]| == |g[i]|
    requires m + 2 < |Concat(f)| && Concat(g) == Swapped(Concat(f), m, m + 1)
    requires SymbolValue(Concat(f)[m]) == 31 || SymbolValue(Concat(f)[m + 1]) == 31
    ensures InA(f, m) && InA(f, m + 1)
  {
    hide SymbolValue, Concat, Completed, Parse;
    var b, c := Concat(f), Concat(g);
    assert c[m] == b[m + 1] && c[m + 1] == b[m];
    if SymbolValue(b[m]) == 31 {
      LargeInA(f, deposit, m);
      LargeInA(g, deposit, m + 1);
    } else {
      LargeInA(f, deposit, m + 1);
      LargeInA(g, deposit, m);
    }
  }

  lemma {:induction false} SwapFields(f: seq<string>, g: seq<string>, deposit: bool, m: nat)
    requires Accepted(f, deposit) && |g| == |f| && forall i :: 0 <= i < |f| ==> |f[i]| == |g[i]|
    requires m + 2 < |Concat(f)| && Concat(g) == Swapped(Concat(f), m, m + 1) && Completed(Concat(g))
    requires InA(f, m) && InA(f, m + 1)
    ensures Accepted(g, deposit)
  {
    hide SymbolValue, Concat, Parse;
    var b, c, x := Concat(f), Concat(g), |f[0]| + |f[1]|;
    Slices(f);
    Slices(g);
    assert g[0] == f[0] && g[1] == f[1] && g[3] == f[3];
    forall i | 0 <= i < 4 ensures SymbolValue(g[2][i]) >= 0 {
      assert g[2][i] == c[x + i];
    }
  }

  /** Undetected, such a swap is another account. */
  lemma {:induction false} SwapMeaning(h: string, i: string, a: string, t: string, c: string, deposit: bool, m: nat)
    requires m < 3 && Checked(h, i, a, t, c, deposit).Some? && |a| == 4 && SymbolValue(a[m]) != SymbolValue(a[m + 1])
    requires Checked(h, i, Swapped(a, m, m + 1), t, c, deposit).Some?
    ensures Checked(h, i, Swapped(a, m, m + 1), t, c, deposit).value.fingerprint != Checked(h, i, a, t, c,
           deposit).value.fingerprint
  {
    hide SymbolValue, Symbol, CheckChar, Parse, Encode;
    var b := Swapped(a, m, m + 1);
    Digits32(SymbolValue(a[0]), SymbolValue(a[1]), SymbolValue(a[2]), SymbolValue(a[3]));
    Digits32(SymbolValue(b[0]), SymbolValue(b[1]), SymbolValue(b[2]), SymbolValue(b[3]));
  }

  /** What the fields mean. */
  lemma {:induction false} FieldsMean(s: string, deposit: bool)
    requires FromText(s, deposit).Some?
    ensures var f, n := Fields(s), FromText(s, deposit).value;
            && |f| == (if deposit then 5 else 4)
            && AllDigits(f[0]) && Number(f[0]) == n.height && AllDigits(f[1]) && Number(f[1]) == n.index
            && Decode(f[2]) == Some(n.fingerprint) && (deposit ==> AllDigits(f[3]) && Number(f[3]) == n.sub)
  {
    hide Fields, Symbol, SymbolValue, CheckChar, Encode, Decode;
  }
}
