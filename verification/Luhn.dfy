/** Crockford Base32 symbols and the Luhn mod-32 check character. */
module Luhn {

  const N: nat := 32

  /** A symbol's value. */
  type Value = x: int | 0 <= x < 32 witness 0

  /** crockford(): digits, and letters without I, L, O and U. */
  function Alphabet(): (s: string)
    ensures |s| == 32
  {
    Eight(0) + Eight(1) + Eight(2) + Eight(3)
  }

  function Eight(i: nat): (s: string)
    ensures |s| == 8
  {
    if i == 0 then "01234567" else if i == 1 then "89ABCDEF" else if i == 2 then "GHJKMNPQ" else "RSTVWXYZ"
  }

  function Symbol(v: Value): char { Alphabet()[v] }

  function Upper(c: char): char {
    if 'a' <= c <= 'z' then c - 'a' + 'A' else c
  }

  /** Position of c in s, or -1 (strchr). */
  function Find(s: string, c: char): (i: int)
    ensures i == -1 || (0 <= i < |s| && s[i] == c)
    ensures i == -1 ==> c !in s
    ensures forall k :: 0 <= k < i ==> s[k] != c
  {
    if s == "" then -1
    else if s[0] == c then 0
    else var i := Find(s[1..], c); if i == -1 then -1 else i + 1
  }

  /** crockfordVal: lenient, -1 for what is no symbol. */
  function SymbolValue(c: char): (v: int)
    ensures -1 <= v < 32
  {
    if '0' <= c <= '9' then c as int - '0' as int
    else
      var u := Upper(c);
      if u == 'O' then 0
      else if u == 'I' || u == 'L' then 1
      else Find(Alphabet(), u)
  }

  /** The alphabet in ASCII: ten digits, then the letters without I, L, O and U. */
  function Code(v: Value): int {
    if v < 10 then 48 + v else if v < 18 then 55 + v else if v < 20 then 56 + v
    else if v < 22 then 57 + v else if v < 27 then 58 + v else 59 + v
  }

  lemma EightIs(i: nat, k: nat)
    requires i < 4 && k < 8
    ensures Eight(i)[k] as int == Code(8 * i + k)
  {
  }

  lemma AlphabetIs(v: Value)
    ensures Alphabet()[v] as int == Code(v)
  {
    hide Eight, Code;
    EightIs(v / 8, v % 8);
    assert Alphabet()[v] == Eight(v / 8)[v % 8];
  }

  lemma SymbolInjective(v: Value, w: Value)
    requires Symbol(v) == Symbol(w)
    ensures v == w
  {
    hide Alphabet;
    AlphabetIs(v);
    AlphabetIs(w);
  }

  /** The symbols stand for themselves. */
  lemma SymbolsCanonical(v: Value)
    ensures SymbolValue(Symbol(v)) == v
  {
    hide Alphabet, Find;
    AlphabetIs(v);
    var c := Symbol(v);
    if v >= 10 {
      assert c in Alphabet();
      var i := Find(Alphabet(), c);
      AlphabetIs(i);
    }
  }

  /** Exactly the characters with a value: the symbols, letters also in lower case, and the
      look-alikes of 0 and 1. */
  lemma SymbolsExactly(c: char, v: Value)
    ensures SymbolValue(c) == v
       <==> || c as int == Code(v) || (v >= 10 && c as int == Code(v) + 32)
            || (v == 0 && c in {'O', 'o'}) || (v == 1 && c in {'I', 'i', 'L', 'l'})
  {
    hide Alphabet, Find;
    AlphabetIs(v);
    var u := Upper(c);
    var i := Find(Alphabet(), u);
    if i >= 0 {
      AlphabetIs(i);
    }
    if u as int == Code(v) {
      assert Alphabet()[v] == u;
    }
  }

  // ---- the check value ------------------------------------------------------------------------------

  /** A doubled value, with its two base-32 digits added up. */
  function Doubled(x: Value): (d: Value)
    ensures d == if x < 16 then 2 * x else 2 * x - 31
  {
    var y := 2 * x;
    if y >= N then y / N + y % N else y
  }

  /** The weighted sum, from the right; `double` is for the last value. */
  function Weighted(v: seq<Value>, double: bool): (n: nat)
    decreases |v|
  {
    if v == [] then 0
    else
      var x := v[|v| - 1];
      (if double then Doubled(x) else x) + Weighted(v[..|v| - 1], !double)
  }

  function CheckOf(sum: nat): Value {
    (N - sum % N) % N
  }

  function CheckValue(v: seq<Value>): Value {
    CheckOf(Weighted(v, true))
  }

  /** Appending the check value makes the sum a multiple of 32. */
  lemma {:induction false} CheckCompletes(v: seq<Value>)
    ensures Weighted(v + [CheckValue(v)], false) % N == 0
  {
    var c := CheckValue(v);
    assert (v + [c])[..|v|] == v;
  }

  /** The part of the sum that comes from in front of position i, and the rest. */
  lemma {:induction false} WeightedSplit(a: seq<Value>, b: seq<Value>, double: bool)
    ensures Weighted(a + b, double) == Weighted(a, double == (|b| % 2 == 0)) + Weighted(b, double)
    decreases |b|
  {
    if b == [] {
      assert a + b == a;
    } else {
      var b' := b[..|b| - 1];
      assert (a + b)[..|a + b| - 1] == a + b';
      WeightedSplit(a, b', !double);
    }
  }

  lemma {:induction false} WeightedOne(x: Value, double: bool)
    ensures Weighted([x], double) == if double then Doubled(x) else x
  {
    assert [x][..0] == [];
    assert Weighted([], !double) == 0;
  }

  lemma {:induction false} WeightedMiddle(a: seq<Value>, m: seq<Value>, b: seq<Value>, d: bool)
    requires d == (|b| % 2 == 0)
    ensures Weighted(a + m + b, true) == Weighted(a, d == (|m| % 2 == 0)) + Weighted(b, true) + Weighted(m, d)
  {
    hide Weighted;
    WeightedSplit(a + m, b, true);
    WeightedSplit(a, m, d);
  }

  /** Replacing one value always changes the check value. */
  lemma {:induction false} DetectsSubstitution(a: seq<Value>, x: Value, y: Value, b: seq<Value>)
    requires x != y
    ensures CheckValue(a + [x] + b) != CheckValue(a + [y] + b)
  {
    hide Weighted, CheckOf;
    var d := |b| % 2 == 0;
    WeightedMiddle(a, [x], b, d);
    WeightedMiddle(a, [y], b, d);
    WeightedOne(x, d);
    WeightedOne(y, d);
    Differs(Weighted(a, !d) + Weighted(b, true), if d then Doubled(x) else x, if d then Doubled(y) else y);
  }

  /** Sums less than 32 apart give the same check value only if they are the same. */
  lemma Differs(s: nat, p: nat, q: nat)
    requires p < q + 32 && q < p + 32
    ensures CheckOf(s + p) == CheckOf(s + q) <==> p == q
  {
    var a, b := s + p, s + q;
    assert a == N * (a / N) + a % N && b == N * (b / N) + b % N;
    Complement(a % N);
    Complement(b % N);
  }

  lemma Complement(r: nat)
    requires r < 32
    ensures (N - r) % N == if r == 0 then 0 else 32 - r
  {
  }

  lemma {:induction false} WeightedTwo(x: Value, y: Value, double: bool)
    ensures Weighted([x, y], double) == if double then x + Doubled(y) else Doubled(x) + y
  {
    assert [x, y] == [x] + [y];
    WeightedSplit([x], [y], double);
    WeightedOne(x, !double);
    WeightedOne(y, double);
  }

  /** Swapping two neighbours of different value changes the check value, except for the
      values 0 and 31. */
  lemma {:induction false} DetectsSwap(a: seq<Value>, x: Value, y: Value, b: seq<Value>)
    requires x != y
    ensures CheckValue(a + [x, y] + b) == CheckValue(a + [y, x] + b) <==> (x == 0 && y == 31) || (x == 31 && y == 0)
  {
    hide Weighted, CheckOf, Doubled;
    var d := |b| % 2 == 0;
    WeightedMiddle(a, [x, y], b, d);
    WeightedMiddle(a, [y, x], b, d);
    WeightedTwo(x, y, d);
    WeightedTwo(y, x, d);
    SwapDiffers(Weighted(a, d) + Weighted(b, true), x, y);
    SwapDiffers(Weighted(a, d) + Weighted(b, true), y, x);
  }

  lemma SwapDiffers(s: nat, x: Value, y: Value)
    requires x != y
    ensures CheckOf(s + (x + Doubled(y))) == CheckOf(s + (y + Doubled(x))) <==> (x == 0 && y == 31) || (x == 31 && y == 0)
    ensures CheckOf(s + (Doubled(x) + y)) == CheckOf(s + (Doubled(y) + x)) <==> (x == 0 && y == 31) || (x == 31 && y == 0)
  {
    hide CheckOf;
    Differs(s, x + Doubled(y), y + Doubled(x));
  }

  // ---- luhn32Generate ---------------------------------------------------------------------------------

  predicate AllSymbols(s: string) {
    forall i :: 0 <= i < |s| ==> SymbolValue(s[i]) >= 0
  }

  function Values(s: string): (v: seq<Value>)
    requires AllSymbols(s)
    ensures |v| == |s|
  {
    seq(|s|, i requires 0 <= i < |s| => SymbolValue(s[i]))
  }

  /** The check character of a run of symbols. */
  function CheckChar(s: string): char {
    if AllSymbols(s) then Symbol(CheckValue(Values(s))) else '?'
  }

  /** One symbol replaced by one of a different value: the check character changes. */
  lemma {:induction false} CharDetectsSubstitution(a: string, x: char, y: char, b: string)
    requires AllSymbols(a + [x] + b) && AllSymbols(a + [y] + b) && SymbolValue(x) != SymbolValue(y)
    ensures CheckChar(a + [x] + b) != CheckChar(a + [y] + b)
  {
    hide SymbolValue, Symbol, CheckValue;
    var s, t := a + [x] + b, a + [y] + b;
    Apart(a, x, b);
    Apart(a, y, b);
    DetectsSubstitution(Values(a), SymbolValue(x), SymbolValue(y), Values(b));
    if Symbol(CheckValue(Values(s))) == Symbol(CheckValue(Values(t))) {
      SymbolInjective(CheckValue(Values(s)), CheckValue(Values(t)));
    }
  }

  lemma {:induction false} Apart(a: string, x: char, b: string)
    requires AllSymbols(a + [x] + b)
    ensures AllSymbols(a) && AllSymbols(b) && SymbolValue(x) >= 0
    ensures Values(a + [x] + b) == Values(a) + [SymbolValue(x)] + Values(b)
  {
    hide SymbolValue;
    var s := a + [x] + b;
    assert forall i :: 0 <= i < |a| ==> s[i] == a[i];
    assert forall i :: 0 <= i < |b| ==> s[|a| + 1 + i] == b[i];
    assert s[|a|] == x;
  }

  /** Two neighbours of different value swapped: the check character changes, except for
      symbols of the values 0 and 31. */
  lemma {:induction false} CharDetectsSwap(a: string, x: char, y: char, b: string)
    requires AllSymbols(a + [x] + [y] + b) && SymbolValue(x) != SymbolValue(y)
    ensures AllSymbols(a + [y] + [x] + b)
    ensures CheckChar(a + [x] + [y] + b) == CheckChar(a + [y] + [x] + b)
       <==> {SymbolValue(x), SymbolValue(y)} == {0, 31}
  {
    hide SymbolValue, Symbol, CheckValue;
    var s, t := a + [x] + [y] + b, a + [y] + [x] + b;
    Apart2(a, x, y, b);
    assert AllSymbols(t);
    Apart2(a, y, x, b);
    DetectsSwap(Values(a), SymbolValue(x), SymbolValue(y), Values(b));
    if Symbol(CheckValue(Values(s))) == Symbol(CheckValue(Values(t))) {
      SymbolInjective(CheckValue(Values(s)), CheckValue(Values(t)));
    }
    Pair(SymbolValue(x), SymbolValue(y));
  }

  lemma Pair(x: int, y: int)
    ensures {x, y} == {0, 31} <==> (x == 0 && y == 31) || (x == 31 && y == 0)
  {
    assert x in {x, y} && y in {x, y} && 0 in {0, 31} && 31 in {0, 31};
    if {x, y} == {0, 31} {
      assert x in {0, 31} && y in {0, 31} && 0 in {x, y} && 31 in {x, y};
    }
  }

  lemma {:induction false} Apart2(a: string, x: char, y: char, b: string)
    requires AllSymbols(a + [x] + [y] + b)
    ensures AllSymbols(a) && AllSymbols(b) && SymbolValue(x) >= 0 && SymbolValue(y) >= 0
    ensures Values(a + [x] + [y] + b) == Values(a) + [SymbolValue(x), SymbolValue(y)] + Values(b)
  {
    hide SymbolValue;
    var s := a + [x] + [y] + b;
    assert forall i :: 0 <= i < |a| ==> s[i] == a[i];
    assert forall i :: 0 <= i < |b| ==> s[|a| + 2 + i] == b[i];
    assert s[|a|] == x && s[|a| + 1] == y;
  }

  /** From the right down to idx the sum is done. */
  ghost predicate Summing(symbols: string, idx: nat, sum: nat, double: bool) {
    idx <= |symbols| && (AllSymbols(symbols) ==> sum + Weighted(Values(symbols)[..idx], double) == Weighted(Values(symbols), true))
  }

  lemma {:induction false} SumStart(symbols: string)
    ensures Summing(symbols, |symbols|, 0, true)
  {
    if AllSymbols(symbols) {
      assert Values(symbols)[..|symbols|] == Values(symbols);
    }
  }

  lemma {:induction false} SumStep(symbols: string, idx: nat, sum: nat, double: bool, x: Value)
    requires 0 < idx && Summing(symbols, idx, sum, double) && SymbolValue(symbols[idx - 1]) == x
    ensures Summing(symbols, idx - 1, sum + (if double then Doubled(x) else x), !double)
  {
    hide SymbolValue, Doubled;
    if AllSymbols(symbols) {
      var v := Values(symbols);
      assert v[..idx][..idx - 1] == v[..idx - 1] && v[..idx][idx - 1] == x;
    }
  }

  lemma {:induction false} SumEnd(symbols: string, sum: nat, double: bool)
    requires Summing(symbols, 0, sum, double) && AllSymbols(symbols)
    ensures sum == Weighted(Values(symbols), true)
  {
    assert Values(symbols)[..0] == [];
  }

  /** The loop of luhn32Generate. */
  method Generate(symbols: string) returns (c: char)
    ensures c == CheckChar(symbols)
  {
    hide SymbolValue, CheckOf, Symbol, Summing, Weighted;
    var sum: nat, double := 0, true;
    var idx := |symbols| - 1;
    SumStart(symbols);
    while idx >= 0
      invariant -1 <= idx < |symbols|
      invariant forall k :: idx < k < |symbols| ==> SymbolValue(symbols[k]) >= 0
      invariant Summing(symbols, idx + 1, sum, double)
    {
      var codePoint := SymbolValue(symbols[idx]);
      if codePoint < 0 { return '?'; }
      SumStep(symbols, idx + 1, sum, double, codePoint);
      if double {
        codePoint := codePoint * 2;
        if codePoint >= N { codePoint := codePoint / N + codePoint % N; }
      }
      sum := sum + codePoint;
      double, idx := !double, idx - 1;
    }
    SumEnd(symbols, sum, double);
    var remainder := sum % N;
    var checkCodePoint := (N - remainder) % N;
    assert checkCodePoint == CheckOf(sum) by { CheckIs(sum); }
    c := Symbol(checkCodePoint);
  }

  lemma CheckIs(sum: nat)
    ensures CheckOf(sum) == (N - sum % N) % N
  {
  }
}
