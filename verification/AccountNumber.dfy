/** Account numbers H-I-A-C and deposit numbers H-I-A-T-C: printing and lenient parsing. */
module AccountNumber {
  import opened Wrappers
  import opened Decimal
  import opened Luhn

  // ---- the fingerprint: 20 bits, four symbols ----------------------------------------------------

  const FP: nat := 0x10_0000

  function Encode(fp: nat): (s: string)
    ensures |s| == 4
  {
    var v := fp % FP;
    [Symbol(v / 0x8000), Symbol(v / 0x400 % 32), Symbol(v / 32 % 32), Symbol(v % 32)]
  }

  function Decode(s: string): Option<nat> {
    if |s| == 4 && AllSymbols(s) then
      Some(SymbolValue(s[0]) * 0x8000 + SymbolValue(s[1]) * 0x400 + SymbolValue(s[2]) * 32 + SymbolValue(s[3]))
    else None
  }

  lemma {:induction false} DecodeEncoded(fp: nat)
    ensures AllSymbols(Encode(fp)) && Decode(Encode(fp)) == Some(fp % FP)
  {
    hide Symbol, SymbolValue;
    var v := fp % FP;
    SymbolsCanonical(v / 0x8000);
    SymbolsCanonical(v / 0x400 % 32);
    SymbolsCanonical(v / 32 % 32);
    SymbolsCanonical(v % 32);
    Recomposed(v);
  }

  lemma Recomposed(v: nat)
    requires v < FP
    ensures v / 0x8000 < 32 && v == v / 0x8000 * 0x8000 + v / 0x400 % 32 * 0x400 + v / 32 % 32 * 32 + v % 32
  {
    Quotients(v);
    var a, b := v / 32, v / 0x400;
    assert v == a * 32 + v % 32 && a == b * 32 + a % 32 && b == v / 0x8000 * 32 + b % 32;
  }

  /** The most significant symbol comes first: without the last one the others are those of a
      32nd. */
  lemma {:induction false} EncodeShift(fp: nat)
    requires fp < FP
    ensures Encode(fp / 32)[1..] == Encode(fp)[..3] && Encode(fp)[3] == Symbol(fp % 32)
  {
    hide Symbol;
    ShiftedDigits(fp);
    var e, f := Encode(fp / 32), Encode(fp);
    assert e[1] == f[0] && e[2] == f[1] && e[3] == f[2];
  }

  lemma ShiftedDigits(v: nat)
    requires v < FP
    ensures var w := v / 32;
            && v % FP == v && w % FP == w && w / 0x400 % 32 == v / 0x8000 && w / 32 % 32 == v / 0x400 % 32
            && w / 0x8000 < 32 && v / 0x8000 < 32
  {
    Quotients(v);
    Quotients(v / 32);
  }

  predicate CanonicalSymbol(c: char) {
    SymbolValue(c) >= 0 && Symbol(SymbolValue(c)) == c
  }

  lemma Digits32(a: int, b: int, c: int, d: int)
    requires 0 <= a < 32 && 0 <= b < 32 && 0 <= c < 32 && 0 <= d < 32
    ensures var v := a * 0x8000 + b * 0x400 + c * 32 + d;
            v < FP && v % FP == v && v / 0x8000 == a && v / 0x400 % 32 == b && v / 32 % 32 == c && v % 32 == d
  {
    var v := a * 0x8000 + b * 0x400 + c * 32 + d;
    assert v / 32 == a * 0x400 + b * 32 + c;
    assert v / 0x400 == a * 32 + b;
  }

  /** Encoding what was decoded replaces every symbol by its canonical one. */
  lemma {:induction false} EncodeDecoded(s: string)
    requires Decode(s).Some?
    ensures Decode(s).value < FP
    ensures forall i :: 0 <= i < 4 ==> Encode(Decode(s).value)[i] == Symbol(SymbolValue(s[i]))
    ensures Encode(Decode(s).value) == s <==> forall i :: 0 <= i < 4 ==> CanonicalSymbol(s[i])
  {
    hide Symbol, SymbolValue;
    Digits32(SymbolValue(s[0]), SymbolValue(s[1]), SymbolValue(s[2]), SymbolValue(s[3]));
    var e := Encode(Decode(s).value);
    assert e[0] == Symbol(SymbolValue(s[0])) && e[1] == Symbol(SymbolValue(s[1]));
    assert e[2] == Symbol(SymbolValue(s[2])) && e[3] == Symbol(SymbolValue(s[3]));
    if forall i :: 0 <= i < 4 ==> CanonicalSymbol(s[i]) {
      assert e == s;
    }
    if e == s {
      forall i | 0 <= i < 4 ensures CanonicalSymbol(s[i]) {
      }
    }
  }

  /** encodeFingerprint */
  method EncodeFingerprint(fp: nat) returns (s: string)
    ensures s == Encode(fp)
  {
    hide Symbol;
    var fp20 := fp % FP;
    ghost var v := fp20;
    var a := new char[4](_ => '0');
    var idx := 3;
    while idx >= 0
      invariant -1 <= idx <= 3
      invariant fp20 == if idx == 3 then v else if idx == 2 then v / 32 else if idx == 1 then v / 0x400
                        else if idx == 0 then v / 0x8000 else 0
      invariant idx < 3 ==> a[3] == Symbol(v % 32)
      invariant idx < 2 ==> a[2] == Symbol(v / 32 % 32)
      invariant idx < 1 ==> a[1] == Symbol(v / 0x400 % 32)
      invariant idx < 0 ==> a[0] == Symbol(v / 0x8000)
    {
      a[idx] := Symbol(fp20 % 32);
      Quotients(v);
      fp20 := fp20 / 32;
      idx := idx - 1;
    }
    s := a[..];
  }

  lemma Quotients(v: nat)
    requires v < FP
    ensures v / 32 / 32 == v / 0x400 && v / 0x400 / 32 == v / 0x8000 && v / 0x8000 / 32 == 0 && v / 0x8000 % 32 == v / 0x8000
  {
  }

  /** decodeFingerprint */
  method DecodeFingerprint(s: string) returns (r: Option<nat>)
    ensures r == Decode(s)
  {
    hide SymbolValue;
    if |s| != 4 { return None; }
    var v := 0;
    for i := 0 to 4
      invariant forall k :: 0 <= k < i ==> SymbolValue(s[k]) >= 0
      invariant v == Base32(s, i)
    {
      var cv := SymbolValue(s[i]);
      if cv < 0 { return None; }
      v := v * 32 + cv;
    }
    Base32Is(s);
    Digits32(SymbolValue(s[0]), SymbolValue(s[1]), SymbolValue(s[2]), SymbolValue(s[3]));
    return Some(v % FP);
  }

  ghost function Base32(s: string, i: nat): int
    requires i <= |s|
  {
    if i == 0 then 0 else Base32(s, i - 1) * 32 + SymbolValue(s[i - 1])
  }

  lemma Base32Is(s: string)
    requires |s| == 4
    ensures Base32(s, 4) == SymbolValue(s[0]) * 0x8000 + SymbolValue(s[1]) * 0x400 + SymbolValue(s[2]) * 32 + SymbolValue(s[3])
  {
    hide SymbolValue;
    assert Base32(s, 2) == (Base32(s, 0) * 32 + SymbolValue(s[0])) * 32 + SymbolValue(s[1]);
  }

  // ---- fields ------------------------------------------------------------------------------------------

  /** Index of the first dash, or the length. */
  function FirstDash(s: string): (k: nat)
    ensures k <= |s| && (k < |s| ==> s[k] == '-')
    ensures forall i :: 0 <= i < k ==> s[i] != '-'
  {
    if s == "" || s[0] == '-' then 0 else 1 + FirstDash(s[1..])
  }

  function Fields(s: string): (f: seq<string>)
    ensures f != []
    decreases |s|
  {
    var k := FirstDash(s);
    if k == |s| then [s] else [s[..k]] + Fields(s[k + 1..])
  }

  predicate Dashless(s: string) {
    forall i :: 0 <= i < |s| ==> s[i] != '-'
  }

  lemma {:induction false} FieldsOne(a: string)
    requires Dashless(a)
    ensures Fields(a) == [a]
  {
  }

  lemma {:induction false} FieldsNext(a: string, rest: string)
    requires Dashless(a)
    ensures Fields(a + "-" + rest) == [a] + Fields(rest)
  {
    var s := a + "-" + rest;
    var k := FirstDash(s);
    assert s[|a|] == '-';
    assert forall i :: 0 <= i < |a| ==> s[i] == a[i];
    assert k == |a|;
    assert s[..k] == a && s[k + 1..] == rest;
  }

  /** The text of fields that were split. */
  function Join(f: seq<string>): string
    requires f != []
  {
    if |f| == 1 then f[0] else f[0] + "-" + Join(f[1..])
  }

  lemma {:induction false} JoinFields(s: string)
    ensures Join(Fields(s)) == s
    ensures forall i :: 0 <= i < |Fields(s)| ==> Dashless(Fields(s)[i])
    decreases |s|
  {
    hide Fields, FirstDash;
    FieldsUnfold(s);
    var k := FirstDash(s);
    if k < |s| {
      var rest := s[k + 1..];
      JoinFields(rest);
      var f := Fields(s);
      assert f[1..] == Fields(rest);
      assert s == s[..k] + "-" + rest;
    }
  }

  /** splitFields: exactly `want` fields, at most five. */
  method SplitFields(str: string, want: nat) returns (r: Option<seq<string>>)
    requires want <= 5
    ensures r == if |Fields(str)| == want then Some(Fields(str)) else None
  {
    hide Fields, FirstDash;
    var pos, fields: seq<string> := 0, [];
    assert str[0..] == str && [] + Fields(str) == Fields(str);
    while true
      invariant pos <= |str| && |fields| <= 5 && Fields(str) == fields + Fields(str[pos..])
      decreases |str| - pos
    {
      FieldsAt(str, pos, fields);
      var dash := pos + FirstDash(str[pos..]);
      if dash == |str| {
        if |fields| >= 5 { return None; }
        fields := fields + [str[pos..]];
        break;
      }
      if |fields| >= 5 { return None; }
      fields := fields + [str[pos..dash]];
      pos := dash + 1;
    }
    if |fields| != want { return None; }
    return Some(fields);
  }

  lemma {:induction false} FieldsUnfold(s: string)
    ensures var k := FirstDash(s); Fields(s) == if k == |s| then [s] else [s[..k]] + Fields(s[k + 1..])
  {
    hide FirstDash;
  }

  lemma {:induction false} FieldsAt(str: string, pos: nat, done: seq<string>)
    requires pos <= |str|
    ensures var dash := pos + FirstDash(str[pos..]);
            dash <= |str| &&
            if dash == |str| then done + Fields(str[pos..]) == done + [str[pos..]]
            else done + Fields(str[pos..]) == done + [str[pos..dash]] + Fields(str[dash + 1..])
    ensures |done + Fields(str[pos..])| >= |done| + 1
  {
    hide Fields, FirstDash;
    var rest := str[pos..];
    var k := FirstDash(rest);
    FieldsUnfold(rest);
    if k < |rest| {
      assert rest[..k] == str[pos..pos + k] && rest[k + 1..] == str[pos + k + 1..];
      assert done + ([str[pos..pos + k]] + Fields(str[pos + k + 1..])) == done + [str[pos..pos + k]] + Fields(str[pos + k + 1..]);
    }
  }

  // ---- the numbers --------------------------------------------------------------------------------------

  /** What a text stands for; `sub` is 0 in the form without a subaddress index. */
  datatype Account = Account(height: nat, index: nat, fingerprint: nat, sub: nat)

  predicate Fits(n: Account) {
    n.height <= UINT32_MAX && n.index <= UINT32_MAX && n.fingerprint <= UINT32_MAX && n.sub <= UINT32_MAX
  }

  function Payload(h: string, i: string, a: string, t: string): string { h + i + a + t }

  /** toString and toStringWithIndex */
  function ToText(n: Account, deposit: bool): string {
    var h, i, a, t := Print(n.height), Print(n.index), Encode(n.fingerprint), Print(n.sub);
    if deposit then h + "-" + i + "-" + a + "-" + t + "-" + [CheckChar(Payload(h, i, a, t))]
    else h + "-" + i + "-" + a + "-" + [CheckChar(Payload(h, i, a, ""))]
  }

  /** finalize */
  function Checked(h: string, i: string, a: string, t: string, c: string, deposit: bool): Option<Account> {
    if |c| != 1 || Parse(h).None? || Parse(i).None? || (deposit && Parse(t).None?) || Decode(a).None? then None
    else
      var fp := Decode(a).value;
      var actual := SymbolValue(c[0]);
      if actual < 0 || Symbol(actual) != CheckChar(Payload(h, i, Encode(fp), if deposit then t else "")) then None
      else Some(Account(Parse(h).value, Parse(i).value, fp, if deposit then Parse(t).value else 0))
  }

  /** fromString and fromStringWithIndex */
  function FromText(s: string, deposit: bool): Option<Account> {
    var f := Fields(s);
    if deposit then (if |f| == 5 then Checked(f[0], f[1], f[2], f[3], f[4], true) else None)
    else if |f| == 4 then Checked(f[0], f[1], f[2], "", f[3], false) else None
  }

  lemma {:induction false} DigitsAreSymbols(s: string)
    requires AllDigits(s)
    ensures AllSymbols(s) && Dashless(s)
  {
  }

  lemma {:induction false} SymbolsDashless(s: string)
    requires AllSymbols(s)
    ensures Dashless(s)
  {
    forall i | 0 <= i < |s| ensures s[i] != '-' {
      NoDash(s[i]);
    }
  }

  lemma NoDash(c: char)
    requires SymbolValue(c) >= 0
    ensures c != '-'
  {
    hide Alphabet, Find, Code;
    DashOutside();
  }

  lemma DashOutside()
    ensures Find(Alphabet(), '-') == -1
  {
    hide Alphabet, Find;
    var k := Find(Alphabet(), '-');
    if k >= 0 { AlphabetIs(k); }
  }

  /** Splitting a printed number gives the printed parts. */
  lemma {:induction false} PrintedFields(h: string, i: string, a: string, t: string, c: string)
    requires Dashless(h) && Dashless(i) && Dashless(a) && Dashless(t) && Dashless(c)
    ensures Fields(h + "-" + i + "-" + a + "-" + c) == [h, i, a, c]
    ensures Fields(h + "-" + i + "-" + a + "-" + t + "-" + c) == [h, i, a, t, c]
  {
    hide Fields, Dashless;
    FieldsOne(c);
    FieldsNext(t, c);
    FieldsNext(a, c);
    FieldsNext(a, t + "-" + c);
    FieldsNext(i, a + "-" + c);
    FieldsNext(i, a + "-" + (t + "-" + c));
    FieldsNext(h, i + "-" + (a + "-" + c));
    FieldsNext(h, i + "-" + (a + "-" + (t + "-" + c)));
    assert h + "-" + (i + "-" + (a + "-" + c)) == h + "-" + i + "-" + a + "-" + c;
    assert h + "-" + (i + "-" + (a + "-" + (t + "-" + c))) == h + "-" + i + "-" + a + "-" + t + "-" + c;
  }

  lemma {:induction false} CheckCharIs(s: string)
    requires AllSymbols(s)
    ensures SymbolValue(CheckChar(s)) >= 0 && Symbol(SymbolValue(CheckChar(s))) == CheckChar(s)
    ensures Dashless([CheckChar(s)])
  {
    hide Symbol, CheckValue, SymbolValue;
    SymbolsCanonical(CheckValue(Values(s)));
    NoDash(CheckChar(s));
  }

  /** Parsing a printed number returns the same height, index, 20-bit fingerprint and
      subaddress index. */
  lemma {:induction false} ParsePrinted(n: Account, deposit: bool)
    requires Fits(n)
    ensures FromText(ToText(n, deposit), deposit)
         == Some(Account(n.height, n.index, n.fingerprint % FP, if deposit then n.sub else 0))
  {
    var h, i, a, t := Print(n.height), Print(n.index), Encode(n.fingerprint), Print(n.sub);
    PrintReads(n.height);
    PrintReads(n.index);
    PrintReads(n.sub);
    DecodeEncoded(n.fingerprint);
    hide Print, Number, Encode, Decode, SymbolValue, Symbol, CheckChar, Fields;
    DigitsAreSymbols(h);
    DigitsAreSymbols(i);
    DigitsAreSymbols(t);
    SymbolsDashless(a);
    EncodeAgain(n.fingerprint);
    var p := Payload(h, i, a, if deposit then t else "");
    assert AllSymbols(p);
    CheckCharIs(p);
    PrintedFields(h, i, a, t, [CheckChar(p)]);
  }

  lemma {:induction false} EncodeAgain(fp: nat)
    ensures Encode(fp % FP) == Encode(fp)
  {
    hide Symbol;
    var v := fp % FP;
    assert v % FP == v;
  }

  /** A text in the one form is never accepted in the other. */
  lemma {:induction false} FormsApart(s: string)
    ensures FromText(s, false).None? || FromText(s, true).None?
  {
  }

  /** No leading zeros, and the fingerprint and the check character in canonical symbols. */
  predicate CanonicalFields(h: string, i: string, a: string, t: string, c: string, deposit: bool) {
    && NoLeadingZero(h) && NoLeadingZero(i) && (deposit ==> NoLeadingZero(t))
    && (forall k :: 0 <= k < |a| ==> CanonicalSymbol(a[k]))
    && (forall k :: 0 <= k < |c| ==> CanonicalSymbol(c[k]))
  }

  predicate CanonicalText(s: string, deposit: bool) {
    var f := Fields(s);
    if deposit then |f| == 5 && CanonicalFields(f[0], f[1], f[2], f[3], f[4], true)
    else |f| == 4 && CanonicalFields(f[0], f[1], f[2], "", f[3], false)
  }

  /** The parts an accepted number is printed with. */
  function Reprinted(n: Account, deposit: bool): (string, string, string, string, string) {
    var h, i, a, t := Print(n.height), Print(n.index), Encode(n.fingerprint), Print(n.sub);
    (h, i, a, t, [CheckChar(Payload(h, i, a, if deposit then t else ""))])
  }

  lemma {:induction false} ReprintedDashless(n: Account, deposit: bool)
    ensures var (h, i, a, t, c) := Reprinted(n, deposit);
            Dashless(h) && Dashless(i) && Dashless(a) && Dashless(t) && Dashless(c)
            && |c| == 1 && CanonicalSymbol(c[0])
  {
    var h, i, a, t := Print(n.height), Print(n.index), Encode(n.fingerprint), Print(n.sub);
    PrintReads(n.height);
    PrintReads(n.index);
    PrintReads(n.sub);
    DecodeEncoded(n.fingerprint);
    hide Print, Number, Encode, Decode, SymbolValue, Symbol, CheckChar;
    DigitsAreSymbols(h);
    DigitsAreSymbols(i);
    DigitsAreSymbols(t);
    SymbolsDashless(a);
    var p := Payload(h, i, a, if deposit then t else "");
    assert AllSymbols(p);
    CheckCharIs(p);
  }

  /** Part by part: the reprinted parts are the accepted ones exactly when those are
      canonical. */
  lemma {:induction false} SameParts(h: string, i: string, a: string, t: string, c: string, deposit: bool)
    requires Checked(h, i, a, t, c, deposit).Some?
    ensures var n := Checked(h, i, a, t, c, deposit).value;
            var (h', i', a', t', c') := Reprinted(n, deposit);
            h == h' && i == i' && a == a' && (deposit ==> t == t') && c == c' <==> CanonicalFields(h, i, a, t, c, deposit)
  {
    var n := Checked(h, i, a, t, c, deposit).value;
    ReadPrints(h);
    ReadPrints(i);
    if deposit { ReadPrints(t); }
    EncodeDecoded(a);
    ReprintedDashless(n, deposit);
    hide Print, Number, Encode, Decode, SymbolValue, Symbol, CheckChar, NoLeadingZero, Dashless;
    assert |a| == 4 by { DecodeLength(a); }
    var (h', i', a', t', c') := Reprinted(n, deposit);
    if CanonicalFields(h, i, a, t, c, deposit) {
      assert c == [c[0]] && c == c';
    }
  }

  lemma {:induction false} DecodeLength(a: string)
    requires Decode(a).Some?
    ensures |a| == 4
  {
  }

  lemma {:induction false} AcceptedFits(h: string, i: string, a: string, t: string, c: string, deposit: bool)
    requires Checked(h, i, a, t, c, deposit).Some?
    ensures var n := Checked(h, i, a, t, c, deposit).value;
            Fits(n) && n.fingerprint % FP == n.fingerprint && (deposit || n.sub == 0)
  {
    hide Encode, Decode, Symbol, SymbolValue, CheckChar, Number, Payload;
    EncodeDecoded(a);
  }

  /** Any accepted text reprints to a text with the same value, equal to the input exactly
      when the input is canonical. */
  lemma {:induction false} Reprint(s: string, deposit: bool)
    requires FromText(s, deposit).Some?
    ensures FromText(ToText(FromText(s, deposit).value, deposit), deposit) == FromText(s, deposit)
    ensures ToText(FromText(s, deposit).value, deposit) == s <==> CanonicalText(s, deposit)
  {
    var n, f := FromText(s, deposit).value, Fields(s);
    var h, i, a, t, c := f[0], f[1], f[2], if deposit then f[3] else "", if deposit then f[4] else f[3];
    JoinFields(s);
    hide Fields, Checked, Print, Encode, CheckChar, CanonicalFields;
    AcceptedFits(h, i, a, t, c, deposit);
    ParsePrinted(n, deposit);
    SameParts(h, i, a, t, c, deposit);
    ReprintedDashless(n, deposit);
    var (h', i', a', t', c') := Reprinted(n, deposit);
    PrintedFields(h', i', a', t', c');
    JoinedParts(f, deposit);
  }

  lemma {:induction false} JoinedParts(f: seq<string>, deposit: bool)
    requires |f| == if deposit then 5 else 4
    ensures deposit ==> Join(f) == f[0] + "-" + f[1] + "-" + f[2] + "-" + f[3] + "-" + f[4]
    ensures !deposit ==> Join(f) == f[0] + "-" + f[1] + "-" + f[2] + "-" + f[3]
  {
    assert f[1..][0] == f[1] && f[1..][1..] == f[2..] && f[2..][0] == f[2] && f[2..][1..] == f[3..] && f[3..][0] == f[3];
    if deposit {
      assert f[3..][1..] == f[4..] && f[4..][0] == f[4];
      assert Join(f[4..]) == f[4];
      assert Join(f[3..]) == f[3] + "-" + f[4];
      assert Join(f[2..]) == f[2] + "-" + (f[3] + "-" + f[4]);
    } else {
      assert Join(f[3..]) == f[3];
      assert Join(f[2..]) == f[2] + "-" + f[3];
    }
  }

  // ---- the code -------------------------------------------------------------------------------------------

  method ToString(n: Account, deposit: bool) returns (s: string)
    ensures s == ToText(n, deposit)
  {
    hide Print, Encode, CheckChar;
    var h, i := Print(n.height), Print(n.index);
    var a := EncodeFingerprint(n.fingerprint);
    if deposit {
      var t := Print(n.sub);
      var c := Generate(h + i + a + t);
      s := h + "-" + i + "-" + a + "-" + t + "-" + [c];
    } else {
      assert h + i + a + "" == h + i + a;
      var c := Generate(h + i + a);
      s := h + "-" + i + "-" + a + "-" + [c];
    }
  }

  method Finalize(h: string, i: string, a: string, t: string, c: string, deposit: bool) returns (r: Option<Account>)
    ensures r == Checked(h, i, a, t, c, deposit)
  {
    hide Encode, Decode, Symbol, SymbolValue, CheckChar, Parse;
    if |c| != 1 { return None; }
    var height := ParseU32(h);
    var index := ParseU32(i);
    if height.None? || index.None? { return None; }
    var sub := Some(0);
    if deposit {
      sub := ParseU32(t);
      if sub.None? { return None; }
    }
    var fp := DecodeFingerprint(a);
    if fp.None? { return None; }
    var canon := EncodeFingerprint(fp.value);
    var expected := Generate(if deposit then h + i + canon + t else h + i + canon);
    assert h + i + canon + "" == h + i + canon;
    var actual := SymbolValue(c[0]);
    if actual < 0 || Symbol(actual) != expected { return None; }
    return Some(Account(height.value, index.value, fp.value, sub.value));
  }

  method FromString(s: string, deposit: bool) returns (r: Option<Account>)
    ensures r == FromText(s, deposit)
  {
    hide Fields, Checked;
    var f := SplitFields(s, if deposit then 5 else 4);
    if f.None? { return None; }
    if deposit {
      r := Finalize(f.value[0], f.value[1], f.value[2], f.value[3], f.value[4], true);
    } else {
      r := Finalize(f.value[0], f.value[1], f.value[2], "", f.value[3], false);
    }
  }
}
