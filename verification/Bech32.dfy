/** Bech32 strings: a human-readable part, the separator "1", and symbols with their checksum. */
module Bech32 {
  import opened Bech32Code
  import Bech32Errors

  // ---- the alphabet ----

  function Charset(k: nat): char
    requires k < 32
  {
    if k == 0 then 'q' else if k == 1 then 'p' else if k == 2 then 'z' else if k == 3 then 'r' else
    if k == 4 then 'y' else if k == 5 then '9' else if k == 6 then 'x' else if k == 7 then '8' else
    if k == 8 then 'g' else if k == 9 then 'f' else if k == 10 then '2' else if k == 11 then 't' else
    if k == 12 then 'v' else if k == 13 then 'd' else if k == 14 then 'w' else if k == 15 then '0' else
    if k == 16 then 's' else if k == 17 then '3' else if k == 18 then 'j' else if k == 19 then 'n' else
    if k == 20 then '5' else if k == 21 then '4' else if k == 22 then 'k' else if k == 23 then 'h' else
    if k == 24 then 'c' else if k == 25 then 'e' else if k == 26 then '6' else if k == 27 then 'm' else
    if k == 28 then 'u' else if k == 29 then 'a' else if k == 30 then '7' else 'l'
  }

  function LowerCase(c: char): char {
    if 'A' <= c <= 'Z' then (c as int - 'A' as int + 'a' as int) as char else c
  }

  function RevOfLower(c: char): int {
    if c == 'q' then 0 else if c == 'p' then 1 else if c == 'z' then 2 else if c == 'r' then 3 else
    if c == 'y' then 4 else if c == '9' then 5 else if c == 'x' then 6 else if c == '8' then 7 else
    if c == 'g' then 8 else if c == 'f' then 9 else if c == '2' then 10 else if c == 't' then 11 else
    if c == 'v' then 12 else if c == 'd' then 13 else if c == 'w' then 14 else if c == '0' then 15 else
    if c == 's' then 16 else if c == '3' then 17 else if c == 'j' then 18 else if c == 'n' then 19 else
    if c == '5' then 20 else if c == '4' then 21 else if c == 'k' then 22 else if c == 'h' then 23 else
    if c == 'c' then 24 else if c == 'e' then 25 else if c == '6' then 26 else if c == 'm' then 27 else
    if c == 'u' then 28 else if c == 'a' then 29 else if c == '7' then 30 else if c == 'l' then 31 else -1
  }

  /** The value of a character, upper or lower case, or -1. */
  function CharsetRev(c: char): int {
    RevOfLower(LowerCase(c))
  }

  predicate Printable(c: char) {
    33 <= c as int <= 126
  }

  lemma CharsetRound(k: nat)
    requires k < 32
    ensures var c := Charset(k); CharsetRev(c) == k && LowerCase(c) == c && c != '1' && Printable(c)
  {
  }

  lemma RevRound(c: char)
    ensures -1 <= CharsetRev(c) < 32 && (CharsetRev(c) >= 0 ==> Charset(CharsetRev(c)) == LowerCase(c) && c != '1')
  {
  }

  lemma SymbolRound(v: bv32)
    requires v < 32
    ensures 0 <= v as int < 32 && (v as int) as bv32 == v
  {
  }

  lemma IndexRound(i: nat)
    requires i < 32
    ensures (i as bv32) < 32 && (i as bv32) as int == i
  {
  }

  // ---- encoding ----

  function Lower(s: string): (r: string)
    ensures |r| == |s|
  {
    seq(|s|, i requires 0 <= i < |s| => LowerCase(s[i]))
  }

  function High(c: char): (r: bv32)
    ensures r < 32
  {
    (c as int % 256 / 32) as bv32
  }

  function Low(c: char): (r: bv32)
    ensures r < 32
  {
    (c as int % 32) as bv32
  }

  function Expanded(hrp: string): (r: Symbols)
    ensures Five(r) && |r| == 2 * |hrp| + 1
  {
    seq(|hrp|, i requires 0 <= i < |hrp| => High(hrp[i])) + [0] + seq(|hrp|, i requires 0 <= i < |hrp| => Low(hrp[i]))
  }

  method ExpandHRP(hrp: string) returns (r: Symbols)
    ensures r == Expanded(hrp)
  {
    hide High, Low;
    var n := |hrp|;
    r := Zeros(2 * n + 1);
    for i := 0 to n
      invariant |r| == 2 * n + 1 && r[n] == 0
      invariant forall j | 0 <= j < i :: r[j] == High(hrp[j]) && r[j + n + 1] == Low(hrp[j])
    {
      r := r[i := High(hrp[i])];
      r := r[i + n + 1 := Low(hrp[i])];
    }
    r := r[n := 0];
    forall j | 0 <= j < 2 * n + 1 ensures r[j] == Expanded(hrp)[j]
    {
      if j > n {
        assert r[(j - n - 1) + n + 1] == Low(hrp[j - n - 1]);
      }
    }
  }

  function CharOf(v: bv32): char
    requires v < 32
  {
    SymbolRound(v);
    Charset(v as int)
  }

  function Text(v: Symbols): (r: string)
    requires Five(v)
    ensures |r| == |v|
  {
    seq(|v|, i requires 0 <= i < |v| => CharOf(v[i]))
  }

  /** The symbols that carry the data and its checksum. */
  function Payload(hrp: string, values: Symbols): (r: Symbols)
    requires Five(values)
    ensures Five(r) && |r| == |values| + 6
  {
    ExpandedFive(hrp, values);
    ChecksumVerifies(Expanded(hrp) + values);
    values + Checksum(Expanded(hrp) + values)
  }

  function Encoded(hrp: string, values: Symbols): string
    requires Five(values)
  {
    hrp + ['1'] + Text(Payload(hrp, values))
  }

  method Encode(hrp: string, values: Symbols) returns (s: string)
    requires Five(values)
    ensures s == Encoded(hrp, values)
  {
    hide Expanded, Checksum, CharOf;
    var expanded := ExpandHRP(hrp);
    var checksum := CreateChecksum(expanded + values);
    var combined := values + checksum;
    assert combined == Payload(hrp, values);
    s := hrp + ['1'];
    for i := 0 to |combined|
      invariant s == hrp + ['1'] + Text(combined)[..i]
    {
      s := s + [CharOf(combined[i])];
    }
  }

  // ---- decoding ----

  datatype Result = Refused | Accepted(hrp: string, data: Symbols)

  predicate IsLower(c: char) { 'a' <= c <= 'z' }
  predicate IsUpper(c: char) { 'A' <= c <= 'Z' }

  ghost predicate WellFormed(s: string) {
    && (forall i | 0 <= i < |s| :: Printable(s[i]))
    && !((exists i :: 0 <= i < |s| && IsLower(s[i])) && (exists i :: 0 <= i < |s| && IsUpper(s[i])))
  }

  /** The position of the last separator, or -1. */
  function LastSeparator(s: string): (r: int)
    ensures -1 <= r < |s| && (r >= 0 ==> s[r] == '1') && forall i | r < i < |s| :: s[i] != '1'
  {
    if s == [] then -1 else if s[|s| - 1] == '1' then |s| - 1 else LastSeparator(s[..|s| - 1])
  }

  predicate AllSymbols(s: string) {
    forall i | 0 <= i < |s| :: CharsetRev(s[i]) >= 0
  }

  function SymbolOf(c: char): (r: bv32)
    requires CharsetRev(c) >= 0
    ensures r < 32
  {
    RevRound(c);
    CharsetRev(c) as bv32
  }

  function SymbolsOf(s: string): (r: Symbols)
    requires AllSymbols(s)
    ensures Five(r) && |r| == |s|
  {
    seq(|s|, i requires 0 <= i < |s| => SymbolOf(s[i]))
  }

  ghost function Decoded(s: string): Result {
    var pos := LastSeparator(s);
    if !WellFormed(s) || |s| > 90 || pos < 1 || pos + 7 > |s| then Refused
    else
      var hrp, rest := Lower(s[..pos]), s[pos + 1..];
      if !AllSymbols(rest) || From(1, Expanded(hrp) + SymbolsOf(rest)) != 1 then Refused
      else Accepted(hrp, SymbolsOf(rest)[..|rest| - 6])
  }

  method CheckCharacters(s: string) returns (ok: bool)
    ensures ok <==> WellFormed(s)
  {
    var lower, upper := false, false;
    for i := 0 to |s|
      invariant forall j | 0 <= j < i :: Printable(s[j])
      invariant lower <==> exists j :: 0 <= j < i && IsLower(s[j])
      invariant upper <==> exists j :: 0 <= j < i && IsUpper(s[j])
    {
      if !Printable(s[i]) {
        return false;
      }
      if IsLower(s[i]) {
        lower := true;
      }
      if IsUpper(s[i]) {
        upper := true;
      }
    }
    ok := !(lower && upper);
  }

  method ReadSymbols(s: string) returns (ok: bool, values: Symbols)
    ensures ok <==> AllSymbols(s)
    ensures ok ==> values == SymbolsOf(s)
  {
    hide RevOfLower, SymbolOf;
    values := Zeros(|s|);
    for i := 0 to |s|
      invariant |values| == |s| && forall j | 0 <= j < i :: CharsetRev(s[j]) >= 0 && values[j] == SymbolOf(s[j])
    {
      var rev := CharsetRev(s[i]);
      if rev < 0 {
        return false, [];
      }
      values := values[i := SymbolOf(s[i])];
    }
    ok := true;
  }

  method Decode(s: string) returns (r: Result)
    ensures r == Decoded(s)
  {
    hide WellFormed, AllSymbols, SymbolsOf, Expanded, From;
    var ok := CheckCharacters(s);
    if !ok {
      return Refused;
    }
    var pos := LastSeparator(s);
    if |s| > 90 || pos == -1 || pos == 0 || pos + 7 > |s| {
      return Refused;
    }
    var values;
    ok, values := ReadSymbols(s[pos + 1..]);
    if !ok {
      return Refused;
    }
    var hrp := "";
    for i := 0 to pos
      invariant hrp == Lower(s[..pos])[..i]
    {
      hrp := hrp + [LowerCase(s[i])];
    }
    assert hrp == Lower(s[..pos]);
    var expanded := ExpandHRP(hrp);
    var c := PolyMod(expanded + values);
    if c != 1 {
      return Refused;
    }
    r := Accepted(hrp, values[..|values| - 6]);
  }

  // ---- the two are inverse ----

  /** Nonempty, printable, without upper-case letters. */
  ghost predicate ValidHrp(hrp: string) {
    hrp != [] && forall i | 0 <= i < |hrp| :: Printable(hrp[i]) && LowerCase(hrp[i]) == hrp[i]
  }

  lemma TextRound(v: Symbols)
    requires Five(v)
    ensures AllSymbols(Text(v)) && SymbolsOf(Text(v)) == v
    ensures forall i | 0 <= i < |v| :: Text(v)[i] != '1' && Printable(Text(v)[i]) && LowerCase(Text(v)[i]) == Text(v)[i]
  {
    hide Charset, RevOfLower;
    forall i | 0 <= i < |v|
      ensures CharsetRev(Text(v)[i]) >= 0 && SymbolOf(Text(v)[i]) == v[i]
      ensures Text(v)[i] != '1' && Printable(Text(v)[i]) && LowerCase(Text(v)[i]) == Text(v)[i]
    {
      CharRound(v[i]);
    }
  }

  lemma CharRound(v: bv32)
    requires v < 32
    ensures var c := CharOf(v); CharsetRev(c) >= 0 && SymbolOf(c) == v && c != '1' && Printable(c) && LowerCase(c) == c
  {
    hide Charset, RevOfLower;
    SymbolRound(v);
    CharsetRound(v as int);
  }

  lemma LowerWellFormed(s: string)
    requires forall i | 0 <= i < |s| :: Printable(s[i]) && LowerCase(s[i]) == s[i]
    ensures WellFormed(s) && Lower(s) == s
  {
    forall i | 0 <= i < |s| ensures !IsUpper(s[i]) {}
  }

  lemma SeparatorIs(s: string, pos: nat)
    requires pos < |s| && s[pos] == '1' && forall i | pos < i < |s| :: s[i] != '1'
    ensures LastSeparator(s) == pos
  {
  }

  /** Decoding an encoding gives the parts back, exactly when it is within 90 characters. */
  lemma RoundTrip(hrp: string, values: Symbols)
    requires ValidHrp(hrp) && Five(values)
    ensures Decoded(Encoded(hrp, values)) == if |hrp| + 7 + |values| <= 90 then Accepted(hrp, values) else Refused
  {
    hide From, Expanded, Checksum, Text, WellFormed, Five, AllSymbols, SymbolsOf;
    var v, s, n := Payload(hrp, values), Encoded(hrp, values), |hrp|;
    EncodedParts(hrp, values);
    if |s| <= 90 {
      ExpandedFive(hrp, values);
      ChecksumVerifies(Expanded(hrp) + values);
      assert Expanded(hrp) + v == Expanded(hrp) + values + Checksum(Expanded(hrp) + values);
      assert v[..|v| - 6] == values;
    }
  }

  lemma ExpandedFive(hrp: string, values: Symbols)
    requires Five(values)
    ensures Five(Expanded(hrp) + values)
  {
  }

  /** Where the parts of an encoding lie. */
  lemma EncodedParts(hrp: string, values: Symbols)
    requires ValidHrp(hrp) && Five(values)
    ensures var s, v := Encoded(hrp, values), Payload(hrp, values);
            && |s| == |hrp| + 7 + |values| && WellFormed(s) && LastSeparator(s) == |hrp|
            && Lower(s[..|hrp|]) == hrp && AllSymbols(s[|hrp| + 1..]) && SymbolsOf(s[|hrp| + 1..]) == v
  {
    hide From, Expanded, Checksum, Text, WellFormed, Printable, LowerCase, Payload, Five;
    var v, s, n := Payload(hrp, values), Encoded(hrp, values), |hrp|;
    TextRound(v);
    SeparatorFacts();
    assert s[..n] == hrp && s[n + 1..] == Text(v) && s[n] == '1';
    forall i | 0 <= i < |s| ensures Printable(s[i]) && LowerCase(s[i]) == s[i] && (i > n ==> s[i] != '1')
    {
      if i > n {
        assert s[i] == Text(v)[i - n - 1];
      } else if i < n {
        assert s[i] == hrp[i];
      }
    }
    LowerWellFormed(s);
    LowerWellFormed(hrp);
    SeparatorIs(s, n);
  }

  lemma SeparatorFacts()
    ensures Printable('1') && LowerCase('1') == '1'
  {
  }

  /** An accepted string is, in lower case, the one encoding of what it decodes to. */
  lemma Canonical(s: string)
    requires Decoded(s).Accepted?
    ensures var d := Decoded(s); Five(d.data) && Encoded(d.hrp, d.data) == Lower(s) && ValidHrp(d.hrp)
  {
    hide From, Expanded, Checksum, Five, Text, LowerCase, SymbolsOf;
    var pos, d := LastSeparator(s), Decoded(s);
    var rest := s[pos + 1..];
    var v := SymbolsOf(rest);
    var n := |v| - 6;
    SplitFive(v, n);
    ExpandedFive(d.hrp, d.data);
    assert v == d.data + v[n..];
    assert Expanded(d.hrp) + v == Expanded(d.hrp) + d.data + v[n..];
    ChecksumUnique(Expanded(d.hrp) + d.data, v[n..]);
    assert Payload(d.hrp, d.data) == v;
    LowerOfSymbols(rest);
    SeparatorFacts();
    assert s == s[..pos] + ['1'] + rest;
    assert Lower(s) == Lower(s[..pos]) + ['1'] + Lower(rest);
    LowerValid(s[..pos]);
  }

  lemma SplitFive(v: Symbols, n: nat)
    requires Five(v) && n <= |v|
    ensures Five(v[..n]) && Five(v[n..])
  {
  }

  lemma LowerOfSymbols(s: string)
    requires AllSymbols(s)
    ensures Text(SymbolsOf(s)) == Lower(s)
  {
    hide Charset, RevOfLower, LowerCase;
    forall i | 0 <= i < |s| ensures Text(SymbolsOf(s))[i] == LowerCase(s[i])
    {
      RevRound(s[i]);
      IndexRound(CharsetRev(s[i]));
    }
  }

  lemma LowerValid(s: string)
    requires s != [] && forall i | 0 <= i < |s| :: Printable(s[i])
    ensures ValidHrp(Lower(s))
  {
  }

  /** Two payloads under one prefix that differ only within six consecutive symbols never both verify. */
  lemma NeverBothVerify(hrp: string, v: Symbols, w: Symbols, p: nat)
    requires Five(v) && Five(w) && DifferWithin(v, w, p) && v != w
    requires From(1, Expanded(hrp) + v) == 1
    ensures From(1, Expanded(hrp) + w) != 1
  {
    hide From, Expanded, Five;
    var e := Expanded(hrp);
    ExpandedFive(hrp, v);
    ExpandedFive(hrp, w);
    var i := FirstDifference(v, w);
    assert (e + v)[|e| + i] != (e + w)[|e| + i];
    BurstDetected(e + v, e + w, |e| + p);
  }

  /** Nor do two payloads of up to 1023 symbols that differ in no more than three of them. */
  lemma ThreeErrorsCaught(hrp: string, v: Symbols, w: Symbols, a: nat, b: nat, c: nat)
    requires Five(v) && Five(w) && |v| == |w| <= 1023 && v != w && a < b < c < |v|
    requires forall i | 0 <= i < |v| && v[i] != w[i] :: i == a || i == b || i == c
    requires From(1, Expanded(hrp) + v) == 1
    ensures From(1, Expanded(hrp) + w) != 1
  {
    hide From, Expanded, Five;
    var e := Expanded(hrp);
    ExpandedFive(hrp, v);
    ExpandedFive(hrp, w);
    var i := FirstDifference(v, w);
    assert (e + v)[|e| + i] != (e + w)[|e| + i];
    Bech32Errors.ThreeDetected(e + v, e + w, |e| + a, |e| + b, |e| + c);
  }
}
