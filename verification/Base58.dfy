/** The Base58 codec for byte strings. */
module Base58 {
  import opened Radix

  function Alphabet(d: nat): char
    requires d < 58
  {
    if d == 0 then '1' else if d == 1 then '2' else if d == 2 then '3' else if d == 3 then '4' else
    if d == 4 then '5' else if d == 5 then '6' else if d == 6 then '7' else if d == 7 then '8' else
    if d == 8 then '9' else if d == 9 then 'A' else if d == 10 then 'B' else if d == 11 then 'C' else
    if d == 12 then 'D' else if d == 13 then 'E' else if d == 14 then 'F' else if d == 15 then 'G' else
    if d == 16 then 'H' else if d == 17 then 'J' else if d == 18 then 'K' else if d == 19 then 'L' else
    if d == 20 then 'M' else if d == 21 then 'N' else if d == 22 then 'P' else if d == 23 then 'Q' else
    if d == 24 then 'R' else if d == 25 then 'S' else if d == 26 then 'T' else if d == 27 then 'U' else
    if d == 28 then 'V' else if d == 29 then 'W' else if d == 30 then 'X' else if d == 31 then 'Y' else
    if d == 32 then 'Z' else if d == 33 then 'a' else if d == 34 then 'b' else if d == 35 then 'c' else
    if d == 36 then 'd' else if d == 37 then 'e' else if d == 38 then 'f' else if d == 39 then 'g' else
    if d == 40 then 'h' else if d == 41 then 'i' else if d == 42 then 'j' else if d == 43 then 'k' else
    if d == 44 then 'm' else if d == 45 then 'n' else if d == 46 then 'o' else if d == 47 then 'p' else
    if d == 48 then 'q' else if d == 49 then 'r' else if d == 50 then 's' else if d == 51 then 't' else
    if d == 52 then 'u' else if d == 53 then 'v' else if d == 54 then 'w' else if d == 55 then 'x' else
    if d == 56 then 'y' else 'z'
  }

  /** The position of a character in the alphabet, or -1. */
  function Find(c: char): int {
    if c == '1' then 0 else if c == '2' then 1 else if c == '3' then 2 else if c == '4' then 3 else
    if c == '5' then 4 else if c == '6' then 5 else if c == '7' then 6 else if c == '8' then 7 else
    if c == '9' then 8 else if c == 'A' then 9 else if c == 'B' then 10 else if c == 'C' then 11 else
    if c == 'D' then 12 else if c == 'E' then 13 else if c == 'F' then 14 else if c == 'G' then 15 else
    if c == 'H' then 16 else if c == 'J' then 17 else if c == 'K' then 18 else if c == 'L' then 19 else
    if c == 'M' then 20 else if c == 'N' then 21 else if c == 'P' then 22 else if c == 'Q' then 23 else
    if c == 'R' then 24 else if c == 'S' then 25 else if c == 'T' then 26 else if c == 'U' then 27 else
    if c == 'V' then 28 else if c == 'W' then 29 else if c == 'X' then 30 else if c == 'Y' then 31 else
    if c == 'Z' then 32 else if c == 'a' then 33 else if c == 'b' then 34 else if c == 'c' then 35 else
    if c == 'd' then 36 else if c == 'e' then 37 else if c == 'f' then 38 else if c == 'g' then 39 else
    if c == 'h' then 40 else if c == 'i' then 41 else if c == 'j' then 42 else if c == 'k' then 43 else
    if c == 'm' then 44 else if c == 'n' then 45 else if c == 'o' then 46 else if c == 'p' then 47 else
    if c == 'q' then 48 else if c == 'r' then 49 else if c == 's' then 50 else if c == 't' then 51 else
    if c == 'u' then 52 else if c == 'v' then 53 else if c == 'w' then 54 else if c == 'x' then 55 else
    if c == 'y' then 56 else if c == 'z' then 57 else -1
  }

  lemma AlphabetRound(d: nat)
    requires d < 58
    ensures Find(Alphabet(d)) == d && !IsSpace(Alphabet(d)) && (Alphabet(d) == '1' <==> d == 0)
  {
  }

  lemma FindRange(c: char)
    ensures -1 <= Find(c) < 58
  {
  }

  predicate IsSpace(c: char) {
    c == ' ' || 9 <= c as int <= 13
  }

  // ---- encoding ----

  function LeadingZeros(s: seq<nat>): (r: nat)
    ensures r <= |s| && (forall i | 0 <= i < r :: s[i] == 0) && (r < |s| ==> s[r] != 0)
  {
    if s != [] && s[0] == 0 then 1 + LeadingZeros(s[1..]) else 0
  }

  function Letters(s: seq<nat>): (r: string)
    requires DigitsOf(s, 58)
    ensures |r| == |s|
  {
    seq(|s|, i requires 0 <= i < |s| => Alphabet(s[i]))
  }

  function Repeat<T>(x: T, n: nat): (r: seq<T>)
    ensures |r| == n && forall i | 0 <= i < n :: r[i] == x
  {
    seq(n, i => x)
  }

  function Encoded(bytes: seq<nat>): string {
    var z := LeadingZeros(bytes);
    Repeat('1', z) + Letters(Digits(Number(bytes[z..], 256), 58))
  }

  method EncodeBase58(bytes: seq<nat>) returns (s: string)
    requires DigitsOf(bytes, 256)
    ensures s == Encoded(bytes)
  {
    hide Digits, Pow, Number, Value, Alphabet;
    var z := 0;
    while z < |bytes| && bytes[z] == 0
      invariant 0 <= z <= |bytes| && forall i | 0 <= i < z :: bytes[i] == 0
    {
      z := z + 1;
    }
    ZerosUnique(bytes, z);
    var rest := bytes[z..];
    var size := |rest| * 138 / 100 + 1;
    var buf, length := Repeat(0, size), 0;
    BytesFit(|rest|);
    EmptyBuffer(buf, 58);
    assert rest[..0] == [];
    for k := 0 to |rest|
      invariant |buf| == size && DigitsOf(buf, 58) && Clear(buf, length) && Value(buf, 58) == Number(rest[..k], 256)
    {
      NextFits(rest, 256, k, Pow(58, size));
      buf, length := MultiplyAdd(buf, 58, 256, rest[k], length);
    }
    assert rest[..|rest|] == rest;
    var digits := ReadOff(buf, 58, length);
    s := Repeat('1', z);
    for k := 0 to |digits|
      invariant s == Repeat('1', z) + Letters(digits)[..k]
    {
      s := s + [Alphabet(digits[k])];
    }
  }

  lemma ZerosUnique(s: seq<nat>, z: nat)
    requires z <= |s| && (forall i | 0 <= i < z :: s[i] == 0) && (z < |s| ==> s[z] != 0)
    ensures LeadingZeros(s) == z
  {
  }

  lemma EmptyBuffer(buf: seq<nat>, base: nat)
    requires base > 0 && forall i | 0 <= i < |buf| :: buf[i] == 0
    ensures Value(buf, base) == 0 && DigitsOf(buf, base) && Clear(buf, 0) && Number([], 256) == 0 && Number([], 58) == 0
  {
    ZerosAbove(buf, base, 0);
  }

  /** The number of one more digit stays within what the buffer can hold. */
  lemma NextFits(s: seq<nat>, base: nat, k: nat, range: nat)
    requires base > 0 && k < |s| && DigitsOf(s, base) && Pow(base, |s|) <= range
    ensures Number(s[..k + 1], base) == Number(s[..k], base) * base + s[k] < range
  {
    assert s[..k + 1][..k] == s[..k];
    NumberBound(s[..k + 1], base);
    PowGrows(base, k + 1, |s|);
  }

  // ---- decoding ----

  datatype Result = Refused | Bytes(bytes: seq<nat>)

  function SkipSpaces(s: string): (r: nat)
    ensures r <= |s| && (forall i | 0 <= i < r :: IsSpace(s[i])) && (r < |s| ==> !IsSpace(s[r]))
  {
    if s != [] && IsSpace(s[0]) then 1 + SkipSpaces(s[1..]) else 0
  }

  function LeadingOnes(s: string): (r: nat)
    ensures r <= |s| && (forall i | 0 <= i < r :: s[i] == '1') && (r < |s| ==> s[r] != '1')
  {
    if s != [] && s[0] == '1' then 1 + LeadingOnes(s[1..]) else 0
  }

  /** The characters before the first space. */
  function Word(s: string): (r: nat)
    ensures r <= |s| && (forall i | 0 <= i < r :: !IsSpace(s[i])) && (r < |s| ==> IsSpace(s[r]))
  {
    if s != [] && !IsSpace(s[0]) then 1 + Word(s[1..]) else 0
  }

  predicate AllFound(s: string) {
    forall i | 0 <= i < |s| :: Find(s[i]) >= 0
  }

  function Values(s: string): (r: seq<nat>)
    requires AllFound(s)
    ensures |r| == |s| && DigitsOf(r, 58)
  {
    seq(|s|, i requires 0 <= i < |s| => FindRange(s[i]); Find(s[i]))
  }

  /** The leading ones, the word after them, and what follows the word. */
  datatype Parts = Parts(ones: nat, word: string, tail: string)

  function Split(s: string): Parts {
    var t := s[SkipSpaces(s)..];
    var z := LeadingOnes(t);
    var u := t[z..];
    Parts(z, u[..Word(u)], u[Word(u)..])
  }

  /** Spaces, ones, digits, spaces; the string ends where a NUL would end it. */
  function Decoded(s: string): Result {
    var p := Split(s);
    if !AllFound(p.word) || SkipSpaces(p.tail) != |p.tail| then Refused
    else Bytes(Repeat(0, p.ones) + Digits(Number(Values(p.word), 58), 256))
  }

  method CountSpaces(s: string) returns (n: nat)
    ensures n == SkipSpaces(s)
  {
    n := 0;
    while n < |s| && IsSpace(s[n])
      invariant 0 <= n <= |s| && forall i | 0 <= i < n :: IsSpace(s[i])
    {
      n := n + 1;
    }
    SpacesUnique(s, n);
  }

  method CountOnes(s: string) returns (n: nat)
    ensures n == LeadingOnes(s)
  {
    n := 0;
    while n < |s| && s[n] == '1'
      invariant 0 <= n <= |s| && forall i | 0 <= i < n :: s[i] == '1'
    {
      n := n + 1;
    }
    OnesUnique(s, n);
  }

  method DecodeBase58(s: string) returns (r: Result)
    ensures r == Decoded(s)
  {
    hide Digits, Number, SkipSpaces, LeadingOnes, Word, AllFound, Values;
    var p := CountSpaces(s);
    var t := s[p..];
    var z := CountOnes(t);
    var u := t[z..];
    var ok, bytes, n := DecodeWord(u);
    if !ok {
      return Refused;
    }
    var e := CountSpaces(u[n..]);
    if n + e != |u| {
      return Refused;
    }
    r := Bytes(Repeat(0, z) + bytes);
  }

  /** The characters up to the next space as one number, in bytes. */
  method DecodeWord(u: string) returns (ok: bool, bytes: seq<nat>, n: nat)
    ensures ok <==> AllFound(u[..Word(u)])
    ensures ok ==> n == Word(u) && bytes == Digits(Number(Values(u[..n]), 58), 256)
  {
    hide Digits, Pow, Number, Value, Find;
    var size := |u| * 733 / 1000 + 1;
    var buf, length := Repeat(0, size), 0;
    DigitsFit(|u|);
    EmptyBuffer(buf, 256);
    n := 0;
    bytes := [];
    assert Values(u[..0]) == [];
    while n < |u| && !IsSpace(u[n])
      invariant 0 <= n <= |u| && (forall i | 0 <= i < n :: !IsSpace(u[i])) && AllFound(u[..n])
      invariant |buf| == size && DigitsOf(buf, 256) && Clear(buf, length) &&
                Value(buf, 256) == Number(Values(u[..n]), 58)
    {
      var d := Find(u[n]);
      FindRange(u[n]);
      WordLonger(u, n);
      if d < 0 {
        assert u[..Word(u)][n] == u[n];
        return false, [], n;
      }
      ValuesNext(u, n);
      WordFits(u, n, size);
      buf, length := MultiplyAdd(buf, 256, 58, d, length);
      n := n + 1;
    }
    WordUnique(u, n);
    bytes := ReadOff(buf, 256, length);
    ok := true;
  }

  lemma ValuesNext(u: string, n: nat)
    requires n < |u| && AllFound(u[..n]) && Find(u[n]) >= 0
    ensures AllFound(u[..n + 1]) && Values(u[..n + 1]) == Values(u[..n]) + [Find(u[n])]
  {
    hide Find;
    var more := u[..n + 1];
    forall i | 0 <= i < |more| ensures Find(more[i]) >= 0
    {
      if i < n {
        assert u[..n][i] == more[i] && Find(u[..n][i]) >= 0;
      }
    }
    forall i | 0 <= i < n + 1 ensures Values(u[..n + 1])[i] == (Values(u[..n]) + [Find(u[n])])[i]
    {
      if i < n {
        assert u[..n][i] == u[..n + 1][i];
      }
    }
  }

  lemma WordFits(u: string, n: nat, size: nat)
    requires n < |u| && AllFound(u[..n + 1]) && AllFound(u[..n]) && Find(u[n]) >= 0 && Pow(58, |u|) <= Pow(256, size)
    requires Values(u[..n + 1]) == Values(u[..n]) + [Find(u[n])]
    ensures Number(Values(u[..n + 1]), 58) == Number(Values(u[..n]), 58) * 58 + Find(u[n]) < Pow(256, size)
  {
    hide Pow, Find;
    var v := Values(u[..n + 1]);
    assert v[..n] == Values(u[..n]);
    NumberBound(v, 58);
    PowGrows(58, n + 1, |u|);
  }

  lemma SpacesUnique(s: string, z: nat)
    requires z <= |s| && (forall i | 0 <= i < z :: IsSpace(s[i])) && (z < |s| ==> !IsSpace(s[z]))
    ensures SkipSpaces(s) == z
  {
  }

  lemma OnesUnique(s: string, z: nat)
    requires z <= |s| && (forall i | 0 <= i < z :: s[i] == '1') && (z < |s| ==> s[z] != '1')
    ensures LeadingOnes(s) == z
  {
  }

  lemma WordUnique(s: string, z: nat)
    requires z <= |s| && (forall i | 0 <= i < z :: !IsSpace(s[i])) && (z < |s| ==> IsSpace(s[z]))
    ensures Word(s) == z
  {
  }

  lemma WordLonger(s: string, n: nat)
    requires n < |s| && forall i | 0 <= i <= n :: !IsSpace(s[i])
    ensures n < Word(s)
  {
  }

  // ---- the round trip ----

  /** An encoding falls into its ones and its letters. */
  lemma SplitOf(z: nat, d: seq<nat>)
    requires DigitsOf(d, 58) && (d != [] ==> d[0] != 0)
    ensures Split(Repeat('1', z) + Letters(d)) == Parts(z, Letters(d), [])
  {
    hide Find, Alphabet, IsSpace;
    LettersRound(d);
    OneIsNoSpace();
    var u := Letters(d);
    var s := Repeat('1', z) + u;
    SpacesUnique(s, 0);
    assert s[0..] == s;
    OnesUnique(s, z);
    assert s[z..] == u;
    WordUnique(u, |u|);
    assert u[..|u|] == u;
  }

  /** Decoding an encoding gives the bytes back, leading zeros included. */
  lemma RoundTrip(bytes: seq<nat>)
    requires DigitsOf(bytes, 256)
    ensures Decoded(Encoded(bytes)) == Bytes(bytes)
  {
    hide Digits, Number, Split, Letters, Values, AllFound, LeadingZeros;
    var z := LeadingZeros(bytes);
    var rest := bytes[z..];
    var v := Number(rest, 256);
    var d := Digits(v, 58);
    SplitOf(z, d);
    LettersRound(d);
    NumberOfDigits(v, 58);
    DigitsOfNumber(rest, 256);
    assert bytes == Repeat(0, z) + rest;
  }

  lemma OneIsNoSpace()
    ensures !IsSpace('1')
  {
  }

  lemma LettersRound(d: seq<nat>)
    requires DigitsOf(d, 58)
    ensures AllFound(Letters(d)) && Values(Letters(d)) == d
    ensures forall i | 0 <= i < |d| :: !IsSpace(Letters(d)[i]) && (Letters(d)[i] == '1' <==> d[i] == 0)
  {
    hide Find, Alphabet, IsSpace;
    forall i | 0 <= i < |d|
      ensures Find(Letters(d)[i]) == d[i] && !IsSpace(Letters(d)[i]) && (Letters(d)[i] == '1' <==> d[i] == 0)
    {
      AlphabetRound(d[i]);
    }
  }

  lemma FindRound(c: char)
    requires Find(c) >= 0
    ensures Find(c) < 58 && Alphabet(Find(c)) == c && (Find(c) == 0 <==> c == '1')
  {
  }

  lemma ValuesRound(s: string)
    requires AllFound(s)
    ensures Letters(Values(s)) == s && forall i | 0 <= i < |s| :: Values(s)[i] == 0 <==> s[i] == '1'
  {
    hide Find, Alphabet;
    forall i | 0 <= i < |s| ensures Letters(Values(s))[i] == s[i] && (Values(s)[i] == 0 <==> s[i] == '1')
    {
      FindRound(s[i]);
    }
  }

  lemma WordCanonical(z: nat, w: string)
    requires AllFound(w) && (w != [] ==> w[0] != '1')
    ensures Encoded(Repeat(0, z) + Digits(Number(Values(w), 58), 256)) == Repeat('1', z) + w
  {
    hide Digits, Number, Find, Alphabet, LeadingZeros;
    var d := Values(w);
    ValuesRound(w);
    DigitsOfNumber(d, 58);
    var v := Number(d, 58);
    NumberOfDigits(v, 256);
    var b := Repeat(0, z) + Digits(v, 256);
    ZerosUnique(b, z);
    assert b[z..] == Digits(v, 256);
  }

  ghost predicate Spaces(s: string) {
    forall i | 0 <= i < |s| :: IsSpace(s[i])
  }

  /** Putting the parts together again. */
  lemma SplitIs(s: string)
    ensures var p := Split(s);
            && Spaces(s[..SkipSpaces(s)]) && s == s[..SkipSpaces(s)] + (Repeat('1', p.ones) + p.word) + p.tail
            && (p.word != [] ==> p.word[0] != '1') && (SkipSpaces(p.tail) == |p.tail| ==> Spaces(p.tail))
  {
    hide IsSpace, LeadingOnes, SkipSpaces, Word;
    var p, n := Split(s), SkipSpaces(s);
    var t := s[n..];
    OnesAndWord(t, p.ones, Word(t[p.ones..]));
    assert s == s[..n] + t;
    Regroup(s[..n], Repeat('1', p.ones), p.word, p.tail);
  }

  lemma OnesAndWord(t: string, z: nat, n: nat)
    requires z <= |t| && n <= |t[z..]| && (forall i | 0 <= i < z :: t[i] == '1') && (z < |t| ==> t[z] != '1')
    ensures t == Repeat('1', z) + (t[z..][..n] + t[z..][n..]) && (n > 0 ==> t[z..][0] != '1')
  {
    assert t[z..] == t[z..][..n] + t[z..][n..];
    assert t[..z] == Repeat('1', z);
  }

  /** What a string decodes to encodes to that string, without the spaces around it. */
  lemma Canonical(s: string) returns (lead: string, tail: string)
    requires Decoded(s).Bytes?
    ensures Spaces(lead) && Spaces(tail) && s == lead + Encoded(Decoded(s).bytes) + tail
  {
    hide Digits, Number, SkipSpaces, Split, Encoded, Values, AllFound, Spaces;
    var p := Split(s);
    lead, tail := s[..SkipSpaces(s)], p.tail;
    SplitIs(s);
    WordCanonical(p.ones, p.word);
  }

  lemma Regroup(a: string, b: string, c: string, d: string)
    ensures a + (b + (c + d)) == a + (b + c) + d
  {
  }
}
