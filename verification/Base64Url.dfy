/** base64url without padding (section 5 of RFC 4648), built on `btoa` and `atob`. */
module Base64Url {
  import opened Wrappers

  /** Bits in pairs: a byte is four digits in base four, a sextet is three. */
  type Digit = n: int | 0 <= n < 4

  datatype Byte = Byte(b3: Digit, b2: Digit, b1: Digit, b0: Digit)

  datatype Sextet = Sextet(s2: Digit, s1: Digit, s0: Digit)

  function Value(b: Byte): (n: int)
    ensures 0 <= n < 256
  {
    64 * b.b3 + 16 * b.b2 + 4 * b.b1 + b.b0
  }

  function Number(s: Sextet): (n: int)
    ensures 0 <= n < 64
  {
    16 * s.s2 + 4 * s.s1 + s.s0
  }

  function SextetWith(n: int): Sextet
    requires 0 <= n < 64
  {
    Sextet(n / 16, n / 4 % 4, n % 4)
  }

  // ---------------------------------------------------------------- groups of four symbols

  /** How many symbols the last, incomplete group has: `n % 4`. */
  function Rest(n: nat): (r: nat)
    ensures r < 4
  {
    if n < 4 then n else Rest(n - 4)
  }

  /** How many padding symbols complete it. */
  function Missing(n: nat): nat { if Rest(n) == 0 then 0 else 4 - Rest(n) }

  lemma {:induction false} RestIsRemainder(n: nat)
    ensures Rest(n) == n % 4 && Missing(n) == (4 - n % 4) % 4
  {
    if n >= 4 {
      RestIsRemainder(n - 4);
    }
  }

  // ---------------------------------------------------------------- bytes and sextets

  const ZERO := Byte(0, 0, 0, 0)

  function Sextet0(a: Byte): Sextet { Sextet(a.b3, a.b2, a.b1) }

  function Sextet1(a: Byte, b: Byte): Sextet { Sextet(a.b0, b.b3, b.b2) }

  function Sextet2(b: Byte, c: Byte): Sextet { Sextet(b.b1, b.b0, c.b3) }

  function Sextet3(c: Byte): Sextet { Sextet(c.b2, c.b1, c.b0) }

  /** Three bytes are four sextets; a last group of one or two bytes is two or three. */
  function Sextets(bytes: seq<Byte>): seq<Sextet> {
    if bytes == [] then []
    else if |bytes| == 1 then [Sextet0(bytes[0]), Sextet1(bytes[0], ZERO)]
    else if |bytes| == 2 then [Sextet0(bytes[0]), Sextet1(bytes[0], bytes[1]), Sextet2(bytes[1], ZERO)]
    else
      [Sextet0(bytes[0]), Sextet1(bytes[0], bytes[1]), Sextet2(bytes[1], bytes[2]), Sextet3(bytes[2])]
      + Sextets(bytes[3..])
  }

  function Byte0(p: Sextet, q: Sextet): Byte { Byte(p.s2, p.s1, p.s0, q.s2) }

  function Byte1(q: Sextet, r: Sextet): Byte { Byte(q.s1, q.s0, r.s2, r.s1) }

  function Byte2(r: Sextet, t: Sextet): Byte { Byte(r.s0, t.s2, t.s1, t.s0) }

  /** The whole bytes in a list of sextets; bits left over are dropped. */
  function Bytes(sextets: seq<Sextet>): seq<Byte> {
    if |sextets| < 2 then []
    else if |sextets| == 2 then [Byte0(sextets[0], sextets[1])]
    else if |sextets| == 3 then [Byte0(sextets[0], sextets[1]), Byte1(sextets[1], sextets[2])]
    else
      [Byte0(sextets[0], sextets[1]), Byte1(sextets[1], sextets[2]), Byte2(sextets[2], sextets[3])]
      + Bytes(sextets[4..])
  }

  lemma FullGroup(p: Sextet, q: Sextet, r: Sextet, t: Sextet, rest: seq<Sextet>)
    ensures Bytes([p, q, r, t] + rest) == [Byte0(p, q), Byte1(q, r), Byte2(r, t)] + Bytes(rest)
  {
    assert ([p, q, r, t] + rest)[4..] == rest;
  }

  lemma {:induction false} BytesOfSextets(bytes: seq<Byte>)
    ensures Bytes(Sextets(bytes)) == bytes
    ensures Rest(|Sextets(bytes)|) != 1 && |Sextets(bytes)| <= 4 * |bytes|
    decreases |bytes|
  {
    if |bytes| > 2 {
      var a, b, c := bytes[0], bytes[1], bytes[2];
      BytesOfSextets(bytes[3..]);
      FullGroup(Sextet0(a), Sextet1(a, b), Sextet2(b, c), Sextet3(c), Sextets(bytes[3..]));
      assert bytes == [a, b, c] + bytes[3..];
    }
  }

  // ---------------------------------------------------------------- sextets and symbols

  /** The digits of the alphabet, in order. */
  function SymbolAt(n: int): char
    requires 0 <= n < 64
  {
    if n < 26 then ('A' as int + n) as char
    else if n < 52 then ('a' as int + n - 26) as char
    else if n < 62 then ('0' as int + n - 52) as char
    else if n == 62 then '+' else '/'
  }

  function Symbol(s: Sextet): char { SymbolAt(Number(s)) }

  function SextetOf(c: char): Option<Sextet> {
    if 'A' <= c <= 'Z' then Some(SextetWith(c as int - 'A' as int))
    else if 'a' <= c <= 'z' then Some(SextetWith(c as int - 'a' as int + 26))
    else if '0' <= c <= '9' then Some(SextetWith(c as int - '0' as int + 52))
    else if c == '+' then Some(SextetWith(62)) else if c == '/' then Some(SextetWith(63)) else None
  }

  function Text(sextets: seq<Sextet>): string {
    if sextets == [] then "" else [Symbol(sextets[0])] + Text(sextets[1..])
  }

  function Read(s: string): Option<seq<Sextet>> {
    if s == "" then Some([])
    else if SextetOf(s[0]).None? then None
    else
      match Read(s[1..])
      case None => None
      case Some(rest) => Some([SextetOf(s[0]).value] + rest)
  }

  function Equals(n: nat): string { if n == 0 then "" else Equals(n - 1) + "=" }

  /** The text is padded to whole groups of four. */
  function Btoa(bytes: seq<Byte>): string { Text(Sextets(bytes)) + Equals(Missing(|Sextets(bytes)|)) }

  function WithoutEquals(s: string, n: nat): string {
    if n > 0 && s != "" && s[|s| - 1] == '=' then WithoutEquals(s[..|s| - 1], n - 1) else s
  }

  /** Whole groups may end with up to two padding symbols; one symbol alone is no group. */
  function Atob(s: string): Option<seq<Byte>> {
    var symbols := if Rest(|s|) == 0 then WithoutEquals(s, 2) else s;
    if Rest(|symbols|) == 1 then None
    else
      match Read(symbols)
      case None => None
      case Some(sextets) => Some(Bytes(sextets))
  }

  // ---------------------------------------------------------------- the URL alphabet

  function ToUrlSymbol(c: char): char { if c == '+' then '-' else if c == '/' then '_' else c }

  function FromUrlSymbol(c: char): char { if c == '-' then '+' else if c == '_' then '/' else c }

  function ToUrl(s: string): string { seq(|s|, i requires 0 <= i < |s| => ToUrlSymbol(s[i])) }

  function FromUrl(s: string): string { seq(|s|, i requires 0 <= i < |s| => FromUrlSymbol(s[i])) }

  function StripPadding(s: string): string {
    if s != "" && s[|s| - 1] == '=' then StripPadding(s[..|s| - 1]) else s
  }

  function Encode(bytes: seq<Byte>): string { StripPadding(ToUrl(Btoa(bytes))) }

  method BytesToBase64Url(bytes: array<Byte>) returns (value: string)
    ensures value == Encode(bytes[..])
  {
    var binary: seq<Byte> := [];
    for i := 0 to bytes.Length
      invariant binary == bytes[..i]
    {
      binary := binary + [bytes[i]];
    }
    assert bytes[..bytes.Length] == bytes[..];
    return StripPadding(ToUrl(Btoa(binary)));
  }

  predicate IsUrlSymbol(c: char) {
    'A' <= c <= 'Z' || 'a' <= c <= 'z' || '0' <= c <= '9' || c == '-' || c == '_'
  }

  predicate IsUrlText(s: string) { forall i :: 0 <= i < |s| ==> IsUrlSymbol(s[i]) }

  function Decode(value: string): Option<seq<Byte>> {
    if !IsUrlText(value) || Rest(|value|) == 1 then None
    else Atob(FromUrl(value + Equals(Missing(|value|))))
  }

  /** The decoder fills a byte array from the binary text. */
  method DecodeBase64Url(value: string) returns (bytes: array?<Byte>)
    ensures bytes == null <==> Decode(value).None?
    ensures bytes != null ==> fresh(bytes) && bytes[..] == Decode(value).value
  {
    if !IsUrlText(value) || Rest(|value|) == 1 { return null; }
    var binary := Atob(FromUrl(value + Equals(Missing(|value|))));
    if binary.None? { return null; }
    var filled := new Byte[|binary.value|];
    for index := 0 to |binary.value|
      invariant filled[..index] == binary.value[..index]
    {
      filled[index] := binary.value[index];
    }
    return filled;
  }

  /** The other decoder appends a slice of three padding symbols and checks nothing first. */
  function SlicePadding(n: nat): string { "==="[(n + 3) % 4..] }

  function ToBytes(value: string): Option<seq<Byte>> { Atob(FromUrl(value) + SlicePadding(|value|)) }

  // ---------------------------------------------------------------- padding

  lemma SliceIs(k: nat)
    requires k <= 3
    ensures "==="[k..] == Equals(3 - k)
  {
    EqualsAre(3 - k);
  }

  lemma Remainders(n: nat)
    ensures (n + 3) % 4 == if n % 4 == 0 then 3 else n % 4 - 1
    ensures 3 - (n + 3) % 4 == (4 - n % 4) % 4
  {
  }

  /** The two padding formulas agree on every length. */
  lemma PaddingsAgree(n: nat)
    ensures SlicePadding(n) == Equals((4 - n % 4) % 4) == Equals(Missing(n))
  {
    RestIsRemainder(n);
    Remainders(n);
    SliceIs((n + 3) % 4);
  }

  lemma {:induction false} EqualsAre(n: nat)
    ensures |Equals(n)| == n && forall i :: 0 <= i < n ==> Equals(n)[i] == '='
  {
    if n > 0 { EqualsAre(n - 1); }
  }

  lemma OneEqualsGoes(s: string, n: nat)
    requires n > 0
    ensures var padded := s + Equals(n);
            |padded| > 0 && padded[|padded| - 1] == '=' && padded[..|padded| - 1] == s + Equals(n - 1)
  {
  }

  lemma {:induction false} EqualsGo(s: string, n: nat, m: nat)
    requires n <= m && (s == "" || s[|s| - 1] != '=')
    ensures WithoutEquals(s + Equals(n), m) == s && StripPadding(s + Equals(n)) == s
  {
    if n == 0 {
      assert s + Equals(n) == s;
    } else {
      OneEqualsGoes(s, n);
      EqualsGo(s, n - 1, m - 1);
    }
  }

  lemma {:induction false} SomeEqualsGo(s: string, n: nat, m: nat)
    requires m <= n
    ensures WithoutEquals(s + Equals(n), m) == s + Equals(n - m)
  {
    if m > 0 {
      OneEqualsGoes(s, n);
      SomeEqualsGo(s, n - 1, m - 1);
    }
  }

  lemma {:induction false} ReadNeedsSymbols(s: string, i: nat)
    requires i < |s| && SextetOf(s[i]).None?
    ensures Read(s).None?
  {
    if i > 0 { ReadNeedsSymbols(s[1..], i - 1); }
  }

  /** Three padding symbols are never accepted: one is left when two are taken off. */
  lemma ThreeEqualsFail(s: string)
    requires Rest(|s|) == 1
    ensures Atob(s + Equals(3)).None?
  {
    EqualsAre(3);
    WholeGroups(|s|);
    SomeEqualsGo(s, 3, 2);
    OneLeftOver(s);
  }

  lemma OneLeftOver(s: string)
    ensures Read(s + Equals(1)).None?
  {
    EqualsAre(1);
    var t := s + Equals(1);
    assert t[|s|] == '=';
    ReadNeedsSymbols(t, |s|);
  }

  lemma FromUrlPadded(value: string, n: nat)
    ensures FromUrl(value + Equals(n)) == FromUrl(value) + Equals(n) && |FromUrl(value)| == |value|
  {
    EqualsAre(n);
  }

  /** On the URL alphabet the two decoders are the same function, rejections included. */
  lemma DecodersAgree(value: string)
    requires IsUrlText(value)
    ensures ToBytes(value) == Decode(value)
  {
    PaddingsAgree(|value|);
    FromUrlPadded(value, Missing(|value|));
    if Rest(|value|) == 1 { ThreeEqualsFail(FromUrl(value)); }
  }

  // ---------------------------------------------------------------- the round trip

  lemma SextetIsItsNumber(s: Sextet)
    ensures SextetWith(Number(s)) == s
  {
  }

  lemma SymbolsReadBack(s: Sextet)
    ensures SextetOf(Symbol(s)) == Some(s) && IsUrlSymbol(ToUrlSymbol(Symbol(s))) && Symbol(s) != '='
    ensures FromUrlSymbol(ToUrlSymbol(Symbol(s))) == Symbol(s)
  {
    SextetIsItsNumber(s);
  }

  lemma {:induction false} TextReadsBack(sextets: seq<Sextet>)
    ensures Read(Text(sextets)) == Some(sextets) && |Text(sextets)| == |sextets|
    decreases |sextets|
  {
    if sextets != [] {
      SymbolsReadBack(sextets[0]);
      TextReadsBack(sextets[1..]);
      assert Text(sextets)[1..] == Text(sextets[1..]) && [sextets[0]] + sextets[1..] == sextets;
    }
  }

  lemma {:induction false} TextAt(sextets: seq<Sextet>, i: nat)
    requires i < |sextets|
    ensures |Text(sextets)| == |sextets| && Text(sextets)[i] == Symbol(sextets[i])
  {
    TextReadsBack(sextets);
    if i > 0 { TextAt(sextets[1..], i - 1); }
  }

  lemma TextInUrl(sextets: seq<Sextet>)
    ensures IsUrlText(ToUrl(Text(sextets))) && FromUrl(ToUrl(Text(sextets))) == Text(sextets)
  {
    TextReadsBack(sextets);
    var text := Text(sextets);
    forall i | 0 <= i < |text|
      ensures IsUrlSymbol(ToUrl(text)[i]) && FromUrl(ToUrl(text))[i] == text[i]
    {
      TextAt(sextets, i);
      SymbolsReadBack(sextets[i]);
    }
  }

  /** An encoding is the symbols of the `btoa` text in the URL alphabet, without the padding. */
  lemma EncodedText(bytes: seq<Byte>)
    ensures Encode(bytes) == ToUrl(Text(Sextets(bytes))) && |Encode(bytes)| == |Sextets(bytes)|
  {
    var text, n := Text(Sextets(bytes)), Missing(|Sextets(bytes)|);
    TextReadsBack(Sextets(bytes));
    TextInUrl(Sextets(bytes));
    ToUrlPadded(text, n);
    if text != "" { assert IsUrlSymbol(ToUrl(text)[|text| - 1]); }
    EqualsGo(ToUrl(text), n, n);
  }

  lemma ToUrlPadded(text: string, n: nat)
    ensures ToUrl(text + Equals(n)) == ToUrl(text) + Equals(n)
  {
    EqualsAre(n);
  }

  lemma {:induction false} WholeGroups(n: nat)
    ensures Rest(n + Missing(n)) == 0 && Rest(n) < 4
  {
    if n >= 4 { WholeGroups(n - 4); }
  }

  lemma WholeGroupsRead(sextets: seq<Sextet>)
    requires Rest(|sextets|) != 1
    ensures Atob(Text(sextets) + Equals(Missing(|sextets|))) == Some(Bytes(sextets))
  {
    var n := Missing(|sextets|);
    TextReadsBack(sextets);
    EqualsAre(n);
    if sextets != [] { LastSymbol(sextets); }
    EqualsGo(Text(sextets), n, 2);
    WholeGroups(|sextets|);
  }

  /** Decoding undoes encoding, for every byte string. */
  lemma DecodeUndoesEncode(bytes: seq<Byte>)
    ensures IsUrlText(Encode(bytes)) && Decode(Encode(bytes)) == Some(bytes) && ToBytes(Encode(bytes)) == Some(bytes)
  {
    var sextets := Sextets(bytes);
    BytesOfSextets(bytes);
    EncodedText(bytes);
    TextInUrl(sextets);
    FromUrlPadded(Encode(bytes), Missing(|sextets|));
    WholeGroupsRead(sextets);
    DecodersAgree(Encode(bytes));
  }

  lemma {:induction false} LastSymbol(sextets: seq<Sextet>)
    requires sextets != []
    ensures |Text(sextets)| == |sextets| && Text(sextets)[|sextets| - 1] != '='
  {
    SymbolsReadBack(sextets[0]);
    if |sextets| > 1 { LastSymbol(sextets[1..]); }
  }

  /** Different byte strings are encoded differently. */
  lemma EncodeIsInjective(a: seq<Byte>, b: seq<Byte>)
    requires Encode(a) == Encode(b)
    ensures a == b
  {
    DecodeUndoesEncode(a);
    DecodeUndoesEncode(b);
  }

  /** An encoding has at most four symbols for every byte. */
  lemma EncodedLength(bytes: seq<Byte>)
    ensures |Encode(bytes)| <= 4 * |bytes|
  {
    BytesOfSextets(bytes);
    EncodedText(bytes);
  }
}
