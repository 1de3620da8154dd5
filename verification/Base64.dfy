/** Base64 without padding (RFC 4648 sections 4 and 5), on bytes. */
module Base64 {
  import opened Wrappers
  import opened Bytes

  /** The alphabets of section 4 (`+` and `/`) and section 5 (`-` and `_`). */
  datatype Alphabet = Standard | UrlSafe

  type Sextet = n: int | 0 <= n < 64

  function Symbol(alphabet: Alphabet, n: Sextet): byte {
    if n < 26 then (n + 'A' as int) as char
    else if n < 52 then (n - 26 + 'a' as int) as char
    else if n < 62 then (n - 52 + '0' as int) as char
    else if n == 62 then (if alphabet.Standard? then '+' else '-')
    else (if alphabet.Standard? then '/' else '_')
  }

  predicate InAlphabet(alphabet: Alphabet, c: byte) {
    IsAlphanumeric(c) || (if alphabet.Standard? then c == '+' || c == '/' else c == '-' || c == '_')
  }

  function Index(alphabet: Alphabet, c: byte): (n: Sextet)
    requires InAlphabet(alphabet, c)
    ensures Symbol(alphabet, n) == c
  {
    if IsUpper(c) then c as int - 'A' as int
    else if IsLower(c) then c as int - 'a' as int + 26
    else if IsDigit(c) then c as int - '0' as int + 52
    else if c == '+' || c == '-' then 62
    else 63
  }

  // The four sextets of three bytes, and the three bytes of four sextets.

  function Sextet0(a: byte): Sextet { a as int / 4 }
  function Sextet1(a: byte, b: byte): Sextet { a as int % 4 * 16 + b as int / 16 }
  function Sextet2(b: byte, c: byte): Sextet { b as int % 16 * 4 + c as int / 64 }
  function Sextet3(c: byte): Sextet { c as int % 64 }

  function Byte0(s0: int, s1: int): byte
    requires 0 <= s0 < 64 && 0 <= s1 < 64
  {
    (s0 * 4 + s1 / 16) as char
  }

  function Byte1(s1: int, s2: int): byte
    requires 0 <= s1 < 64 && 0 <= s2 < 64
  {
    (s1 % 16 * 16 + s2 / 4) as char
  }

  function Byte2(s2: int, s3: int): byte
    requires 0 <= s2 < 64 && 0 <= s3 < 64
  {
    (s2 % 4 * 64 + s3) as char
  }

  lemma BytesOfSextets(a: byte, b: byte, c: byte)
    ensures Byte0(Sextet0(a), Sextet1(a, b)) == a
    ensures Byte1(Sextet1(a, b), Sextet2(b, c)) == b
    ensures Byte2(Sextet2(b, c), Sextet3(c)) == c
    ensures Sextet1(a, '\0') % 16 == 0 && Sextet2(b, '\0') % 4 == 0
  {
  }

  lemma SextetsOfBytes(s0: Sextet, s1: Sextet, s2: Sextet, s3: Sextet)
    ensures Sextet0(Byte0(s0, s1)) == s0
    ensures Sextet1(Byte0(s0, s1), Byte1(s1, s2)) == s1
    ensures Sextet2(Byte1(s1, s2), Byte2(s2, s3)) == s2
    ensures Sextet3(Byte2(s2, s3)) == s3
    ensures s1 % 16 == 0 ==> Sextet1(Byte0(s0, s1), '\0') == s1
    ensures s2 % 4 == 0 ==> Sextet2(Byte1(s1, s2), '\0') == s2
  {
  }

  function Sextets(bytes: Text): (s: seq<Sextet>)
    decreases |bytes|
  {
    if |bytes| == 0 then []
    else if |bytes| == 1 then [Sextet0(bytes[0]), Sextet1(bytes[0], '\0')]
    else if |bytes| == 2 then
      [Sextet0(bytes[0]), Sextet1(bytes[0], bytes[1]), Sextet2(bytes[1], '\0')]
    else
      [Sextet0(bytes[0]), Sextet1(bytes[0], bytes[1]), Sextet2(bytes[1], bytes[2]), Sextet3(bytes[2])]
      + Sextets(bytes[3..])
  }

  /** The bytes of a run of sextets; leftover bits at the end are dropped. One leftover sextet
      carries no whole byte and is an error. */
  function Octets(s: seq<Sextet>): Option<Text>
    decreases |s|
  {
    if |s| == 0 then Some([])
    else if |s| == 1 then None
    else if |s| == 2 then Some([Byte0(s[0], s[1])])
    else if |s| == 3 then Some([Byte0(s[0], s[1]), Byte1(s[1], s[2])])
    else match Octets(s[4..])
      case None => None
      case Some(rest) => Some([Byte0(s[0], s[1]), Byte1(s[1], s[2]), Byte2(s[2], s[3])] + rest)
  }

  /** No bits are set beyond the last whole byte. */
  predicate NoTrailingBits(s: seq<Sextet>) {
    match |s| % 4
    case 2 => s[|s| - 1] % 16 == 0
    case 3 => s[|s| - 1] % 4 == 0
    case _ => true
  }

  function SymbolsOf(alphabet: Alphabet, s: seq<Sextet>): (text: Text)
    ensures |text| == |s|
    ensures forall i | 0 <= i < |s| :: text[i] == Symbol(alphabet, s[i])
  {
    seq(|s|, i requires 0 <= i < |s| => Symbol(alphabet, s[i]))
  }

  predicate AllInAlphabet(alphabet: Alphabet, text: Text) {
    forall c | c in text :: InAlphabet(alphabet, c)
  }

  function IndicesOf(alphabet: Alphabet, text: Text): (s: seq<Sextet>)
    requires AllInAlphabet(alphabet, text)
    ensures |s| == |text|
    ensures forall i | 0 <= i < |s| :: s[i] == Index(alphabet, text[i])
  {
    seq(|text|, i requires 0 <= i < |text| => Index(alphabet, text[i]))
  }

  function Encode(alphabet: Alphabet, bytes: Text): (text: Text) {
    SymbolsOf(alphabet, Sextets(bytes))
  }

  /** A decoder that ignores the bits beyond the last whole byte. */
  function DecodeLenient(alphabet: Alphabet, text: Text): Option<Text> {
    if AllInAlphabet(alphabet, text) then Octets(IndicesOf(alphabet, text)) else None
  }

  predicate IsCanonical(alphabet: Alphabet, text: Text) {
    AllInAlphabet(alphabet, text) && NoTrailingBits(IndicesOf(alphabet, text))
  }

  /** The decoder of the `base64` crate: leftover bits must be zero. */
  function Decode(alphabet: Alphabet, text: Text): Option<Text> {
    if IsCanonical(alphabet, text) then DecodeLenient(alphabet, text) else None
  }

  /** Padding `Indifferent`: up to the canonical amount of `=` may follow. */
  function DecodePadded(alphabet: Alphabet, text: Text): Option<Text> {
    var body := StripPadding(text);
    var canonical := (4 - |body| % 4) % 4;
    if |text| - |body| <= canonical then Decode(alphabet, body) else None
  }

  function StripPadding(text: Text): (body: Text)
    ensures |body| <= |text|
  {
    if text != [] && text[|text| - 1] == '=' then StripPadding(text[..|text| - 1]) else text
  }

  lemma {:induction false} SextetsLength(bytes: Text)
    ensures |Sextets(bytes)| == |bytes| / 3 * 4 + (if |bytes| % 3 == 0 then 0 else |bytes| % 3 + 1)
    decreases |bytes|
  {
    if |bytes| >= 3 {
      SextetsLength(bytes[3..]);
    }
  }

  /** Six bits a sextet, and whole bytes only. */
  lemma {:induction false} OctetsLength(s: seq<Sextet>)
    ensures Octets(s).Some? <==> |s| % 4 != 1
    ensures Octets(s).Some? ==>
              |Octets(s).value| == |s| / 4 * 3 + (if |s| % 4 == 0 then 0 else |s| % 4 - 1)
    decreases |s|
  {
    if |s| >= 4 {
      OctetsLength(s[4..]);
    }
  }

  lemma OctetsOfOne(a: byte)
    ensures Octets(Sextets([a])) == Some([a]) && NoTrailingBits(Sextets([a]))
  {
  }

  lemma OctetsOfTwo(a: byte, b: byte)
    ensures Octets(Sextets([a, b])) == Some([a, b]) && NoTrailingBits(Sextets([a, b]))
  {
  }

  lemma TrailingStep(s0: Sextet, s1: Sextet, s2: Sextet, s3: Sextet, rest: seq<Sextet>)
    ensures NoTrailingBits(rest) ==> NoTrailingBits([s0, s1, s2, s3] + rest)
  {
    var s := [s0, s1, s2, s3] + rest;
    assert |s| % 4 == |rest| % 4;
  }

  lemma {:induction false} OctetsOfSextets(bytes: Text)
    ensures Octets(Sextets(bytes)) == Some(bytes)
    ensures NoTrailingBits(Sextets(bytes))
    decreases |bytes|
  {
    if |bytes| == 1 {
      OctetsOfOne(bytes[0]);
      assert bytes == [bytes[0]];
    } else if |bytes| == 2 {
      OctetsOfTwo(bytes[0], bytes[1]);
      assert bytes == [bytes[0], bytes[1]];
    } else if |bytes| >= 3 {
      OctetsOfSextets(bytes[3..]);
      var a, b, c := bytes[0], bytes[1], bytes[2];
      BytesOfSextets(a, b, c);
      TrailingStep(Sextet0(a), Sextet1(a, b), Sextet2(b, c), Sextet3(c), Sextets(bytes[3..]));
      assert bytes == [a, b, c] + bytes[3..];
    }
  }

  lemma SextetsStep(a: byte, b: byte, c: byte, rest: Text)
    ensures Sextets([a, b, c] + rest) == [Sextet0(a), Sextet1(a, b), Sextet2(b, c), Sextet3(c)] + Sextets(rest)
  {
    var bytes := [a, b, c] + rest;
    assert bytes[3..] == rest;
  }

  lemma GroupRoundTrip(s0: Sextet, s1: Sextet, s2: Sextet, s3: Sextet, rest: seq<Sextet>)
    requires Octets(rest).Some? && Sextets(Octets(rest).value) == rest
    ensures var octets := Octets([s0, s1, s2, s3] + rest);
            octets.Some? && Sextets(octets.value) == [s0, s1, s2, s3] + rest
  {
    SextetsOfBytes(s0, s1, s2, s3);
    SextetsStep(Byte0(s0, s1), Byte1(s1, s2), Byte2(s2, s3), Octets(rest).value);
  }

  lemma ShortRoundTrip(s: seq<Sextet>)
    requires |s| < 4 && Octets(s).Some? && NoTrailingBits(s)
    ensures Sextets(Octets(s).value) == s
  {
    if |s| == 2 {
      SextetsOfBytes(s[0], s[1], 0, 0);
    } else if |s| == 3 {
      SextetsOfBytes(s[0], s[1], s[2], 0);
    }
  }

  lemma {:induction false} SextetsOfOctets(s: seq<Sextet>)
    requires Octets(s).Some? && NoTrailingBits(s)
    ensures Sextets(Octets(s).value) == s
    decreases |s|
  {
    if |s| < 4 {
      ShortRoundTrip(s);
    } else {
      SextetsOfOctets(s[4..]);
      GroupRoundTrip(s[0], s[1], s[2], s[3], s[4..]);
    }
  }

  lemma IndicesOfSymbols(alphabet: Alphabet, s: seq<Sextet>)
    ensures AllInAlphabet(alphabet, SymbolsOf(alphabet, s))
    ensures IndicesOf(alphabet, SymbolsOf(alphabet, s)) == s
  {
  }

  /** Encoding stays in the alphabet and has the length RFC 4648 gives. */
  lemma EncodeShape(alphabet: Alphabet, bytes: Text)
    ensures AllInAlphabet(alphabet, Encode(alphabet, bytes))
    ensures |Encode(alphabet, bytes)| == |bytes| / 3 * 4 + (if |bytes| % 3 == 0 then 0 else |bytes| % 3 + 1)
  {
    IndicesOfSymbols(alphabet, Sextets(bytes));
    SextetsLength(bytes);
  }

  // ---- the bits of an encoding ----

  function Range(first: byte, last: byte): (r: Text)
    requires first <= last
    ensures |r| == last as int - first as int + 1
    ensures forall i | 0 <= i < |r| :: r[i] as int == first as int + i
  {
    seq(last as int - first as int + 1,
        i requires 0 <= i < last as int - first as int + 1 => (first as int + i) as char)
  }

  /** Tables 1 and 2 of RFC 4648. */
  function TableOf(alphabet: Alphabet): (table: Text)
    ensures |table| == 64
  {
    Range('A', 'Z') + Range('a', 'z') + Range('0', '9') + (if alphabet.Standard? then "+/" else "-_")
  }

  lemma SymbolFromTable(alphabet: Alphabet, n: Sextet)
    ensures Symbol(alphabet, n) == TableOf(alphabet)[n]
  {
  }

  /** The number that bytes, or sextets, write after a number that is already there, most significant
      first. */
  function BytesAfter(n: nat, bytes: Text): nat
    decreases |bytes|
  {
    if bytes == [] then n else BytesAfter(n * 256 + bytes[0] as int, bytes[1..])
  }

  function SextetsAfter(n: nat, s: seq<Sextet>): nat
    decreases |s|
  {
    if s == [] then n else SextetsAfter(n * 64 + s[0], s[1..])
  }

  lemma ThreeBytesAreFourSextets(n: nat, a: byte, b: byte, c: byte)
    ensures (((n * 64 + Sextet0(a)) * 64 + Sextet1(a, b)) * 64 + Sextet2(b, c)) * 64 + Sextet3(c)
         == ((n * 256 + a as int) * 256 + b as int) * 256 + c as int
  {
  }

  lemma ByteAfter(n: nat, a: byte, rest: Text)
    ensures BytesAfter(n, [a] + rest) == BytesAfter(n * 256 + a as int, rest)
  {
    assert ([a] + rest)[1..] == rest;
  }

  lemma ThreeBytesAfter(n: nat, a: byte, b: byte, c: byte, rest: Text)
    ensures BytesAfter(n, [a, b, c] + rest)
         == BytesAfter(((n * 256 + a as int) * 256 + b as int) * 256 + c as int, rest)
  {
    assert [a, b, c] + rest == [a] + ([b] + ([c] + rest));
    ByteAfter(n, a, [b] + ([c] + rest));
    ByteAfter(n * 256 + a as int, b, [c] + rest);
    ByteAfter((n * 256 + a as int) * 256 + b as int, c, rest);
  }

  lemma SextetAfter(n: nat, a: Sextet, rest: seq<Sextet>)
    ensures SextetsAfter(n, [a] + rest) == SextetsAfter(n * 64 + a, rest)
  {
    assert ([a] + rest)[1..] == rest;
  }

  lemma FourSextetsAfter(n: nat, a: Sextet, b: Sextet, c: Sextet, d: Sextet, rest: seq<Sextet>)
    ensures SextetsAfter(n, [a, b, c, d] + rest) == SextetsAfter((((n * 64 + a) * 64 + b) * 64 + c) * 64 + d, rest)
  {
    assert [a, b, c, d] + rest == [a] + ([b] + ([c] + ([d] + rest)));
    SextetAfter(n, a, [b] + ([c] + ([d] + rest)));
    SextetAfter(n * 64 + a, b, [c] + ([d] + rest));
    SextetAfter((n * 64 + a) * 64 + b, c, [d] + rest);
    SextetAfter(((n * 64 + a) * 64 + b) * 64 + c, d, rest);
  }

  /** What completes the last sextet. */
  function Fill(bytes: Text): nat {
    match |bytes| % 3 case 0 => 1 case 1 => 16 case _ => 4
  }

  lemma LastSextets(n: nat, bytes: Text)
    requires |bytes| < 3
    ensures SextetsAfter(n, Sextets(bytes)) == BytesAfter(n, bytes) * Fill(bytes)
  {
    if |bytes| == 1 {
      var a := bytes[0];
      assert bytes == [a] + [];
      ByteAfter(n, a, []);
      assert Sextets(bytes) == [Sextet0(a)] + ([Sextet1(a, '\0')] + []);
      SextetAfter(n, Sextet0(a), [Sextet1(a, '\0')] + []);
      SextetAfter(n * 64 + Sextet0(a), Sextet1(a, '\0'), []);
    } else if |bytes| == 2 {
      LastTwo(n, bytes[0], bytes[1]);
      assert bytes == [bytes[0], bytes[1]];
    }
  }

  lemma LastTwo(n: nat, a: byte, b: byte)
    ensures SextetsAfter(n, Sextets([a, b])) == BytesAfter(n, [a, b]) * 4
  {
    assert [a, b] == [a] + ([b] + []);
    ByteAfter(n, a, [b] + []);
    ByteAfter(n * 256 + a as int, b, []);
    var s0, s1, s2 := Sextet0(a), Sextet1(a, b), Sextet2(b, '\0');
    assert Sextets([a, b]) == [s0] + ([s1] + ([s2] + []));
    SextetAfter(n, s0, [s1] + ([s2] + []));
    SextetAfter(n * 64 + s0, s1, [s2] + []);
    SextetAfter((n * 64 + s0) * 64 + s1, s2, []);
  }

  lemma {:induction false} SextetsWriteBytes(n: nat, bytes: Text)
    ensures SextetsAfter(n, Sextets(bytes)) == BytesAfter(n, bytes) * Fill(bytes)
    decreases |bytes|
  {
    if |bytes| < 3 {
      LastSextets(n, bytes);
    } else {
      var a, b, c, rest := bytes[0], bytes[1], bytes[2], bytes[3..];
      assert bytes == [a, b, c] + rest;
      SextetsStep(a, b, c, rest);
      ThreeBytesAreFourSextets(n, a, b, c);
      ThreeBytesAfter(n, a, b, c, rest);
      FourSextetsAfter(n, Sextet0(a), Sextet1(a, b), Sextet2(b, c), Sextet3(c), Sextets(rest));
      SextetsWriteBytes(((n * 256 + a as int) * 256 + b as int) * 256 + c as int, rest);
    }
  }

  /** An encoding is the bits of the bytes, most significant first, six to a symbol of the alphabet's
      table, the last one filled up with zeros. */
  lemma EncodeWritesBits(alphabet: Alphabet, bytes: Text) returns (s: seq<Sextet>)
    ensures |s| == |Encode(alphabet, bytes)|
    ensures forall i | 0 <= i < |s| :: Encode(alphabet, bytes)[i] == TableOf(alphabet)[s[i]]
    ensures SextetsAfter(0, s) == BytesAfter(0, bytes) * Fill(bytes)
  {
    s := Sextets(bytes);
    SextetsWriteBytes(0, bytes);
    forall i | 0 <= i < |s| ensures Encode(alphabet, bytes)[i] == TableOf(alphabet)[s[i]] {
      SymbolFromTable(alphabet, s[i]);
    }
  }

  // ---- the codec is a round trip ----

  /** The strict decoder accepts exactly the encodings: decoding undoes encoding, and nothing
      else decodes. */
  lemma DecodeExact(alphabet: Alphabet, text: Text, bytes: Text)
    ensures Decode(alphabet, text) == Some(bytes) <==> text == Encode(alphabet, bytes)
  {
    IndicesOfSymbols(alphabet, Sextets(bytes));
    OctetsOfSextets(bytes);
    if Decode(alphabet, text) == Some(bytes) {
      var s := IndicesOf(alphabet, text);
      SextetsOfOctets(s);
      assert text == SymbolsOf(alphabet, s);
    }
  }

  /** Two different byte strings never share an encoding. */
  lemma EncodeInjective(alphabet: Alphabet, a: Text, b: Text)
    requires Encode(alphabet, a) == Encode(alphabet, b)
    ensures a == b
  {
    DecodeExact(alphabet, Encode(alphabet, a), a);
    DecodeExact(alphabet, Encode(alphabet, a), b);
  }

  lemma {:induction false} StripPaddingAppend(text: Text, n: nat)
    requires '=' !in text
    ensures StripPadding(text + seq(n, i => '=')) == text
    decreases n
  {
    var padded := text + seq(n, i => '=');
    if n == 0 {
      assert padded == text;
    } else {
      assert padded[..|padded| - 1] == text + seq(n - 1, i => '=');
      StripPaddingAppend(text, n - 1);
    }
  }

  /** An encoding followed by no more than its canonical padding decodes to the bytes. */
  lemma DecodePaddedExact(alphabet: Alphabet, bytes: Text, n: nat)
    requires n <= (4 - |Encode(alphabet, bytes)| % 4) % 4
    ensures DecodePadded(alphabet, Encode(alphabet, bytes) + seq(n, i => '=')) == Some(bytes)
  {
    EncodeShape(alphabet, bytes);
    StripPaddingAppend(Encode(alphabet, bytes), n);
    DecodeExact(alphabet, Encode(alphabet, bytes), bytes);
  }
}
