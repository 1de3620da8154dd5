/** The `application/x-www-form-urlencoded` codec (URL Standard sections 5.1 and 5.2) on bytes,
    and the parameter lookups of the mock server. */
module Form {
  import opened Wrappers
  import opened Bytes

  type Pair = (Text, Text)
  type Params = seq<Pair>

  // ---- serializing ----

  predicate Unreserved(b: byte) {
    IsAlphanumeric(b) || b == '*' || b == '-' || b == '.' || b == '_'
  }

  function HexDigit(n: int): byte
    requires 0 <= n < 16
  {
    if n < 10 then (n + '0' as int) as char else (n - 10 + 'A' as int) as char
  }

  function SerializeByte(b: byte): Text {
    if b == ' ' then "+"
    else if Unreserved(b) then [b]
    else ['%', HexDigit(b as int / 16), HexDigit(b as int % 16)]
  }

  function SerializeText(t: Text): Text {
    if t == [] then [] else SerializeByte(t[0]) + SerializeText(t[1..])
  }

  function SerializePair(pair: Pair): Text {
    SerializeText(pair.0) + "=" + SerializeText(pair.1)
  }

  /** `form_urlencoded::Serializer`: every pair after the first is preceded by `&`. */
  function Serialize(pairs: Params): Text {
    if pairs == [] then []
    else if |pairs| == 1 then SerializePair(pairs[0])
    else SerializePair(pairs[0]) + "&" + Serialize(pairs[1..])
  }

  // ---- parsing ----

  predicate IsHex(c: byte) { IsDigit(c) || 'a' <= c <= 'f' || 'A' <= c <= 'F' }

  function HexValue(c: byte): (n: int)
    requires IsHex(c)
    ensures 0 <= n < 16
  {
    if IsDigit(c) then c as int - '0' as int
    else if 'a' <= c <= 'f' then c as int - 'a' as int + 10
    else c as int - 'A' as int + 10
  }

  /** `+` is a space, `%XX` is a byte, anything else stands for itself. */
  function DecodeText(t: Text): Text
    decreases |t|
  {
    if t == [] then []
    else if t[0] == '%' && |t| >= 3 && IsHex(t[1]) && IsHex(t[2]) then
      [(HexValue(t[1]) * 16 + HexValue(t[2])) as char] + DecodeText(t[3..])
    else [if t[0] == '+' then ' ' else t[0]] + DecodeText(t[1..])
  }

  function ParsePiece(piece: Text): Pair {
    match SplitOnce(piece, '=')
    case Some((name, value)) => (DecodeText(name), DecodeText(value))
    case None => (DecodeText(piece), [])
  }

  /** Empty pieces are not parameters. */
  function ParsePieces(pieces: seq<Text>): Params {
    if pieces == [] then []
    else (if pieces[0] == [] then [] else [ParsePiece(pieces[0])]) + ParsePieces(pieces[1..])
  }

  function Parse(raw: Text): Params {
    ParsePieces(Split(raw, '&'))
  }

  // ---- parsing distributes over `&` ----

  lemma {:induction false} ParsePiecesConcat(a: seq<Text>, b: seq<Text>)
    ensures ParsePieces(a + b) == ParsePieces(a) + ParsePieces(b)
  {
    if a == [] {
      assert a + b == b;
    } else {
      assert (a + b)[1..] == a[1..] + b;
      ParsePiecesConcat(a[1..], b);
    }
  }

  lemma ParseConcat(a: Text, b: Text)
    ensures Parse(a + "&" + b) == Parse(a) + Parse(b)
  {
    SplitConcat(a, '&', b);
    ParsePiecesConcat(Split(a, '&'), Split(b, '&'));
  }

  /** Text without escapes stands for itself. */
  lemma {:induction false} DecodePlain(t: Text)
    requires '%' !in t && '+' !in t
    ensures DecodeText(t) == t
  {
    if t != [] {
      DecodePlain(t[1..]);
    }
  }

  // ---- escapes ----

  /** The hexadecimal digit for `n`, in either case. */
  predicate DigitFor(c: byte, n: int) {
    || (0 <= n < 10 && c as int == 48 + n)
    || (10 <= n < 16 && (c as int == 65 + n - 10 || c as int == 97 + n - 10))
  }

  /** An escape stands for its byte, in either case of each digit. */
  lemma EscapeIsDecoded(high: byte, low: byte, a: int, b: int, rest: Text)
    requires DigitFor(high, a) && DigitFor(low, b)
    ensures DecodeText(['%', high, low] + rest) == [(a * 16 + b) as char] + DecodeText(rest)
  {
    assert (['%', high, low] + rest)[3..] == rest;
  }

  /** A percent sign without two digits after it stands for itself, `+` is a space, and any other
      byte stands for itself. */
  lemma OtherBytesStay(c: byte, rest: Text)
    requires c == '%' ==>
               |rest| < 2 || (forall a :: !DigitFor(rest[0], a)) || (forall b :: !DigitFor(rest[1], b))
    ensures DecodeText([c] + rest) == [if c == '+' then ' ' else c] + DecodeText(rest)
  {
    var t := [c] + rest;
    assert t[1..] == rest;
    if c == '%' && |rest| >= 2 && IsHex(t[1]) && IsHex(t[2]) {
      assert DigitFor(rest[0], HexValue(t[1])) && DigitFor(rest[1], HexValue(t[2]));
    }
  }

  /** How each byte is serialized: letters, digits and four signs as they are, the space as `+`, any
      other byte as an escape with capital digits (URL Standard section 5.2). */
  lemma SerializedByteExact(b: byte)
    ensures var safe := 'a' <= b <= 'z' || 'A' <= b <= 'Z' || '0' <= b <= '9' || b in {'*', '-', '.', '_'};
            if safe then SerializeByte(b) == [b]
            else if b == ' ' then SerializeByte(b) == ['+']
            else exists high, low | SerializeByte(b) == ['%', high, low] ::
                   && DigitFor(high, b as int / 16) && DigitFor(low, b as int % 16)
                   && !('a' <= high <= 'z') && !('a' <= low <= 'z')
  {
    var high, low := HexDigit(b as int / 16), HexDigit(b as int % 16);
    assert DigitFor(high, b as int / 16) && DigitFor(low, b as int % 16);
    if SerializeByte(b) != [b] && b != ' ' {
      assert SerializeByte(b) == ['%', high, low];
    }
  }

  // ---- the codec is a round trip ----

  lemma DecodeSerializedByte(b: byte, rest: Text)
    ensures DecodeText(SerializeByte(b) + rest) == [b] + DecodeText(rest)
  {
    var t := SerializeByte(b) + rest;
    if b == ' ' || Unreserved(b) {
      assert t[1..] == rest;
    } else {
      assert t[3..] == rest;
      assert b as int == b as int / 16 * 16 + b as int % 16;
      assert (HexValue(t[1]) * 16 + HexValue(t[2])) as char == b;
    }
  }

  /** Decoding undoes serializing, byte for byte. */
  lemma {:induction false} DecodeSerialized(t: Text)
    ensures DecodeText(SerializeText(t)) == t
  {
    if t != [] {
      DecodeSerializedByte(t[0], SerializeText(t[1..]));
      DecodeSerialized(t[1..]);
    }
  }

  predicate UrlSafe(c: byte) { Unreserved(c) || c == '%' || c == '+' }

  lemma {:induction false} SerializedIsSafe(t: Text)
    ensures forall c | c in SerializeText(t) :: UrlSafe(c)
  {
    if t != [] {
      SerializedIsSafe(t[1..]);
      var b := t[0];
      assert forall c | c in SerializeByte(b) :: UrlSafe(c);
    }
  }

  lemma ParseSerializedPair(pair: Pair)
    ensures '&' !in SerializePair(pair) && SerializePair(pair) != []
    ensures ParsePiece(SerializePair(pair)) == pair
  {
    var name, value := SerializeText(pair.0), SerializeText(pair.1);
    assert '=' !in name && '&' !in name && '&' !in value by {
      SerializedIsSafe(pair.0);
      SerializedIsSafe(pair.1);
    }
    assert SerializePair(pair) == name + ['='] + value;
    SplitOnceAppend(name, '=', value);
    DecodeSerialized(pair.0);
    DecodeSerialized(pair.1);
  }

  lemma ParseOnePiece(piece: Text)
    requires '&' !in piece
    ensures Parse(piece) == if piece == [] then [] else [ParsePiece(piece)]
  {
    var pieces := Split(piece, '&');
    assert pieces == [piece];
    assert pieces[0] == piece && pieces[1..] == [];
    assert ParsePieces(pieces[1..]) == [];
    assert ParsePieces(pieces) == (if piece == [] then [] else [ParsePiece(piece)]) + ParsePieces(pieces[1..]);
  }

  /** A piece is split at its first `=`; without one it is a name with an empty value. */
  lemma PieceIsParsed(name: Text, value: Text)
    requires '&' !in name && '=' !in name && '&' !in value
    ensures Parse(name + "=" + value) == [(DecodeText(name), DecodeText(value))]
    ensures Parse(name) == if name == [] then [] else [(DecodeText(name), [])]
  {
    SplitOnceAppend(name, '=', value);
    ParseOnePiece(name + "=" + value);
    ParseOnePiece(name);
  }

  /** The bytes a serialized form can contain. */
  lemma {:induction false} SerializeAlphabet(pairs: Params)
    ensures forall c | c in Serialize(pairs) :: UrlSafe(c) || c == '=' || c == '&'
  {
    if pairs != [] {
      SerializedIsSafe(pairs[0].0);
      SerializedIsSafe(pairs[0].1);
      SerializeAlphabet(pairs[1..]);
    }
  }

  /** Parsing undoes serializing, whatever bytes the names and values hold. */
  lemma {:induction false} ParseSerialized(pairs: Params)
    ensures Parse(Serialize(pairs)) == pairs
  {
    if pairs == [] {
      ParseOnePiece([]);
    } else {
      var piece := SerializePair(pairs[0]);
      ParseSerializedPair(pairs[0]);
      ParseOnePiece(piece);
      if |pairs| > 1 {
        ParseSerialized(pairs[1..]);
        ParseConcat(piece, Serialize(pairs[1..]));
        assert pairs == [pairs[0]] + pairs[1..];
      } else {
        assert pairs == [pairs[0]];
      }
    }
  }

  // ---- concatenated queries ----

  lemma ParseTerminated(head: Text)
    ensures Parse(head + "&") == Parse(head)
  {
    assert head + "&" == head + "&" + [];
    ParseConcat(head, []);
    ParseOnePiece([]);
  }

  /** Appending right after a separator, or to nothing, also concatenates the parameters. */
  lemma ParseAppend(a: Text, b: Text)
    requires a == [] || a[|a| - 1] == '&'
    ensures Parse(a + b) == Parse(a) + Parse(b)
  {
    if a == [] {
      assert a + b == b;
      ParseOnePiece([]);
    } else {
      var head := a[..|a| - 1];
      assert a == head + "&";
      ParseTerminated(head);
      ParseConcat(head, b);
    }
  }

  lemma ParseLengths(whole: Text, a: Text, b: Text)
    requires whole == a + ['&'] + b
    ensures |Parse(whole)| == |Parse(a)| + |Parse(b)|
  {
    ParseConcat(a, b);
  }

  /** Appending inside a piece merges two parameters into one. */
  lemma ParseMerged(a: Text, b: Text)
    requires a != [] && a[|a| - 1] != '&'
    requires b != [] && '&' != b[0]
    ensures |Parse(a + b)| == |Parse(a)| + |Parse(b)| - 1
  {
    match SplitOnce(b, '&')
    case None =>
      MergedPiece(a, b);
      ParseOnePiece(b);
    case Some((first, rest)) =>
      PrependToHead(a, first, '&', rest);
      MergedPiece(a, first);
      ParseOnePiece(first);
      ParseLengths(b, first, rest);
      ParseLengths(a + b, a + first, rest);
  }

  lemma {:induction false} MergedPiece(a: Text, piece: Text)
    requires a != [] && a[|a| - 1] != '&'
    requires piece != [] && '&' !in piece
    ensures |Parse(a + piece)| == |Parse(a)|
    decreases |a|
  {
    match SplitOnce(a, '&')
    case None =>
      ParseOnePiece(a);
      ParseOnePiece(a + piece);
    case Some((head, tail)) =>
      AppendToTail(head, '&', tail, piece);
      MergedPiece(tail, piece);
      ParseLengths(a, head, tail);
      ParseLengths(a + piece, head, tail + piece);
  }

  // ---- lookups ----

  function Occurrences(params: Params, name: Text): (values: seq<Text>) {
    if params == [] then []
    else (if params[0].0 == name then [params[0].1] else []) + Occurrences(params[1..], name)
  }

  predicate Contains(params: Params, name: Text) {
    Occurrences(params, name) != []
  }

  function First(params: Params, name: Text): Option<Text> {
    var values := Occurrences(params, name);
    if values == [] then None else Some(values[0])
  }

  function NonEmpty(value: Option<Text>): Option<Text> {
    if value.Some? && value.value == [] then None else value
  }

  function Value(params: Params, name: Text): Option<Text> {
    NonEmpty(First(params, name))
  }

  datatype Repeated = Repeated

  function Unique(params: Params, name: Text): Result<Option<Text>, Repeated> {
    var values := Occurrences(params, name);
    if |values| > 1 then Err(Repeated) else Ok(NonEmpty(First(params, name)))
  }

  lemma {:induction false} OccurrencesConcat(a: Params, b: Params, name: Text)
    ensures Occurrences(a + b, name) == Occurrences(a, name) + Occurrences(b, name)
  {
    if a == [] {
      assert a + b == b;
    } else {
      assert (a + b)[1..] == a[1..] + b && (a + b)[0] == a[0];
      OccurrencesConcat(a[1..], b, name);
    }
  }

  lemma ParseContains(a: Text, b: Text, name: Text)
    ensures Contains(Parse(a + "&" + b), name) <==> Contains(Parse(a), name) || Contains(Parse(b), name)
  {
    ParseConcat(a, b);
    OccurrencesConcat(Parse(a), Parse(b), name);
  }

  lemma OccurrencesOfOne(pair: Pair, name: Text)
    ensures Occurrences([pair], name) == if pair.0 == name then [pair.1] else []
  {
  }

  lemma {:induction false} OccursIff(params: Params, name: Text)
    ensures Contains(params, name) <==> exists i | 0 <= i < |params| :: params[i].0 == name
  {
    if params != [] {
      OccursIff(params[1..], name);
      assert forall i | 1 <= i < |params| :: params[i] == params[1..][i - 1];
      assert Contains(params[1..], name) ==> exists i | 0 <= i < |params[1..]| :: params[1..][i].0 == name;
    }
  }

  /** `first` is the value at the least position carrying the name. */
  lemma {:induction false} FirstIsLeast(params: Params, name: Text, i: nat)
    requires i < |params| && params[i].0 == name
    requires forall j | 0 <= j < i :: params[j].0 != name
    ensures First(params, name) == Some(params[i].1)
  {
    if i > 0 {
      FirstIsLeast(params[1..], name, i - 1);
    }
  }

  /** `unique` fails exactly when two positions carry the name. */
  lemma {:induction false} UniqueIff(params: Params, name: Text)
    ensures Unique(params, name).Err? <==>
            exists i, j | 0 <= i < j < |params| :: params[i].0 == name && params[j].0 == name
  {
    if params != [] {
      var rest := params[1..];
      UniqueIff(rest, name);
      OccursIff(rest, name);
      assert forall i | 0 <= i < |rest| :: rest[i] == params[i + 1];
      if i, j :| 0 <= i < j < |params| && params[i].0 == name && params[j].0 == name {
        assert rest[j - 1].0 == name;
        if i > 0 {
          assert rest[i - 1].0 == name;
        }
      }
      if Unique(params, name).Err? {
        if params[0].0 == name {
          var j :| 0 <= j < |rest| && rest[j].0 == name;
          assert params[0].0 == name && params[j + 1].0 == name;
        } else {
          var i, j :| 0 <= i < j < |rest| && rest[i].0 == name && rest[j].0 == name;
          assert params[i + 1].0 == name && params[j + 1].0 == name;
        }
      }
    }
  }
}
