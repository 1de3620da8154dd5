/** The redirect as the client's listener sees it: which registered URIs bring the code home. */
module Redirected {
  import opened Wrappers
  import opened Bytes
  import opened Form
  import opened Names
  import opened Authorize
  import opened Callback

  // ---- what a user agent asks for ----

  const HTTP_ORIGIN: Text := "http://"

  /** Where the authority ends in what follows `http://`. */
  function AuthorityEnd(rest: Text): (n: nat)
    ensures n <= |rest|
    ensures forall i | 0 <= i < n :: rest[i] != '/' && rest[i] != '?'
    ensures n < |rest| ==> rest[n] == '/' || rest[n] == '?'
  {
    if rest == [] || rest[0] == '/' || rest[0] == '?' then 0 else 1 + AuthorityEnd(rest[1..])
  }

  /** The length of the origin of an `http` URL with an authority. */
  function OriginOf(url: Text): (origin: Option<nat>)
    ensures origin.Some? ==> |HTTP_ORIGIN| < origin.value <= |url|
  {
    if |url| < |HTTP_ORIGIN| || !EqualsIgnoreCase(url[..|HTTP_ORIGIN|], HTTP_ORIGIN) then None
    else
      var n := AuthorityEnd(url[|HTTP_ORIGIN|..]);
      if n == 0 then None else Some(|HTTP_ORIGIN| + n)
  }

  /** An empty path is sent as `/` (section 3.2.1 of RFC 9112). */
  function Rooted(rest: Text): Text {
    if rest == [] || rest[0] == '?' then ['/'] + rest else rest
  }

  /** The request target of a URL: what follows its origin. */
  function TargetOf(url: Text): Text {
    match OriginOf(url)
    case None => url
    case Some(n) => Rooted(url[n..])
  }

  function PathOf(url: Text): Text {
    SplitTarget(TargetOf(url)).0
  }

  /** What the URL parser (URL Standard section 4.4) leaves as it is in a path and in a query. */
  predicate Verbatim(b: byte) {
    && 32 < b as int < 127
    && b !in {'"', '#', '\'', '<', '>', '\\', '^', '`', '{', '}'}
  }

  predicate DotSegment(segment: Text) {
    DecodeText(segment) == "." || DecodeText(segment) == ".."
  }

  /** An `http` URI whose path and query a user agent sends as they are written. */
  predicate SentAsWritten(base: Text) {
    && OriginOf(base).Some?
    && (forall b | b in base :: Verbatim(b))
    && (forall segment | segment in Split(PathOf(base), '/') :: !DotSegment(segment))
  }

  /** The registered URI has none of the parameters that the redirect adds. */
  predicate NoOwnParams(base: Text) {
    NoLoginParams(Parse(QueryOf(base)))
  }

  /** The request line for a location. */
  function LineOf(location: Text): Text {
    RequestLine(GET, TargetOf(location), HTTP_1_1)
  }

  // ---- the request line carries the query of the redirect ----

  /** What may be appended to a URL without changing its origin or its path. */
  predicate Extends(url: Text, more: Text) {
    '?' in url || (more != [] && more[0] == '?')
  }

  lemma {:induction false} AuthorityEndAppend(rest: Text, more: Text)
    requires Extends(rest, more)
    ensures AuthorityEnd(rest + more) == AuthorityEnd(rest)
  {
    if rest == [] {
      assert rest + more == more;
    } else if rest[0] != '/' && rest[0] != '?' {
      assert (rest + more)[1..] == rest[1..] + more;
      AuthorityEndAppend(rest[1..], more);
    }
  }

  lemma HttpHasNoQuestionMark(head: Text)
    requires EqualsIgnoreCase(head, HTTP_ORIGIN)
    ensures '?' !in head
  {
    forall i | 0 <= i < |head| ensures head[i] != '?' {
      assert ToLower(head[i]) == ToLower(HTTP_ORIGIN[i]);
    }
  }

  lemma OriginShape(url: Text, n: nat)
    requires OriginOf(url) == Some(n)
    ensures n <= |url| && '?' !in url[..n] && (n < |url| ==> url[n] == '/' || url[n] == '?')
  {
    var k := |HTTP_ORIGIN|;
    var rest := url[k..];
    HttpHasNoQuestionMark(url[..k]);
    assert url[..n] == url[..k] + rest[..n - k];
  }

  lemma OriginAppend(url: Text, more: Text)
    requires OriginOf(url).Some? && Extends(url, more)
    ensures OriginOf(url + more) == OriginOf(url)
  {
    var k := |HTTP_ORIGIN|;
    var rest := url[k..];
    HttpHasNoQuestionMark(url[..k]);
    assert url == url[..k] + rest && (url + more)[..k] == url[..k] && (url + more)[k..] == rest + more;
    AuthorityEndAppend(rest, more);
  }

  lemma RootedAppend(rest: Text, more: Text)
    requires Extends(rest, more)
    ensures Rooted(rest + more) == Rooted(rest) + more
  {
    if rest == [] {
      assert rest + more == more;
    } else if rest[0] == '?' {
      assert ['/'] + (rest + more) == (['/'] + rest) + more;
    }
  }

  lemma TargetAppend(url: Text, more: Text)
    requires OriginOf(url).Some? && Extends(url, more)
    ensures TargetOf(url + more) == TargetOf(url) + more
  {
    var n := OriginOf(url).value;
    OriginAppend(url, more);
    OriginShape(url, n);
    assert url == url[..n] + url[n..];
    assert (url + more)[n..] == url[n..] + more;
    RootedAppend(url[n..], more);
  }

  lemma QueryAfter(head: Text, rest: Text)
    requires '?' !in head
    ensures QueryOf(head + rest) == QueryOf(rest)
  {
    match SplitOnce(rest, '?')
    case None =>
    case Some((path, query)) =>
      assert head + rest == (head + path) + ['?'] + query;
      SplitOnceAppend(head + path, '?', query);
  }

  lemma RootedQuery(rest: Text)
    requires rest != [] ==> rest[0] == '/' || rest[0] == '?'
    ensures StartsWith(Rooted(rest), "/")
    ensures '?' in Rooted(rest) <==> '?' in rest
    ensures QueryOf(Rooted(rest)) == QueryOf(rest)
  {
    QueryAfter(['/'], rest);
  }

  /** The origin has no `?`: the query of a URL is the query of its target. */
  lemma QueryOfTarget(url: Text)
    requires OriginOf(url).Some?
    ensures StartsWith(TargetOf(url), "/")
    ensures '?' in TargetOf(url) <==> '?' in url
    ensures QueryOf(TargetOf(url)) == QueryOf(url)
  {
    var n := OriginOf(url).value;
    OriginShape(url, n);
    assert url == url[..n] + url[n..];
    QueryAfter(url[..n], url[n..]);
    RootedQuery(url[n..]);
  }

  lemma SplitTargetIs(target: Text)
    ensures SplitTarget(target).1 == QueryOf(target)
  {
  }

  lemma PathAppend(target: Text, more: Text)
    requires Extends(target, more)
    ensures SplitTarget(target + more).0 == SplitTarget(target).0
  {
    match SplitOnce(target, '?')
    case Some((path, query)) =>
      assert target + more == path + ['?'] + (query + more);
      SplitOnceAppend(path, '?', query + more);
    case None =>
      assert target + more == target + ['?'] + more[1..];
      SplitOnceAppend(target, '?', more[1..]);
  }

  lemma VerbatimIsNoSpace(b: byte)
    ensures Verbatim(b) ==> !IsSpace(b)
  {
  }

  lemma TargetBytes(url: Text)
    ensures forall b | b in TargetOf(url) :: b == '/' || b in url
  {
  }

  lemma LocationBytes(base: Text, pair: Pair, state: Option<Text>)
    requires forall b | b in base :: Verbatim(b)
    ensures forall b | b in Location(base, pair, state) :: !IsSpace(b)
  {
    SerializeAlphabet(Added(pair, state));
    forall b: byte ensures Verbatim(b) || UrlSafe(b) ==> !IsSpace(b) {
      VerbatimIsNoSpace(b);
    }
  }

  lemma LocationTarget(base: Text, pair: Pair, state: Option<Text>, location: Text)
    requires SentAsWritten(base) && location == Location(base, pair, state)
    ensures StartsWith(TargetOf(location), "/")
    ensures SplitTarget(TargetOf(location)) == (PathOf(base), QueryOf(location))
    ensures forall b | b in TargetOf(location) :: !IsSpace(b)
  {
    var more := Separator(base) + Serialize(Added(pair, state));
    assert location == base + more;
    LocationBytes(base, pair, state);
    TargetBytes(location);
    LocationAppended(base, more, location);
  }

  lemma LocationAppended(base: Text, more: Text, location: Text)
    requires OriginOf(base).Some? && Extends(base, more) && location == base + more
    ensures StartsWith(TargetOf(location), "/")
    ensures SplitTarget(TargetOf(location)) == (PathOf(base), QueryOf(location))
  {
    OriginAppend(base, more);
    TargetAppend(base, more);
    QueryOfTarget(base);
    QueryOfTarget(location);
    SplitTargetIs(TargetOf(location));
    PathAppend(TargetOf(base), more);
  }

  /** The longest request line that the listener understands. */
  const LONGEST_LINE := 16 * 1024 + 3

  /** A redirect is answered from the parameters of its location, if the registered path is the
      callback and the line is not too long. */
  lemma LocationIsRead(base: Text, pair: Pair, state: Option<Text>, expectedState: Text)
    requires SentAsWritten(base)
    ensures var location := Location(base, pair, state);
            Heard(LineOf(location), expectedState) ==
            if |LineOf(location)| > LONGEST_LINE then Err(Malformed)
            else if PathOf(base) != CALLBACK_PATH then Err(NotCallback)
            else CodeFrom(Parse(QueryOf(location)), expectedState)
  {
    var location := Location(base, pair, state);
    var target := TargetOf(location);
    LocationTarget(base, pair, state, location);
    VersionIsHttp();
    LongLineIsRead(MAX_REQUEST_BYTES, target, expectedState);
    TargetIsRead(target, HTTP_1_1, expectedState);
  }

  lemma VersionIsHttp()
    ensures ' ' !in HTTP_1_1 && StartsWith(HTTP_1_1, HTTP) && |HTTP_1_1| - |HTTP| == 3
  {
  }

  // ---- what the parameters amount to ----

  lemma AddedOccurrences(code: Text, state: Text)
    ensures var added := Added((CODE, code), Some(state));
            && Occurrences(added, CODE) == [code]
            && Occurrences(added, STATE) == [state]
            && Occurrences(added, ERROR) == []
  {
    var added := Added((CODE, code), Some(state));
    assert added == [(CODE, code)] + [(STATE, state)];
    NamesDiffer();
    forall name ensures Occurrences(added, name) ==
                        (if name == CODE then [code] else []) + (if name == STATE then [state] else [])
    {
      OccurrencesOfOne((CODE, code), name);
      OccurrencesOfOne((STATE, state), name);
      OccurrencesConcat([(CODE, code)], [(STATE, state)], name);
    }
  }

  lemma NamesDiffer()
    ensures CODE != STATE && CODE != ERROR && STATE != ERROR
  {
  }

  lemma AppendedCodeIsFound(own: Params, code: Text, state: Text)
    requires NoLoginParams(own) && code != []
    ensures CodeFrom(own + Added((CODE, code), Some(state)), state) == Ok(code)
  {
    var added := Added((CODE, code), Some(state));
    AddedOccurrences(code, state);
    OccurrencesConcat(own, added, CODE);
    OccurrencesConcat(own, added, STATE);
    OccurrencesConcat(own, added, ERROR);
  }

  // ---- when the registered query ends in `?` ----

  lemma {:induction false} DecodeKeepsQuestionMark(t: Text)
    ensures '?' in t ==> '?' in DecodeText(t)
    decreases |t|
  {
    if |t| >= 3 && t[0] == '%' && IsHex(t[1]) && IsHex(t[2]) {
      assert t == [t[0], t[1], t[2]] + t[3..];
      DecodeKeepsQuestionMark(t[3..]);
    } else if t != [] {
      assert t == [t[0]] + t[1..];
      DecodeKeepsQuestionMark(t[1..]);
    }
  }

  /** Gluing text to a piece that ends in `?` gives no piece a new plain name. */
  lemma GluedName(a: Text, piece: Text, name: Text)
    requires a != [] && a[|a| - 1] == '?' && '&' !in a && '?' !in name
    ensures ParsePiece(a + piece).0 == name ==> ParsePiece(a).0 == name
  {
    if '=' in a {
      var parts := SplitOnce(a, '=').value;
      assert a + piece == parts.0 + ['='] + (parts.1 + piece);
      SplitOnceAppend(parts.0, '=', parts.1 + piece);
    } else if '=' in piece {
      var parts := SplitOnce(piece, '=').value;
      assert a + piece == (a + parts.0) + ['='] + parts.1;
      SplitOnceAppend(a + parts.0, '=', parts.1);
      DecodeKeepsQuestionMark(a + parts.0);
    } else {
      DecodeKeepsQuestionMark(a + piece);
    }
  }

  lemma OccurrencesOfPiece(piece: Text, name: Text)
    requires '&' !in piece && piece != []
    ensures Contains(Parse(piece), name) <==> ParsePiece(piece).0 == name
  {
    ParseOnePiece(piece);
    OccurrencesOfOne(ParsePiece(piece), name);
  }

  lemma {:induction false} GluedHasNoNewName(a: Text, piece: Text, name: Text)
    requires a != [] && a[|a| - 1] == '?' && '&' !in piece && '?' !in name
    requires !Contains(Parse(a), name)
    ensures !Contains(Parse(a + piece), name)
    decreases |a|
  {
    match SplitOnce(a, '&')
    case None =>
      GluedName(a, piece, name);
      OccurrencesOfPiece(a, name);
      OccurrencesOfPiece(a + piece, name);
    case Some((head, tail)) =>
      AppendToTail(head, '&', tail, piece);
      ParseContains(head, tail, name);
      GluedHasNoNewName(tail, piece, name);
      ParseContains(head, tail + piece, name);
  }

  lemma GluedParams(query: Text, code: Text, state: Text)
    ensures Parse(query + Serialize(Added((CODE, code), Some(state))))
         == Parse(query + SerializePair((CODE, code))) + [(STATE, state)]
  {
    var first, second := SerializePair((CODE, code)), SerializePair((STATE, state));
    SerializedAdded((CODE, code), state);
    assert query + (first + "&" + second) == (query + first) + "&" + second;
    ParseConcat(query + first, second);
    ParseSerializedPair((STATE, state));
    ParseOnePiece(second);
  }

  lemma SerializedAdded(pair: Pair, state: Text)
    ensures Serialize(Added(pair, Some(state))) == SerializePair(pair) + "&" + SerializePair((STATE, state))
  {
  }

  predicate NoLoginParams(params: Params) {
    !Contains(params, CODE) && !Contains(params, STATE) && !Contains(params, ERROR)
  }

  lemma GluedHasNoLoginParams(query: Text, piece: Text)
    requires query != [] && query[|query| - 1] == '?' && '&' !in piece
    requires NoLoginParams(Parse(query))
    ensures NoLoginParams(Parse(query + piece))
  {
    GluedHasNoNewName(query, piece, CODE);
    GluedHasNoNewName(query, piece, STATE);
    GluedHasNoNewName(query, piece, ERROR);
  }

  lemma StateAloneIsNoCode(params: Params, state: Text)
    ensures NoLoginParams(params) ==> CodeFrom(params + [(STATE, state)], state) == Err(MissingCode)
  {
    NamesDiffer();
    forall name | name in {CODE, STATE, ERROR}
      ensures Occurrences(params + [(STATE, state)], name) ==
              Occurrences(params, name) + (if name == STATE then [state] else [])
    {
      OccurrencesConcat(params, [(STATE, state)], name);
      OccurrencesOfOne((STATE, state), name);
    }
  }

  /** What the parameters of the redirect amount to. */
  lemma CodeIsFound(base: Text, code: Text, state: Text)
    requires NoOwnParams(base) && code != []
    ensures CodeFrom(Parse(QueryOf(Location(base, (CODE, code), Some(state)))), state) ==
            if EndsInsideQuery(base) then Err(MissingCode) else Ok(code)
  {
    if EndsInsideQuery(base) {
      QueryOfLocation(base, (CODE, code), Some(state));
      var added := Serialize(Added((CODE, code), Some(state)));
      assert Separator(base) + added == added;
      GluedParams(QueryOf(base), code, state);
      ParseSerializedPair((CODE, code));
      GluedHasNoLoginParams(QueryOf(base), SerializePair((CODE, code)));
      StateAloneIsNoCode(Parse(QueryOf(base) + SerializePair((CODE, code))), state);
    } else {
      LocationQuery(base, (CODE, code), Some(state));
      AppendedCodeIsFound(Parse(QueryOf(base)), code, state);
    }
  }

  /** What the listener makes of the redirect, for any registered URI that is sent as written and
      any state: the code comes back exactly when the path is `/callback`, the line is not too long,
      and the URI does not end in a `?` of its own query; there the code is lost. */
  lemma CallbackBringsCode(base: Text, code: Text, state: Text)
    requires SentAsWritten(base) && NoOwnParams(base) && code != []
    ensures var line := LineOf(Location(base, (CODE, code), Some(state)));
            Heard(line, state) ==
            if |line| > LONGEST_LINE then Err(Malformed)
            else if PathOf(base) != CALLBACK_PATH then Err(NotCallback)
            else if EndsInsideQuery(base) then Err(MissingCode)
            else Ok(code)
  {
    LocationIsRead(base, (CODE, code), Some(state), state);
    CodeIsFound(base, code, state);
  }
}
