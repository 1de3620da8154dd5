/** The listener on which a login ends: what it reads in a request line, and how long it waits. */
module Callback {
  import opened Wrappers
  import opened Bytes
  import opened Form
  import opened Names

  const CALLBACK_PATH: Text := "/callback"
  const GET: Text := "GET"
  const HTTP: Text := "HTTP/"
  const HTTP_1_1: Text := "HTTP/1.1"

  datatype CallbackError =
    | Malformed
    | NotCallback
    | StateMismatch
    | Denied(reason: Text)
    | MissingCode

  /** What the parameters of a callback amount to; a wrong state outweighs the rest. */
  function CodeFrom(params: Params, expectedState: Text): Result<Text, CallbackError> {
    if First(params, STATE) != Some(expectedState) then Err(StateMismatch)
    else match First(params, ERROR)
      case Some(reason) => Err(Denied(reason))
      case None =>
        match Value(params, CODE)
        case Some(code) => Ok(code)
        case None => Err(MissingCode)
  }

  /** The path and query of a request target. */
  function SplitTarget(target: Text): (Text, Text) {
    match SplitOnce(target, '?')
    case Some((path, query)) => (path, query)
    case None => (target, [])
  }

  function ParseRequestLine(line: Text, expectedState: Text): Result<Text, CallbackError> {
    var parts := Split(line, ' ');
    if |parts| != 3 then Err(Malformed)
    else if parts[0] == [] || !StartsWith(parts[1], "/") || !StartsWith(parts[2], HTTP) then Err(Malformed)
    else
      var (path, query) := SplitTarget(parts[1]);
      if parts[0] != GET || path != CALLBACK_PATH then Err(NotCallback)
      else CodeFrom(Parse(query), expectedState)
  }

  /** What the listener reads of a connection. */
  const MAX_REQUEST_BYTES := 16 * 1024

  function UpTo(limit: nat, text: Text): Text {
    if |text| <= limit then text else text[..limit]
  }

  /** The answer to a request line, as far as it is read. */
  function Heard(line: Text, expectedState: Text): Result<Text, CallbackError> {
    ParseRequestLine(TrimEnd(UpTo(MAX_REQUEST_BYTES, line)), expectedState)
  }

  // ---- which lines are accepted ----

  function RequestLine(httpMethod: Text, target: Text, version: Text): Text {
    Join([httpMethod, target, version], ' ')
  }

  lemma RequestLineParts(httpMethod: Text, target: Text, version: Text)
    ensures ' ' !in httpMethod && ' ' !in target && ' ' !in version ==>
              Split(RequestLine(httpMethod, target, version), ' ') == [httpMethod, target, version]
  {
    if ' ' !in httpMethod && ' ' !in target && ' ' !in version {
      SplitJoin([httpMethod, target, version], ' ');
    }
  }

  /** A request whose line is a `GET` of `/callback`, with the query that follows. */
  predicate IsCallback(line: Text, query: Text, version: Text) {
    && ' ' !in query && ' ' !in version && StartsWith(version, HTTP)
    && (line == RequestLine(GET, CALLBACK_PATH + ['?'] + query, version)
        || (query == [] && line == RequestLine(GET, CALLBACK_PATH, version)))
  }

  /** What any `GET` of a target gets, whatever the version says after its name. */
  lemma TargetIsRead(target: Text, version: Text, expectedState: Text)
    requires ' ' !in target && ' ' !in version && StartsWith(target, "/") && StartsWith(version, HTTP)
    ensures ParseRequestLine(RequestLine(GET, target, version), expectedState) ==
            if SplitTarget(target).0 != CALLBACK_PATH then Err(NotCallback)
            else CodeFrom(Parse(SplitTarget(target).1), expectedState)
  {
    RequestLineParts(GET, target, version);
  }

  lemma CallbackTarget(query: Text, target: Text)
    requires ' ' !in query
    requires target == CALLBACK_PATH + ['?'] + query || (query == [] && target == CALLBACK_PATH)
    ensures ' ' !in target && StartsWith(target, "/") && SplitTarget(target) == (CALLBACK_PATH, query)
  {
    SplitOnceAppend(CALLBACK_PATH, '?', query);
    assert target[0] == '/' && target[..1] == "/";
  }

  /** A callback gets the answer its parameters deserve. */
  lemma CallbackIsRead(line: Text, query: Text, version: Text, expectedState: Text)
    requires IsCallback(line, query, version)
    ensures ParseRequestLine(line, expectedState) == CodeFrom(Parse(query), expectedState)
  {
    var target := if line == RequestLine(GET, CALLBACK_PATH + ['?'] + query, version)
                  then CALLBACK_PATH + ['?'] + query else CALLBACK_PATH;
    CallbackTarget(query, target);
    TargetIsRead(target, version, expectedState);
  }

  /** The state is checked first, then an error, and only then the code. */
  lemma CallbackIsAnswered(line: Text, query: Text, version: Text, expectedState: Text)
    requires IsCallback(line, query, version)
    ensures var r, params := ParseRequestLine(line, expectedState), Parse(query);
            var ours := First(params, STATE) == Some(expectedState);
            && (r == Err(StateMismatch) <==> !ours)
            && (forall reason :: r == Err(Denied(reason)) <==> ours && First(params, ERROR) == Some(reason))
            && (r == Err(MissingCode) <==>
                  ours && First(params, ERROR) == None && First(params, CODE) in {None, Some([])})
            && (forall code :: r == Ok(code) <==>
                  ours && First(params, ERROR) == None && First(params, CODE) == Some(code) && code != [])
  {
    CallbackIsRead(line, query, version, expectedState);
  }

  /** Three parts: something, a path, and what starts with the name of the protocol. */
  predicate IsRequestLine(line: Text, httpMethod: Text, target: Text, version: Text) {
    && line == RequestLine(httpMethod, target, version)
    && httpMethod != [] && StartsWith(target, "/") && StartsWith(version, HTTP)
    && ' ' !in httpMethod && ' ' !in target && ' ' !in version
  }

  lemma RequestLineIsRead(line: Text, httpMethod: Text, target: Text, version: Text, expectedState: Text)
    requires IsRequestLine(line, httpMethod, target, version)
    ensures ParseRequestLine(line, expectedState) != Err(Malformed)
  {
    RequestLineParts(httpMethod, target, version);
    var parts := Split(line, ' ');
    assert parts == [httpMethod, target, version] && parts[1] == target;
    CodeIsNotMalformed(Parse(SplitTarget(parts[1]).1), expectedState);
  }

  lemma CodeIsNotMalformed(params: Params, expectedState: Text)
    ensures CodeFrom(params, expectedState) != Err(Malformed)
  {
  }

  lemma ReadIsRequestLine(line: Text, expectedState: Text) returns (httpMethod: Text, target: Text, version: Text)
    requires ParseRequestLine(line, expectedState) != Err(Malformed)
    ensures IsRequestLine(line, httpMethod, target, version)
  {
    var parts := Split(line, ' ');
    LineOfParts(line);
    httpMethod, target, version := parts[0], parts[1], parts[2];
    assert parts[0] in parts && parts[1] in parts && parts[2] in parts;
  }

  /** What is no request line at all is malformed, and nothing else is. */
  lemma MalformedExactly(line: Text, expectedState: Text)
    ensures ParseRequestLine(line, expectedState) == Err(Malformed) <==>
            forall httpMethod, target, version :: !IsRequestLine(line, httpMethod, target, version)
  {
    if httpMethod, target, version :| IsRequestLine(line, httpMethod, target, version) {
      RequestLineIsRead(line, httpMethod, target, version, expectedState);
    }
    if ParseRequestLine(line, expectedState) != Err(Malformed) {
      var httpMethod, target, version := ReadIsRequestLine(line, expectedState);
      assert IsRequestLine(line, httpMethod, target, version);
    }
  }

  // ---- how much of a line is needed ----

  lemma {:induction false} TrimEndNothing(t: Text)
    requires t != [] ==> !IsSpace(t[|t| - 1])
    ensures TrimEnd(t) == t
  {
  }

  /** A line with less than the name of the protocol is no request line. */
  lemma ShortVersion(target: Text, version: Text, expectedState: Text)
    requires ' ' !in target && ' ' !in version && |version| < |HTTP|
    ensures ParseRequestLine(RequestLine(GET, target, version), expectedState) == Err(Malformed)
  {
    RequestLineParts(GET, target, version);
  }

  lemma NoVersion(target: Text, expectedState: Text)
    requires ' ' !in target
    ensures ParseRequestLine(Join([GET, target], ' '), expectedState) == Err(Malformed)
  {
    SplitJoin([GET, target], ' ');
  }

  lemma JoinTwo(a: Text, b: Text)
    ensures Join([a, b], ' ') == a + [' '] + b
  {
    assert [a, b][1..] == [b];
  }

  lemma LineShape(target: Text, version: Text)
    ensures Join([GET, target], ' ') == GET + [' '] + target
    ensures RequestLine(GET, target, version) == GET + [' '] + target + [' '] + version
  {
    JoinTwo(GET, target);
    JoinTwo(target, version);
    assert [GET, target, version][1..] == [target, version];
    assert RequestLine(GET, target, version) == GET + [' '] + (target + [' '] + version);
  }

  lemma CutTexts(a: Text, b: Text, n: nat)
    requires |a| <= n <= |a + b|
    ensures (a + b)[..n] == a + b[..n - |a|]
  {
  }

  /** What is left of a request line that is cut. */
  lemma CutLine(target: Text, version: Text, n: nat)
    requires |GET| + 1 < n <= |RequestLine(GET, target, version)|
    ensures var k := n - |GET| - 1;
            RequestLine(GET, target, version)[..n] ==
            if k <= |target| then Join([GET, target[..k]], ' ')
            else if k - |target| - 1 <= |version| then RequestLine(GET, target, version[..k - |target| - 1]) else []
  {
    var k := n - |GET| - 1;
    LineShape(target, version);
    if k <= |target| {
      LineShape(target[..k], version);
      assert GET + [' '] + target + [' '] + version == (GET + [' ']) + (target + [' '] + version);
      CutTexts(GET + [' '], target + [' '] + version, n);
      assert (target + [' '] + version)[..k] == target[..k];
    } else {
      LineShape(target, version[..k - |target| - 1]);
      CutTexts(GET + [' '] + target + [' '], version, n);
    }
  }

  lemma LastOfLine(target: Text, version: Text)
    ensures var line := RequestLine(GET, target, version);
            && |line| == |GET| + |target| + |version| + 2
            && (if version == [] then line == Join([GET, target], ' ') + [' ']
                else line[|line| - 1] == version[|version| - 1])
    ensures var cut := Join([GET, target], ' ');
            cut != [] && (target != [] ==> cut[|cut| - 1] == target[|target| - 1])
  {
    LineShape(target, version);
  }

  lemma NoVersionIsRead(target: Text, expectedState: Text)
    requires target != [] && forall b | b in target :: !IsSpace(b)
    ensures ParseRequestLine(TrimEnd(Join([GET, target], ' ')), expectedState) == Err(Malformed)
    ensures ParseRequestLine(TrimEnd(RequestLine(GET, target, [])), expectedState) == Err(Malformed)
  {
    var cut := Join([GET, target], ' ');
    LastOfLine(target, []);
    TrimEndNothing(cut);
    assert (cut + [' '])[..|cut|] == cut;
    NoVersion(target, expectedState);
  }

  lemma VersionIsRead(target: Text, version: Text, expectedState: Text)
    requires StartsWith(target, "/") && forall b | b in target :: !IsSpace(b)
    requires version != [] && version <= HTTP_1_1
    ensures ParseRequestLine(TrimEnd(RequestLine(GET, target, version)), expectedState) ==
            if |version| < |HTTP| then Err(Malformed)
            else ParseRequestLine(RequestLine(GET, target, HTTP_1_1), expectedState)
  {
    LastOfLine(target, version);
    assert HTTP_1_1[|version| - 1] == version[|version| - 1];
    TrimEndNothing(RequestLine(GET, target, version));
    if |version| < |HTTP| {
      ShortVersion(target, version, expectedState);
    } else {
      TargetIsRead(target, version, expectedState);
      TargetIsRead(target, HTTP_1_1, expectedState);
    }
  }

  /** A line that is too long for the reader loses the end of its version first, and is understood
      as long as the protocol's name is left; after that it is malformed. */
  lemma LongLineIsRead(limit: nat, target: Text, expectedState: Text)
    requires limit > |GET| + 1 && StartsWith(target, "/") && forall b | b in target :: !IsSpace(b)
    ensures var line := RequestLine(GET, target, HTTP_1_1);
            ParseRequestLine(TrimEnd(UpTo(limit, line)), expectedState) ==
            if |line| <= limit + |HTTP_1_1| - |HTTP| then ParseRequestLine(line, expectedState) else Err(Malformed)
  {
    var k := limit - |GET| - 1;
    LastOfLine(target, HTTP_1_1);
    if k <= |target| + 1 + |HTTP_1_1| {
      CutLine(target, HTTP_1_1, limit);
    }
    if k <= |target| {
      NoVersionIsRead(target[..k], expectedState);
    } else if k == |target| + 1 {
      NoVersionIsRead(target, expectedState);
    } else if k < |target| + 1 + |HTTP_1_1| {
      VersionIsRead(target, HTTP_1_1[..k - |target| - 1], expectedState);
    } else {
      VersionIsRead(target, HTTP_1_1, expectedState);
    }
  }

  lemma LineOfParts(line: Text)
    requires |Split(line, ' ')| == 3
    ensures var parts := Split(line, ' '); line == RequestLine(parts[0], parts[1], parts[2])
  {
    JoinSplit(line, ' ');
    var parts := Split(line, ' ');
    assert parts == [parts[0], parts[1], parts[2]];
  }

  /** And nothing else can end the login: a line that is not a callback is answered 404. */
  lemma OnlyCallbacksDecide(line: Text, expectedState: Text)
    ensures Decides(ParseRequestLine(line, expectedState)) <==>
            exists query, version :: IsCallback(line, query, version)
  {
    if query, version :| IsCallback(line, query, version) {
      CallbackIsRead(line, query, version, expectedState);
    }
    if Decides(ParseRequestLine(line, expectedState)) {
      var parts := Split(line, ' ');
      LineOfParts(line);
      var query := SplitTarget(parts[1]).1;
      assert parts[1] == CALLBACK_PATH + ['?'] + query || (query == [] && parts[1] == CALLBACK_PATH);
      assert parts[1] in parts && parts[2] in parts;
      assert ' ' !in query;
      assert IsCallback(line, query, parts[2]);
    }
  }

  /** A code is returned only under the expected state: a forged callback never ends in a login. */
  lemma CodeNeedsState(line: Text, expectedState: Text)
    requires ParseRequestLine(line, expectedState).Ok?
    ensures exists query, version | IsCallback(line, query, version) ::
              && First(Parse(query), STATE) == Some(expectedState)
              && !Contains(Parse(query), ERROR)
              && Value(Parse(query), CODE) == Some(ParseRequestLine(line, expectedState).value)
  {
    OnlyCallbacksDecide(line, expectedState);
    var query, version :| IsCallback(line, query, version);
    CallbackIsRead(line, query, version, expectedState);
  }

  // ---- waiting ----

  /** Whether a connection ends the wait. */
  predicate Decides(r: Result<Text, CallbackError>) {
    r.Ok? || (r.error != NotCallback && r.error != Malformed)
  }

  function StatusFor(r: Result<Text, CallbackError>): nat {
    if r.Ok? then 200 else if Decides(r) then 400 else 404
  }

  /** A connection sends a request line, or nothing in time. */
  type Connection = Option<Text>

  type Parser = Text -> Result<Text, CallbackError>

  predicate DecidesAt(connections: seq<Connection>, parse: Parser, i: nat)
    requires i < |connections|
  {
    connections[i].Some? && Decides(parse(connections[i].value))
  }

  /** How many connections sent a line. */
  function LinesIn(connections: seq<Connection>): nat {
    if connections == [] then 0
    else LinesIn(connections[..|connections| - 1]) + (if connections[|connections| - 1].Some? then 1 else 0)
  }

  lemma LinesStep(connections: seq<Connection>, n: nat)
    requires n < |connections|
    ensures LinesIn(connections[..n + 1]) == LinesIn(connections[..n]) + (if connections[n].Some? then 1 else 0)
  {
    assert connections[..n + 1][..n] == connections[..n];
  }

  /** Serves the connections that come before the overall timeout: the first that decides gives
      the result, every other request line gets a 404, silent connections get nothing. */
  method AcceptUntilCallback(connections: seq<Connection>, parse: Parser)
    returns (result: Option<Result<Text, CallbackError>>, served: nat, responses: seq<nat>)
    ensures served <= |connections|
    ensures |responses| == LinesIn(connections[..served])
    ensures forall k | 0 <= k < |responses| && (result.None? || k < |responses| - 1) :: responses[k] == 404
    ensures result.Some? ==>
              |responses| > 0 && responses[|responses| - 1] == if result.value.Ok? then 200 else 400
    ensures result.None? <==> forall i | 0 <= i < |connections| :: !DecidesAt(connections, parse, i)
    ensures result.None? ==> served == |connections|
    ensures result.Some? ==>
              && served > 0
              && DecidesAt(connections, parse, served - 1)
              && (forall i | 0 <= i < served - 1 :: !DecidesAt(connections, parse, i))
              && result.value == parse(connections[served - 1].value)
  {
    served, responses := 0, [];
    assert connections[..0] == [];
    while served < |connections|
      invariant served <= |connections|
      invariant |responses| == LinesIn(connections[..served])
      invariant forall k | 0 <= k < |responses| :: responses[k] == 404
      invariant forall i | 0 <= i < served :: !DecidesAt(connections, parse, i)
    {
      var connection := connections[served];
      LinesStep(connections, served);
      served := served + 1;
      if connection.None? {
        continue;
      }
      var r := parse(connection.value);
      responses := responses + [StatusFor(r)];
      if Decides(r) {
        assert DecidesAt(connections, parse, served - 1);
        return Some(r), served, responses;
      }
    }
    assert connections[..served] == connections;
    result := None;
  }

  /** `wait_for_code`: `None` is the timeout. */
  method WaitForCode(connections: seq<Connection>, expectedState: Text)
    returns (result: Option<Result<Text, CallbackError>>)
    ensures var parse := line => Heard(line, expectedState);
            match result
            case None => forall i | 0 <= i < |connections| :: !DecidesAt(connections, parse, i)
            case Some(r) =>
              exists i | 0 <= i < |connections| ::
                && DecidesAt(connections, parse, i)
                && r == Heard(connections[i].value, expectedState)
                && forall j | 0 <= j < i :: !DecidesAt(connections, parse, j)
  {
    var served, responses;
    result, served, responses := AcceptUntilCallback(connections, line => Heard(line, expectedState));
  }
}
