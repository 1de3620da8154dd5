/** Byte strings and the few `str` operations the OAuth code uses. A byte is written as the
    character with that code, so ASCII literals read as they do in the source. */
module Bytes {
  import opened Wrappers

  type byte = c: char | c as int < 256 witness '\0'
  type Text = seq<byte>

  predicate IsLower(c: byte) { 'a' <= c <= 'z' }
  predicate IsUpper(c: byte) { 'A' <= c <= 'Z' }
  predicate IsDigit(c: byte) { '0' <= c <= '9' }
  predicate IsAlphanumeric(c: byte) { IsLower(c) || IsUpper(c) || IsDigit(c) }

  function ToLower(c: byte): byte {
    if IsUpper(c) then (c as int + 32) as char else c
  }

  predicate EqualsIgnoreCase(a: Text, b: Text) {
    |a| == |b| && forall i | 0 <= i < |a| :: ToLower(a[i]) == ToLower(b[i])
  }

  predicate StartsWith(s: Text, prefix: Text) {
    |prefix| <= |s| && s[..|prefix|] == prefix
  }

  predicate IsSpace(b: byte) {
    b == ' ' || 9 <= b as int <= 13
  }

  function TrimStart(t: Text): (trimmed: Text)
    ensures |trimmed| <= |t|
  {
    if t != [] && IsSpace(t[0]) then TrimStart(t[1..]) else t
  }

  function TrimEnd(t: Text): (trimmed: Text)
    ensures |trimmed| <= |t|
  {
    if t != [] && IsSpace(t[|t| - 1]) then TrimEnd(t[..|t| - 1]) else t
  }

  function Trim(t: Text): Text {
    TrimEnd(TrimStart(t))
  }

  // ---- what trimming leaves ----

  /** The ASCII white space of `str::trim`: tab, line feed, vertical tab, form feed, carriage return
      and space. */
  const WHITE_SPACE: set<int> := {9, 10, 11, 12, 13, 32}

  predicate Blank(t: Text) {
    forall i | 0 <= i < |t| :: t[i] as int in WHITE_SPACE
  }

  /** Neither the first nor the last byte is white space. */
  predicate Trimmed(t: Text) {
    t != [] ==> t[0] as int !in WHITE_SPACE && t[|t| - 1] as int !in WHITE_SPACE
  }

  lemma SpaceIsWhiteSpace(b: byte)
    ensures IsSpace(b) <==> b as int in WHITE_SPACE
  {
  }

  lemma {:induction false} TrimStartBlank(pre: Text, rest: Text)
    requires Blank(pre) && (rest != [] ==> rest[0] as int !in WHITE_SPACE)
    ensures TrimStart(pre + rest) == rest
  {
    if pre == [] {
      assert pre + rest == rest;
      if rest != [] {
        SpaceIsWhiteSpace(rest[0]);
      }
    } else {
      assert (pre + rest)[1..] == pre[1..] + rest;
      SpaceIsWhiteSpace(pre[0]);
      TrimStartBlank(pre[1..], rest);
    }
  }

  lemma {:induction false} TrimEndBlank(rest: Text, post: Text)
    requires Blank(post) && (rest != [] ==> rest[|rest| - 1] as int !in WHITE_SPACE)
    ensures TrimEnd(rest + post) == rest
    decreases |post|
  {
    if post == [] {
      assert rest + post == rest;
      if rest != [] {
        SpaceIsWhiteSpace(rest[|rest| - 1]);
      }
    } else {
      var n := |post| - 1;
      assert (rest + post)[..|rest| + n] == rest + post[..n];
      SpaceIsWhiteSpace(post[n]);
      TrimEndBlank(rest, post[..n]);
    }
  }

  /** Trimming removes the white space around a text, all of it and nothing else. */
  lemma TrimExact(pre: Text, core: Text, post: Text)
    requires Blank(pre) && Blank(post) && Trimmed(core)
    ensures Trim(pre + core + post) == core
  {
    if core == [] {
      TrimStartBlank(pre + core + post, []);
      assert (pre + core + post) + [] == pre + core + post;
    } else {
      assert pre + core + post == pre + (core + post);
      TrimStartBlank(pre, core + post);
      TrimEndBlank(core, post);
    }
  }

  lemma {:induction false} TrimStartSplits(t: Text) returns (pre: Text)
    ensures Blank(pre) && t == pre + TrimStart(t)
    ensures TrimStart(t) != [] ==> TrimStart(t)[0] as int !in WHITE_SPACE
  {
    pre := [];
    if t != [] {
      SpaceIsWhiteSpace(t[0]);
      if IsSpace(t[0]) {
        pre := TrimStartSplits(t[1..]);
        pre := [t[0]] + pre;
      }
    }
  }

  lemma SplitLast(t: Text, head: Text, post: Text)
    requires t != [] && t[..|t| - 1] == head + post
    ensures t == head + (post + [t[|t| - 1]])
  {
  }

  lemma {:induction false} TrimEndSplits(t: Text) returns (post: Text)
    ensures Blank(post) && t == TrimEnd(t) + post
    ensures TrimEnd(t) != [] ==> TrimEnd(t)[|TrimEnd(t)| - 1] as int !in WHITE_SPACE
    decreases |t|
  {
    post := [];
    if t != [] {
      var n := |t| - 1;
      SpaceIsWhiteSpace(t[n]);
      if IsSpace(t[n]) {
        var shorter := TrimEndSplits(t[..n]);
        post := shorter + [t[n]];
        SplitLast(t, TrimEnd(t[..n]), shorter);
      }
    }
  }

  /** So every text is what trimming leaves of it, between white space. */
  lemma TrimSplits(t: Text) returns (pre: Text, post: Text)
    ensures Blank(pre) && Blank(post) && Trimmed(Trim(t)) && t == pre + Trim(t) + post
  {
    pre := TrimStartSplits(t);
    post := TrimEndSplits(TrimStart(t));
    if Trim(t) != [] {
      assert Trim(t)[0] == TrimStart(t)[0];
    }
  }

  // ---- comparing without case ----

  /** The same byte, or the same letter in the other case. */
  predicate SameLetter(a: byte, b: byte) {
    || a == b
    || ('A' <= a <= 'Z' && b as int == a as int + 32)
    || ('A' <= b <= 'Z' && a as int == b as int + 32)
  }

  lemma IgnoreCaseExact(a: Text, b: Text)
    ensures EqualsIgnoreCase(a, b) <==> |a| == |b| && forall i | 0 <= i < |a| :: SameLetter(a[i], b[i])
  {
    forall i | 0 <= i < |a| && i < |b| ensures ToLower(a[i]) == ToLower(b[i]) <==> SameLetter(a[i], b[i]) {
    }
  }

  // ---- splitting ----

  /** The position of the first `c`, or `|s|` when there is none. */
  function IndexOf(s: Text, c: byte): (i: nat)
    ensures i <= |s|
    ensures c !in s[..i]
    ensures i < |s| ==> s[i] == c
    ensures i == |s| <==> c !in s
  {
    if s == [] then 0
    else if s[0] == c then 0
    else
      assert s == [s[0]] + s[1..];
      1 + IndexOf(s[1..], c)
  }

  /** The first occurrence splits a text in one way only. */
  lemma {:induction false} IndexOfAppend(a: Text, c: byte, b: Text)
    requires c !in a
    ensures IndexOf(a + [c] + b, c) == |a|
  {
    var s := a + [c] + b;
    if a != [] {
      IndexOfAppend(a[1..], c, b);
      assert s[1..] == a[1..] + [c] + b;
      assert a[0] in a;
    }
  }

  /** `str::split_once`: the parts around the first `c`. */
  function SplitOnce(s: Text, c: byte): (r: Option<(Text, Text)>)
    ensures r.Some? ==> c !in r.value.0 && s == r.value.0 + [c] + r.value.1
    ensures r.None? <==> c !in s
  {
    var i := IndexOf(s, c);
    if i == |s| then None else Some((s[..i], s[i + 1..]))
  }

  lemma SplitOnceAppend(a: Text, c: byte, b: Text)
    requires c !in a
    ensures SplitOnce(a + [c] + b, c) == Some((a, b))
  {
    IndexOfAppend(a, c, b);
    var s := a + [c] + b;
    assert s[..|a|] == a && s[|a| + 1..] == b;
  }

  /** `str::split`: the pieces between the separators, always at least one. */
  function Split(s: Text, c: byte): (pieces: seq<Text>)
    ensures |pieces| >= 1
    ensures forall p | p in pieces :: c !in p
    ensures c !in s ==> pieces == [s]
    decreases |s|
  {
    var i := IndexOf(s, c);
    if i == |s| then [s] else [s[..i]] + Split(s[i + 1..], c)
  }

  /** Inverse of `Split`. */
  function Join(pieces: seq<Text>, c: byte): Text
    requires |pieces| >= 1
  {
    if |pieces| == 1 then pieces[0] else pieces[0] + [c] + Join(pieces[1..], c)
  }

  lemma {:induction false} SplitStep(a: Text, c: byte, b: Text)
    requires c !in a
    ensures Split(a + [c] + b, c) == [a] + Split(b, c)
  {
    IndexOfAppend(a, c, b);
    var s := a + [c] + b;
    assert s[..|a|] == a && s[|a| + 1..] == b;
  }

  lemma {:induction false} SplitJoin(pieces: seq<Text>, c: byte)
    requires |pieces| >= 1
    requires forall p | p in pieces :: c !in p
    ensures Split(Join(pieces, c), c) == pieces
  {
    if |pieces| > 1 {
      var rest := pieces[1..];
      SplitJoin(rest, c);
      SplitStep(pieces[0], c, Join(rest, c));
      assert pieces == [pieces[0]] + rest;
    }
  }

  lemma {:induction false} JoinSplit(s: Text, c: byte)
    ensures Join(Split(s, c), c) == s
    decreases |s|
  {
    match SplitOnce(s, c)
    case None =>
    case Some((head, tail)) =>
      SplitStep(head, c, tail);
      JoinSplit(tail, c);
  }

  lemma Reassociate(head: Text, c: byte, tail: Text, d: Text, b: Text)
    ensures (head + [c] + tail) + d + b == head + [c] + (tail + d + b)
  {
  }

  lemma AppendToTail(head: Text, c: byte, tail: Text, b: Text)
    ensures (head + [c] + tail) + b == head + [c] + (tail + b)
    ensures tail != [] ==> (head + [c] + tail)[|head| + |tail|] == tail[|tail| - 1]
  {
  }

  lemma PrependToHead(a: Text, head: Text, c: byte, tail: Text)
    ensures a + (head + [c] + tail) == (a + head) + [c] + tail
    ensures head == [] ==> (head + [c] + tail)[0] == c
  {
  }

  lemma SplitFirst(s: Text, head: Text, c: byte, tail: Text)
    requires c !in head && s == head + [c] + tail
    ensures Split(s, c) == [head] + Split(tail, c)
  {
    SplitStep(head, c, tail);
  }

  lemma Prepended(head: Text, x: seq<Text>, y: seq<Text>)
    ensures [head] + (x + y) == ([head] + x) + y
  {
  }

  /** Splitting distributes over a separator. */
  lemma {:induction false} SplitConcat(a: Text, c: byte, b: Text)
    ensures Split(a + [c] + b, c) == Split(a, c) + Split(b, c)
    decreases |a|
  {
    match SplitOnce(a, c)
    case None =>
      SplitStep(a, c, b);
    case Some((head, tail)) =>
      SplitConcat(tail, c, b);
      Reassociate(head, c, tail, [c], b);
      SplitFirst(a + [c] + b, head, c, tail + [c] + b);
      SplitFirst(a, head, c, tail);
      Prepended(head, Split(tail, c), Split(b, c));
  }
}
