/** Which byte strings are UTF-8 (RFC 3629). */
module Utf8 {
  import opened Bytes

  predicate Continuation(b: byte) { 0x80 <= b as int <= 0xBF }

  /** The length of the UTF-8 sequence a text starts with, or 0 (RFC 3629 section 4). */
  function Utf8Head(t: Text): (n: nat)
    ensures n <= |t| && n <= 4
  {
    if t == [] then 0
    else
      var b := t[0] as int;
      if b <= 0x7F then 1
      else if |t| < 2 || !Continuation(t[1]) then 0
      else if 0xC2 <= b <= 0xDF then 2
      else if |t| < 3 || !Continuation(t[2]) then 0
      else if 0xE0 <= b <= 0xEF && (b == 0xE0 ==> t[1] as int >= 0xA0) && (b == 0xED ==> t[1] as int <= 0x9F) then 3
      else if |t| < 4 || !Continuation(t[3]) then 0
      else if 0xF0 <= b <= 0xF4 && (b == 0xF0 ==> t[1] as int >= 0x90) && (b == 0xF4 ==> t[1] as int <= 0x8F) then 4
      else 0
  }

  predicate IsUtf8(t: Text)
    decreases |t|
  {
    t == [] || (Utf8Head(t) > 0 && IsUtf8(t[Utf8Head(t)..]))
  }

  lemma Utf8HeadAppend(a: Text, b: Text)
    ensures Utf8Head(a) > 0 ==> Utf8Head(a + b) == Utf8Head(a)
  {
  }

  lemma Utf8Prepend(a: Text, b: Text)
    requires Utf8Head(a) > 0 && IsUtf8(a[Utf8Head(a)..] + b)
    ensures IsUtf8(a + b)
  {
    Utf8HeadAppend(a, b);
    assert (a + b)[Utf8Head(a)..] == a[Utf8Head(a)..] + b;
  }

  lemma {:induction false} Utf8Concat(a: Text, b: Text)
    requires IsUtf8(a) && IsUtf8(b)
    ensures IsUtf8(a + b)
    decreases |a|
  {
    if a == [] {
      assert a + b == b;
    } else {
      Utf8Concat(a[Utf8Head(a)..], b);
      Utf8Prepend(a, b);
    }
  }

  lemma Utf8HeadBefore(a: Text, c: byte, b: Text)
    requires a != [] && c as int < 0x80 && Utf8Head(a + [c] + b) > 0
    ensures Utf8Head(a) == Utf8Head(a + [c] + b)
  {
    var t := a + [c] + b;
    assert t[|a|] == c && !Continuation(c);
    assert forall i | 0 <= i < |a| :: t[i] == a[i];
  }

  /** No UTF-8 sequence goes on across an ASCII byte. */
  lemma {:induction false} Utf8Split(a: Text, c: byte, b: Text)
    requires c as int < 0x80 && IsUtf8(a + [c] + b)
    ensures IsUtf8(a) && IsUtf8(b)
    decreases |a|
  {
    var t := a + [c] + b;
    var n := Utf8Head(t);
    if a == [] {
      assert t[0] == c && t[1..] == b;
    } else {
      Utf8HeadBefore(a, c, b);
      assert t[n..] == a[n..] + [c] + b;
      Utf8Split(a[n..], c, b);
    }
  }

  // ---- what that means ----

  /** A Unicode scalar value: any code point that is not a surrogate. */
  predicate IsScalar(n: int) {
    0 <= n < 0xD800 || 0xE000 <= n <= 0x10FFFF
  }

  /** Six bits of a scalar value. */
  predicate IsTail(b: byte, bits: int) {
    0 <= bits < 64 && b as int == 0x80 + bits
  }

  /** The table of section 3: the bits of the scalar value, in the least number of bytes. */
  ghost predicate Encodes(t: Text, n: int) {
    && IsScalar(n)
    && match |t|
       case 1 => t[0] as int == n < 0x80
       case 2 => exists a, b :: TwoBytes(t, n, a, b)
       case 3 => exists a, b, c :: ThreeBytes(t, n, a, b, c)
       case 4 => exists a, b, c, d :: FourBytes(t, n, a, b, c, d)
       case _ => false
  }

  predicate TwoBytes(t: Text, n: int, a: int, b: int)
    requires |t| == 2
  {
    && 0 <= a < 32 && t[0] as int == 0xC0 + a && IsTail(t[1], b)
    && n == a * 64 + b >= 0x80
  }

  predicate ThreeBytes(t: Text, n: int, a: int, b: int, c: int)
    requires |t| == 3
  {
    && 0 <= a < 16 && t[0] as int == 0xE0 + a && IsTail(t[1], b) && IsTail(t[2], c)
    && n == a * 4096 + b * 64 + c >= 0x800
  }

  predicate FourBytes(t: Text, n: int, a: int, b: int, c: int, d: int)
    requires |t| == 4
  {
    && 0 <= a < 8 && t[0] as int == 0xF0 + a && IsTail(t[1], b) && IsTail(t[2], c) && IsTail(t[3], d)
    && n == a * 0x4_0000 + b * 4096 + c * 64 + d >= 0x1_0000
  }

  lemma EncodesOnlyOne(t: Text, n: int, m: int)
    requires Encodes(t, n) && Encodes(t, m)
    ensures n == m
  {
  }

  lemma EncodedHead(t: Text, n: int, rest: Text)
    requires Encodes(t, n)
    ensures Utf8Head(t + rest) == |t|
  {
  }

  /** The scalar value that a sequence encodes. */
  lemma HeadIsEncoded(t: Text) returns (n: int)
    requires Utf8Head(t) > 0
    ensures Encodes(t[..Utf8Head(t)], n)
  {
    var head := t[..Utf8Head(t)];
    var first := head[0] as int;
    match |head|
    case 1 => n := first;
    case 2 =>
      n := (first - 0xC0) * 64 + (head[1] as int - 0x80);
      assert TwoBytes(head, n, first - 0xC0, head[1] as int - 0x80);
    case 3 =>
      n := (first - 0xE0) * 4096 + (head[1] as int - 0x80) * 64 + (head[2] as int - 0x80);
      assert ThreeBytes(head, n, first - 0xE0, head[1] as int - 0x80, head[2] as int - 0x80);
    case 4 =>
      n := (first - 0xF0) * 0x4_0000 + (head[1] as int - 0x80) * 4096
           + (head[2] as int - 0x80) * 64 + (head[3] as int - 0x80);
      assert FourBytes(head, n, first - 0xF0, head[1] as int - 0x80, head[2] as int - 0x80, head[3] as int - 0x80);
  }

  ghost predicate EncodesOne(t: Text) {
    exists n :: Encodes(t, n)
  }

  /** The encodings of some scalar values, one after the other. */
  ghost predicate EncodesAll(t: Text, parts: seq<Text>) {
    && t == Flatten(parts)
    && forall k | 0 <= k < |parts| :: EncodesOne(parts[k])
  }

  function Flatten(parts: seq<Text>): Text {
    if parts == [] then [] else parts[0] + Flatten(parts[1..])
  }

  lemma {:induction false} EncodedIsUtf8(t: Text, parts: seq<Text>)
    requires EncodesAll(t, parts)
    ensures IsUtf8(t)
    decreases |parts|
  {
    if parts != [] {
      var head, rest := parts[0], Flatten(parts[1..]);
      EncodedIsUtf8(rest, parts[1..]);
      assert EncodesOne(head);
      var n :| Encodes(head, n);
      EncodedHead(head, n, rest);
      assert (head + rest)[|head|..] == rest;
    }
  }

  lemma {:induction false} Utf8IsEncoded(t: Text) returns (parts: seq<Text>)
    requires IsUtf8(t)
    ensures EncodesAll(t, parts)
    decreases |t|
  {
    parts := [];
    if t != [] {
      var n := HeadIsEncoded(t);
      var head, rest := t[..Utf8Head(t)], t[Utf8Head(t)..];
      var others := Utf8IsEncoded(rest);
      assert EncodesOne(head);
      parts := [head] + others;
      assert parts[1..] == others && t == head + rest;
    }
  }

  /** A byte string passes exactly when it is the encoding of some Unicode text. */
  lemma Utf8Exact(t: Text)
    ensures IsUtf8(t) <==> exists parts :: EncodesAll(t, parts)
  {
    if IsUtf8(t) {
      var parts := Utf8IsEncoded(t);
      assert EncodesAll(t, parts);
    }
    if parts :| EncodesAll(t, parts) {
      EncodedIsUtf8(t, parts);
    }
  }
}
