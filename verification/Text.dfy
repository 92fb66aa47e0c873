/** Go strings as the bytes they are, and the few scans the wire formats share. */
module Text {
  import opened Octets

  /** One byte, written as the character it stands for in ASCII. */
  type Byte = c: char | (c as int) < 256 witness 'a'

  type Text = seq<Byte>

  /** `strings.IndexByte`: the first place `c` occurs, or -1. */
  function IndexByte(s: Text, c: Byte): (i: int)
    ensures -1 <= i < |s|
    ensures i < 0 <==> c !in s
    ensures 0 <= i ==> s[i] == c && c !in s[..i]
  {
    if s == [] then -1
    else if s[0] == c then 0
    else var i := IndexByte(s[1..], c);
         assert s == [s[0]] + s[1..];
         if i < 0 then -1
         else assert s[..i + 1] == [s[0]] + s[1..][..i]; i + 1
  }

  lemma {:induction false} IndexIsFirst(s: Text, c: Byte, i: nat)
    requires i < |s| && s[i] == c && c !in s[..i]
    ensures IndexByte(s, c) == i
  {
    if i > 0 {
      assert s[0] in s[..i];
      assert s[..i][1..] == s[1..][..i - 1];
      IndexIsFirst(s[1..], c, i - 1);
    }
  }

  lemma IndexAfter(s: Text, c: Byte, t: Text)
    requires c !in s
    ensures IndexByte(s + [c] + t, c) == |s|
  {
    IndexIsFirst(s + [c] + t, c, |s|);
  }

  /** `strings.Split` on one byte. */
  function Split(s: Text, c: Byte): (parts: seq<Text>)
    ensures |parts| > 0
    ensures forall p :: p in parts ==> c !in p
    decreases |s|
  {
    var i := IndexByte(s, c);
    if i < 0 then [s] else [s[..i]] + Split(s[i + 1..], c)
  }

  function Join(parts: seq<Text>, c: Byte): Text {
    if parts == [] then []
    else if |parts| == 1 then parts[0]
    else parts[0] + [c] + Join(parts[1..], c)
  }

  lemma {:induction false} SplitInvertsJoin(parts: seq<Text>, c: Byte)
    requires parts != [] && forall p :: p in parts ==> c !in p
    ensures Split(Join(parts, c), c) == parts
  {
    if |parts| > 1 {
      var rest := Join(parts[1..], c);
      IndexAfter(parts[0], c, rest);
      SplitInvertsJoin(parts[1..], c);
      assert Join(parts, c)[..|parts[0]|] == parts[0];
      assert Join(parts, c)[|parts[0]| + 1..] == rest;
    }
  }

  lemma SplitFirst(s: Text, c: Byte, i: nat)
    requires i < |s| && s[i] == c && c !in s[..i]
    ensures Split(s, c) == [s[..i]] + Split(s[i + 1..], c)
  {
    IndexIsFirst(s, c, i);
  }

  lemma JoinFirst(p: Text, rest: seq<Text>, c: Byte)
    requires rest != []
    ensures Join([p] + rest, c) == p + [c] + Join(rest, c)
  {
    assert ([p] + rest)[1..] == rest;
  }

  lemma {:induction false} JoinInvertsSplit(s: Text, c: Byte)
    ensures Join(Split(s, c), c) == s
    decreases |s|
  {
    var i := IndexByte(s, c);
    if i >= 0 {
      JoinInvertsSplit(s[i + 1..], c);
      SplitFirst(s, c, i);
      JoinFirst(s[..i], Split(s[i + 1..], c), c);
      assert s == s[..i] + [c] + s[i + 1..];
    }
  }

  lemma {:induction false} JoinSnoc(parts: seq<Text>, p: Text, c: Byte)
    ensures Join(parts + [p], c) == if parts == [] then p else Join(parts, c) + [c] + p
  {
    if |parts| > 1 {
      JoinSnoc(parts[1..], p, c);
      assert (parts + [p])[1..] == parts[1..] + [p];
    } else if |parts| == 1 {
      assert (parts + [p])[1..] == [p];
    }
  }

  lemma SplitSnoc(s: Text, c: Byte)
    ensures Split(s + [c], c) == Split(s, c) + [[]]
  {
    var parts := Split(s, c);
    JoinInvertsSplit(s, c);
    JoinSnoc(parts, [], c);
    assert s + [c] + [] == s + [c];
    SplitInvertsJoin(parts + [[]], c);
  }

  /** Reading what comes after what was already read. */
  function Prefixed<T, E>(out: seq<T>, r: Result<seq<T>, E>): Result<seq<T>, E> {
    match r
    case Ok(rest) => Ok(out + rest)
    case Err(e) => Err(e)
  }

  lemma PrefixedMore<T, E>(out: seq<T>, x: T, r: Result<seq<T>, E>)
    ensures Prefixed(out, Prefixed([x], r)) == Prefixed(out + [x], r)
  {
    if r.Ok? {
      assert out + ([x] + r.value) == out + [x] + r.value;
    }
  }

  lemma PrefixedNone<T, E>(out: seq<T>, r: Result<seq<T>, E>)
    ensures Prefixed([], r) == r && Prefixed<T, E>(out, Ok([])) == Ok(out)
  {
    assert out + [] == out;
    if r.Ok? {
      assert [] + r.value == r.value;
    }
  }

  /** `strings.TrimSpace`, for the ASCII blanks. */
  predicate Blank(c: Byte) {
    c == ' ' || 9 <= c as int <= 13
  }

  function TrimLeft(s: Text): Text {
    if s != [] && Blank(s[0]) then TrimLeft(s[1..]) else s
  }

  function TrimRight(s: Text): Text {
    if s != [] && Blank(s[|s| - 1]) then TrimRight(s[..|s| - 1]) else s
  }

  function TrimSpace(s: Text): Text {
    TrimRight(TrimLeft(s))
  }

  lemma TrimsNothing(s: Text)
    requires s != [] ==> !Blank(s[0]) && !Blank(s[|s| - 1])
    ensures TrimSpace(s) == s
  {
  }

  function Lower(c: Byte): Byte {
    if 'A' <= c <= 'Z' then (c as int + 32) as char else c
  }

  /** `strings.EqualFold`, for ASCII letters. */
  predicate EqualFold(a: Text, b: Text) {
    |a| == |b| && forall i :: 0 <= i < |a| ==> Lower(a[i]) == Lower(b[i])
  }
}
