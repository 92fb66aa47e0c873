/** Strict unpadded base64, as section 4 of RFC 4648 and Go's decoder have it. */
module Base64 {
  import opened Octets
  import opened Text

  type Sextet = n: nat | n < 64

  function Letter(n: Sextet): Byte {
    if n < 26 then ('A' as int + n) as char
    else if n < 52 then ('a' as int + n - 26) as char
    else if n < 62 then ('0' as int + n - 52) as char
    else if n == 62 then '+' else '/'
  }

  function Sextets(c: Byte): Option<Sextet> {
    if 'A' <= c <= 'Z' then Some(c as int - 'A' as int)
    else if 'a' <= c <= 'z' then Some(c as int - 'a' as int + 26)
    else if '0' <= c <= '9' then Some(c as int - '0' as int + 52)
    else if c == '+' then Some(62) else if c == '/' then Some(63) else None
  }

  lemma LetterReadsBack(n: Sextet)
    ensures Sextets(Letter(n)) == Some(n) && Letter(n) != '$' && !LineBreak(Letter(n))
  {
  }

  lemma ReadIsLetter(c: Byte)
    requires Sextets(c).Some?
    ensures Letter(Sextets(c).value) == c
  {
  }

  /** The four sextets of three bytes. */
  function Sextet0(x: byte): Sextet {
    x / 4
  }

  function Sextet1(x: byte, y: byte): Sextet {
    x % 4 * 16 + y / 16
  }

  function Sextet2(y: byte, z: byte): Sextet {
    y % 16 * 4 + z / 64
  }

  function Sextet3(z: byte): Sextet {
    z % 64
  }

  /** The sextets of a byte string, the last one padded with zero bits. */
  function Split6(b: bytes): (s: seq<Sextet>) {
    if b == [] then []
    else if |b| == 1 then [Sextet0(b[0]), Sextet1(b[0], 0)]
    else if |b| == 2 then [Sextet0(b[0]), Sextet1(b[0], b[1]), Sextet2(b[1], 0)]
    else [Sextet0(b[0]), Sextet1(b[0], b[1]), Sextet2(b[1], b[2]), Sextet3(b[2])] + Split6(b[3..])
  }

  function Byte0(a: Sextet, b: Sextet): byte {
    a as int * 4 + b as int / 16
  }

  function Byte1(b: Sextet, c: Sextet): byte {
    b as int % 16 * 16 + c as int / 4
  }

  function Byte2(c: Sextet, d: Sextet): byte {
    c as int % 4 * 64 + d as int
  }

  /** The bytes of a run of sextets; leftover bits must be zero. */
  function Join6(s: seq<Sextet>): Option<bytes> {
    if s == [] then Some([])
    else if |s| == 1 then None
    else if |s| == 2 then if s[1] % 16 != 0 then None else Some([Byte0(s[0], s[1])])
    else if |s| == 3 then if s[2] % 4 != 0 then None else Some([Byte0(s[0], s[1]), Byte1(s[1], s[2])])
    else
      match Join6(s[4..])
      case None => None
      case Some(rest) => Some([Byte0(s[0], s[1]), Byte1(s[1], s[2]), Byte2(s[2], s[3])] + rest)
  }

  lemma BytesBack(x: byte, y: byte, z: byte)
    ensures Byte0(Sextet0(x), Sextet1(x, y)) == x && Byte1(Sextet1(x, y), Sextet2(y, z)) == y
    ensures Byte2(Sextet2(y, z), Sextet3(z)) == z
    ensures Sextet1(x, 0) % 16 == 0 && Sextet2(y, 0) % 4 == 0
  {
  }

  lemma SextetsBack(a: Sextet, b: Sextet, c: Sextet, d: Sextet)
    ensures Sextet0(Byte0(a, b)) == a && Sextet1(Byte0(a, b), Byte1(b, c)) == b
    ensures Sextet2(Byte1(b, c), Byte2(c, d)) == c && Sextet3(Byte2(c, d)) == d
  {
  }

  lemma PaddedBack(a: Sextet, b: Sextet, c: Sextet)
    ensures b % 16 == 0 ==> Sextet1(Byte0(a, b), 0) == b
    ensures c % 4 == 0 ==> Sextet2(Byte1(b, c), 0) == c
  {
  }

  lemma JoinTwo(a: Sextet, b: Sextet)
    requires b % 16 == 0
    ensures Join6([a, b]) == Some([Byte0(a, b)])
  {
  }

  lemma JoinThree(a: Sextet, b: Sextet, c: Sextet)
    requires c % 4 == 0
    ensures Join6([a, b, c]) == Some([Byte0(a, b), Byte1(b, c)])
  {
  }

  lemma JoinFour(a: Sextet, b: Sextet, c: Sextet, d: Sextet, more: seq<Sextet>)
    requires Join6(more).Some?
    ensures Join6([a, b, c, d] + more) == Some([Byte0(a, b), Byte1(b, c), Byte2(c, d)] + Join6(more).value)
  {
    assert ([a, b, c, d] + more)[4..] == more;
  }

  lemma SplitThree(x: byte, y: byte, z: byte, rest: bytes)
    ensures Split6([x, y, z] + rest) == [Sextet0(x), Sextet1(x, y), Sextet2(y, z), Sextet3(z)] + Split6(rest)
  {
    assert ([x, y, z] + rest)[3..] == rest;
  }

  lemma {:induction false} JoinInvertsSplit6(b: bytes)
    ensures Join6(Split6(b)) == Some(b)
  {
    if |b| >= 3 {
      var x, y, z, rest := b[0], b[1], b[2], b[3..];
      assert b == [x, y, z] + rest;
      JoinInvertsSplit6(rest);
      SplitThree(x, y, z, rest);
      JoinFour(Sextet0(x), Sextet1(x, y), Sextet2(y, z), Sextet3(z), Split6(rest));
      BytesBack(x, y, z);
    } else if |b| == 2 {
      assert b == [b[0], b[1]];
      BytesBack(b[0], b[1], 0);
      JoinThree(Sextet0(b[0]), Sextet1(b[0], b[1]), Sextet2(b[1], 0));
    } else if |b| == 1 {
      assert b == [b[0]];
      BytesBack(b[0], 0, 0);
      JoinTwo(Sextet0(b[0]), Sextet1(b[0], 0));
    }
  }

  lemma {:induction false} SplitInvertsJoin6(s: seq<Sextet>)
    requires Join6(s).Some?
    ensures Split6(Join6(s).value) == s
  {
    if |s| >= 4 {
      var a, b, c, d, more := s[0], s[1], s[2], s[3], s[4..];
      assert s == [a, b, c, d] + more;
      SplitInvertsJoin6(more);
      JoinFour(a, b, c, d, more);
      SplitThree(Byte0(a, b), Byte1(b, c), Byte2(c, d), Join6(more).value);
      SextetsBack(a, b, c, d);
    } else if |s| == 3 {
      assert s == [s[0], s[1], s[2]];
      SextetsBack(s[0], s[1], s[2], 0);
      PaddedBack(s[0], s[1], s[2]);
    } else if |s| == 2 {
      assert s == [s[0], s[1]];
      SextetsBack(s[0], s[1], 0, 0);
      PaddedBack(s[0], s[1], 0);
    }
  }

  function Letters(s: seq<Sextet>): (t: Text)
    ensures |t| == |s|
  {
    if s == [] then [] else [Letter(s[0])] + Letters(s[1..])
  }

  function AllSextets(t: Text): Option<seq<Sextet>> {
    if t == [] then Some([])
    else if Sextets(t[0]).None? || AllSextets(t[1..]).None? then None
    else Some([Sextets(t[0]).value] + AllSextets(t[1..]).value)
  }

  lemma {:induction false} LettersReadBack(s: seq<Sextet>)
    ensures AllSextets(Letters(s)) == Some(s) && Stripped(Letters(s)) == Letters(s) && '$' !in Letters(s)
  {
    if s != [] {
      LetterReadsBack(s[0]);
      LettersReadBack(s[1..]);
      assert Letters(s)[1..] == Letters(s[1..]) && s == [s[0]] + s[1..];
    }
  }

  lemma {:induction false} ReadsAreLetters(t: Text)
    requires AllSextets(t).Some?
    ensures Letters(AllSextets(t).value) == t
  {
    if t != [] {
      ReadsAreLetters(t[1..]);
      ReadIsLetter(t[0]);
      assert AllSextets(t).value[1..] == AllSextets(t[1..]).value && t == [t[0]] + t[1..];
    }
  }

  predicate LineBreak(c: Byte) {
    c as int == 10 || c as int == 13
  }

  /** Go's decoder skips carriage returns and line feeds even when strict. */
  function Stripped(t: Text): Text {
    if t == [] then []
    else if LineBreak(t[0]) then Stripped(t[1..])
    else [t[0]] + Stripped(t[1..])
  }

  /** Those two characters are skipped wherever they stand, and no other is. */
  lemma StripsOnlyBreaks(c: Byte, t: Text)
    ensures Stripped([c] + t) == if c == '\r' || c == '\n' then Stripped(t) else [c] + Stripped(t)
  {
    assert ([c] + t)[1..] == t;
  }

  function Encode(b: bytes): Text {
    Letters(Split6(b))
  }

  function Decode(t: Text): Option<bytes> {
    match AllSextets(Stripped(t))
    case None => None
    case Some(s) => Join6(s)
  }

  lemma DecodeInvertsEncode(b: bytes)
    ensures Decode(Encode(b)) == Some(b) && '$' !in Encode(b)
  {
    LettersReadBack(Split6(b));
    JoinInvertsSplit6(b);
  }

  /** What decodes is exactly the encoding of its bytes, but for the line breaks the decoder skips. */
  lemma {:induction false} DecodesExactlyEncodings(t: Text, b: bytes)
    ensures Decode(t) == Some(b) <==> Stripped(t) == Encode(b)
  {
    if Decode(t) == Some(b) {
      SplitInvertsJoin6(AllSextets(Stripped(t)).value);
      ReadsAreLetters(Stripped(t));
    }
    LettersReadBack(Split6(b));
    JoinInvertsSplit6(b);
  }
}
