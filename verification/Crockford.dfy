/** Crockford Base32 with a 32-bit accumulator (auth/crockford.go). */
module Crockford {
  import opened Octets
  import opened Text

  datatype CodeError = BadCrockford

  const ALPHABET: Text := "0123456789ABCDEFGHJKMNPQRSTVWXYZ"

  const WORD := 0x1_0000_0000

  /** `1 << n`, for the few bits the accumulator holds. */
  function Pow2(n: nat): nat
    requires n <= 12
  {
    match n
    case 0 => 1 case 1 => 2 case 2 => 4 case 3 => 8 case 4 => 16 case 5 => 32 case 6 => 64
    case 7 => 128 case 8 => 256 case 9 => 512 case 10 => 1024 case 11 => 2048 case 12 => 4096
  }

  /** The bytes as one big-endian number. */
  function Value(b: bytes): nat {
    if b == [] then 0 else 256 * Value(b[..|b| - 1]) + b[|b| - 1]
  }

  /** Base-32 digits. */
  type Digits = d: seq<nat> | forall k :: 0 <= k < |d| ==> d[k] < 32

  /** Digits read as one number. */
  function Number(d: Digits): nat {
    if d == [] then 0 else 32 * Number(d[..|d| - 1]) + d[|d| - 1]
  }

  function Letters(d: Digits): (s: Text)
    ensures |s| == |d|
  {
    seq(|d|, k requires 0 <= k < |d| => ALPHABET[d[k]])
  }

  function Length(n: nat): nat {
    (8 * n + 4) / 5
  }

  /** The digits of the number whose bits are those of `b`, zero-padded to whole digits. */
  ghost predicate Expands(d: Digits, b: bytes) {
    |d| == Length(|b|) && Number(d) == Value(b) * Pow2(5 * Length(|b|) - 8 * |b|)
  }

  ghost predicate IsCode(s: Text, b: bytes) {
    exists d: Digits :: s == Letters(d) && Expands(d, b)
  }

  // ---- The accumulator.

  /** The low `bits` bits of the accumulator are the part of `v` not yet written; the rest is left over. */
  ghost predicate Holds(v: nat, written: nat, acc: nat, bits: nat, low: nat, junk: nat) {
    bits <= 12 && low < Pow2(bits) && v == written * Pow2(bits) + low && acc == junk * Pow2(bits) + low && acc < WORD
  }

  ghost predicate Pending(v: nat, written: nat, acc: nat, bits: nat) {
    exists low: nat, junk: nat :: Holds(v, written, acc, bits, low, junk)
  }

  /** `acc<<8 | x` in 32 bits. */
  function Push(acc: nat, x: byte): nat {
    (acc * 256 + x) % WORD
  }

  /** `acc >> bits`. */
  function Shr(acc: nat, bits: nat): nat
    requires bits < 8
  {
    match bits
    case 0 => acc case 1 => acc / 2 case 2 => acc / 4 case 3 => acc / 8
    case 4 => acc / 16 case 5 => acc / 32 case 6 => acc / 64 case 7 => acc / 128
  }

  /** `acc << (5-bits)` in 32 bits. */
  function Shl(acc: nat, n: nat): nat
    requires n <= 12
  {
    acc * Pow2(n) % WORD
  }

  lemma PushKeeps(v: nat, written: nat, acc: nat, bits: nat, x: byte)
    requires bits < 5 && Pending(v, written, acc, bits)
    ensures Pending(256 * v + x, written, Push(acc, x), bits + 8)
  {
    var low: nat, junk: nat :| Holds(v, written, acc, bits, low, junk);
    var k := (acc * 256 + x) / WORD;
    var share := Room(bits);
    PushWraps(acc, x, bits, low, junk, k);
    NotNegative(junk - k * share, Pow2(bits + 8), low * 256 + x);
    Scales(written, Pow2(bits), low, x);
    assert Push(acc, x) == acc * 256 + x - k * WORD;
    assert Holds(256 * v + x, written, Push(acc, x), bits + 8, low * 256 + x, junk - k * share);
  }

  /** What is above the low `bits + 8` bits of the accumulator's 32. */
  function Room(bits: nat): (n: nat)
    requires bits < 5
    ensures Pow2(bits + 8) * n == WORD && Pow2(bits + 8) == 256 * Pow2(bits)
  {
    match bits
    case 0 => 0x100_0000 case 1 => 0x80_0000 case 2 => 0x40_0000 case 3 => 0x20_0000 case 4 => 0x10_0000
  }

  lemma PushWraps(acc: nat, x: byte, bits: nat, low: nat, junk: nat, k: nat)
    requires bits < 5 && acc == junk * Pow2(bits) + low
    ensures acc * 256 + x - k * WORD == (junk - k * Room(bits)) * Pow2(bits + 8) + (low * 256 + x)
  {
    var p, n := Pow2(bits + 8), Room(bits);
    assert junk * Pow2(bits) * 256 == junk * p;
    assert k * WORD == (k * n) * p;
    assert (junk - k * n) * p == junk * p - (k * n) * p;
  }

  lemma Scales(written: nat, p: nat, low: nat, x: byte)
    ensures 256 * (written * p + low) + x == written * (256 * p) + (low * 256 + x)
  {
  }

  lemma NotNegative(q: int, p: nat, low: nat)
    requires low < p && q * p + low >= 0
    ensures q >= 0
  {
  }

  lemma ShrOf(junk: nat, low: nat, bits: nat)
    requires bits < 8 && low < Pow2(bits + 5)
    ensures Shr(junk * Pow2(bits + 5) + low, bits) == 32 * junk + Shr(low, bits) && Shr(low, bits) < 32
    ensures 0 <= low - Shr(low, bits) * Pow2(bits) < Pow2(bits)
  {
  }

  lemma Regroup(a: nat, bits: nat)
    requires bits < 8
    ensures a * Pow2(bits + 5) == 32 * a * Pow2(bits)
  {
  }

  /** `(acc>>bits) & 31` is the next five bits. */
  lemma TakeKeeps(v: nat, written: nat, acc: nat, bits: nat)
    requires bits < 8 && Pending(v, written, acc, bits + 5)
    ensures Pending(v, 32 * written + Shr(acc, bits) % 32, acc, bits)
  {
    var low: nat, junk: nat :| Holds(v, written, acc, bits + 5, low, junk);
    var d := Shr(low, bits);
    ShrOf(junk, low, bits);
    LowFive(junk, d);
    HeldAfter(v, written, acc, bits, low, junk, d);
  }

  lemma LowFive(junk: nat, d: nat)
    requires d < 32
    ensures (32 * junk + d) % 32 == d
  {
  }

  lemma HeldAfter(v: nat, written: nat, acc: nat, bits: nat, low: nat, junk: nat, d: nat)
    requires bits < 8 && Holds(v, written, acc, bits + 5, low, junk) && 0 <= low - d * Pow2(bits) < Pow2(bits)
    ensures Pending(v, 32 * written + d, acc, bits)
  {
    Regroup(junk, bits);
    Regroup(written, bits);
    assert Holds(v, 32 * written + d, acc, bits, low - d * Pow2(bits), 32 * junk + d);
  }

  lemma ModWord(a: nat)
    ensures a % WORD % 32 == a % 32
  {
  }

  lemma ShlOf(junk: nat, low: nat, bits: nat)
    requires 0 < bits < 5 && low < Pow2(bits)
    ensures (junk * Pow2(bits) + low) * Pow2(5 - bits) == 32 * junk + low * Pow2(5 - bits)
    ensures 0 <= low * Pow2(5 - bits) < 32
  {
    match bits { case 1 => case 2 => case 3 => case 4 => }
  }

  /** The last digit, padded on the right. */
  lemma LastDigit(v: nat, written: nat, acc: nat, bits: nat)
    requires 0 < bits < 5 && Pending(v, written, acc, bits)
    ensures v * Pow2(5 - bits) == 32 * written + Shl(acc, 5 - bits) % 32
  {
    var low: nat, junk: nat :| Holds(v, written, acc, bits, low, junk);
    ShlOf(junk, low, bits);
    ShlOf(written, low, bits);
    ModWord(acc * Pow2(5 - bits));
    LowFive(junk, low * Pow2(5 - bits));
  }

  lemma WholeExpands(d: Digits, b: bytes, acc: nat)
    requires 8 * |b| == 5 * |d| && Pending(Value(b), Number(d), acc, 0)
    ensures Expands(d, b)
  {
    var low: nat, junk: nat :| Holds(Value(b), Number(d), acc, 0, low, junk);
    assert Length(|b|) == |d|;
  }

  lemma PaddedExpands(d: Digits, b: bytes, bits: nat)
    requires 0 < bits < 5 && 8 * |b| + 5 == 5 * |d| + bits && Number(d) == Value(b) * Pow2(5 - bits)
    ensures Expands(d, b)
  {
    assert Length(|b|) == |d|;
  }

  /** `crockfordEncode`. */
  method Encode(b: bytes) returns (out: Text)
    ensures IsCode(out, b)
  {
    var acc, bits;
    ghost var d;
    out, acc, bits, d := EncodeWhole(b);
    if bits > 0 {
      ghost var held := bits;
      out, d := EncodeLast(out, acc, bits, Value(b), d);
      PaddedExpands(d, b, held);
    } else {
      WholeExpands(d, b, acc);
    }
    SpellsIt(out, d, b);
  }

  lemma SpellsIt(out: Text, d: Digits, b: bytes)
    requires out == Letters(d) && Expands(d, b)
    ensures IsCode(out, b)
  {
  }

  /** The loop over the bytes; fewer than five bits are left over. */
  method EncodeWhole(b: bytes) returns (out: Text, acc: nat, bits: nat, ghost d: Digits)
    ensures bits < 5 && 8 * |b| == 5 * |d| + bits && out == Letters(d) && Pending(Value(b), Number(d), acc, bits)
  {
    out, acc, bits, d := [], 0, 0, [];
    NothingYet();
    for i := 0 to |b|
      invariant bits < 5 && 8 * i == 5 * |d| + bits && out == Letters(d)
      invariant Pending(Value(b[..i]), Number(d), acc, bits)
    {
      assert b[..i + 1][..i] == b[..i];
      out, acc, bits, d := EncodeByte(out, acc, bits, b[i], Value(b[..i]), d);
    }
    assert b[..|b|] == b;
  }

  lemma NothingYet()
    ensures Letters([]) == [] && Pending(Value([]), Number([]), 0, 0)
  {
    assert Value([]) == 0 && Number([]) == 0;
    NothingHeld(0, 0);
  }

  lemma NothingHeld(low: nat, junk: nat)
    requires low == junk == 0
    ensures Pending(0, 0, 0, 0)
  {
    assert Pow2(0) == 1;
    assert Holds(0, 0, 0, 0, low, junk);
  }

  /** One byte into the accumulator, then every whole digit out of it. */
  method EncodeByte(before: Text, acc0: nat, held: nat, x: byte, ghost v: nat, ghost d0: Digits)
    returns (out: Text, acc: nat, bits: nat, ghost d: Digits)
    requires held < 5 && before == Letters(d0) && Pending(v, Number(d0), acc0, held)
    ensures bits < 5 && 5 * |d| + bits == 5 * |d0| + held + 8 && out == Letters(d)
    ensures Pending(256 * v + x, Number(d), acc, bits)
  {
    PushKeeps(v, Number(d0), acc0, held, x);
    acc := Push(acc0, x);
    out, bits, d := Drain(before, acc, held + 8, 256 * v + x, d0);
  }

  /** The digit that holds the last bits. */
  method EncodeLast(before: Text, acc: nat, bits: nat, ghost v: nat, ghost d0: Digits)
    returns (out: Text, ghost d: Digits)
    requires 0 < bits < 5 && before == Letters(d0) && Pending(v, Number(d0), acc, bits)
    ensures |d| == |d0| + 1 && out == Letters(d) && Number(d) == v * Pow2(5 - bits)
  {
    LastDigit(v, Number(d0), acc, bits);
    out, d := Emit(before, Shl(acc, 5 - bits) % 32, d0);
  }

  /** The inner loop: every whole digit the accumulator holds. */
  method Drain(before: Text, acc: nat, held: nat, ghost v: nat, ghost d0: Digits)
    returns (out: Text, bits: nat, ghost d: Digits)
    requires held <= 12 && before == Letters(d0) && Pending(v, Number(d0), acc, held)
    ensures bits < 5 && 5 * |d| + bits == 5 * |d0| + held && out == Letters(d) && Pending(v, Number(d), acc, bits)
  {
    out, bits, d := before, held, d0;
    while bits >= 5
      invariant bits <= 12 && 5 * |d| + bits == 5 * |d0| + held && out == Letters(d)
      invariant Pending(v, Number(d), acc, bits)
    {
      bits := bits - 5;
      TakeKeeps(v, Number(d), acc, bits);
      out, d := Emit(out, Shr(acc, bits) % 32, d);
    }
  }

  method Emit(out: Text, digit: nat, ghost d: Digits) returns (longer: Text, ghost d': Digits)
    requires digit < 32 && out == Letters(d)
    ensures |d'| == |d| + 1 && longer == Letters(d') && Number(d') == 32 * Number(d) + digit
  {
    longer := out + [ALPHABET[digit]];
    d' := d + [digit];
    assert d'[..|d|] == d;
  }

  // ---- Codes name their bytes.

  lemma {:induction false} NumberInjective(d: Digits, e: Digits)
    requires |d| == |e| && Number(d) == Number(e)
    ensures d == e
  {
    if d != [] {
      var n := |d| - 1;
      NumberInjective(d[..n], e[..n]);
      assert d == d[..n] + [d[n]] && e == e[..n] + [e[n]];
    }
  }

  lemma {:induction false} ValueInjective(a: bytes, b: bytes)
    requires |a| == |b| && Value(a) == Value(b)
    ensures a == b
  {
    if a != [] {
      var n := |a| - 1;
      ValueInjective(a[..n], b[..n]);
      assert a == a[..n] + [a[n]] && b == b[..n] + [b[n]];
    }
  }

  /** The digit a letter of the alphabet stands for: `I`, `L`, `O` and `U` are skipped. */
  function DigitOf(c: char): int {
    if c <= '9' then c as int - '0' as int
    else if c <= 'H' then 10 + c as int - 'A' as int
    else if c <= 'K' then 18 + c as int - 'J' as int
    else if c <= 'N' then 20 + c as int - 'M' as int
    else if c <= 'T' then 22 + c as int - 'P' as int
    else 27 + c as int - 'V' as int
  }

  lemma DigitInverts(i: nat)
    requires i < 32
    ensures DigitOf(ALPHABET[i]) == i
  {
  }

  lemma LettersInjective(d: Digits, e: Digits)
    requires Letters(d) == Letters(e)
    ensures d == e
  {
    assert |d| == |Letters(d)| == |e|;
    forall k | 0 <= k < |d| ensures d[k] == e[k] {
      assert Letters(d)[k] == Letters(e)[k];
      DigitInverts(d[k]);
      DigitInverts(e[k]);
    }
  }

  lemma ScaleInjective(x: nat, y: nat, p: nat)
    requires p > 0 && x * p == y * p
    ensures x == y
  {
  }

  /** No two byte strings share a code, whatever their lengths. */
  lemma CodeNamesItsBytes(s: Text, a: bytes, b: bytes)
    requires IsCode(s, a) && IsCode(s, b)
    ensures a == b
  {
    var d: Digits :| s == Letters(d) && Expands(d, a);
    var e: Digits :| s == Letters(e) && Expands(e, b);
    LettersInjective(d, e);
    assert |a| == |b|;
    ScaleInjective(Value(a), Value(b), Pow2(5 * Length(|a|) - 8 * |a|));
    ValueInjective(a, b);
  }

  /** And a byte string has one code, of five bits a letter rounded up. */
  lemma CodeIsUnique(s: Text, t: Text, b: bytes)
    requires IsCode(s, b) && IsCode(t, b)
    ensures s == t && 5 * (|s| - 1) < 8 * |b| <= 5 * |s|
  {
    var d: Digits :| s == Letters(d) && Expands(d, b);
    var e: Digits :| t == Letters(e) && Expands(e, b);
    NumberInjective(d, e);
  }

  // ---- Folding what was typed.

  function FoldChar(c: Byte): Option<Byte> {
    var u: Byte := if 'a' <= c <= 'z' then (c as int - 32) as char else c;
    if u == 'U' then None
    else
      var f: Byte := if u == 'I' || u == 'L' then '1' else if u == 'O' then '0' else u;
      if f in ALPHABET then Some(f) else None
  }

  ghost predicate Foldable(s: Text) {
    forall k :: 0 <= k < |s| ==> FoldChar(s[k]).Some?
  }

  /** `crockfordFold`. */
  method Fold(s: Text) returns (r: Result<Text, CodeError>)
    ensures r.Ok? <==> Foldable(s)
    ensures r.Ok? ==> IsFolded(s, r.value)
  {
    var out: Text := [];
    for i := 0 to |s|
      invariant Foldable(s[..i]) && IsFolded(s[..i], out)
    {
      assert s[..i + 1] == s[..i] + [s[i]];
      var c := FoldChar(s[i]);
      if c.None? {
        return Err(BadCrockford);
      }
      out := out + [c.value];
    }
    assert s[..|s|] == s;
    return Ok(out);
  }

  ghost predicate IsFolded(s: Text, code: Text) {
    |s| == |code| && forall k :: 0 <= k < |s| ==> FoldChar(s[k]) == Some(code[k])
  }

  /** How a letter of a code may be written down and typed back. */
  predicate ReadAs(typed: Byte, letter: Byte) {
    || typed == letter
    || ('A' <= letter <= 'Z' && typed as int == letter as int + 32)
    || (letter == '1' && (typed == 'I' || typed == 'i' || typed == 'L' || typed == 'l'))
    || (letter == '0' && (typed == 'O' || typed == 'o'))
  }

  predicate IsLetter(c: Byte) {
    '0' <= c <= '9' || ('A' <= c <= 'Z' && c != 'I' && c != 'L' && c != 'O' && c != 'U')
  }

  lemma AlphabetIs(c: Byte)
    ensures c in ALPHABET <==> IsLetter(c)
  {
  }

  /** The letter a character folds to, if to any. */
  function Folded(c: Byte): Byte {
    var u: Byte := if 'a' <= c <= 'z' then (c as int - 32) as char else c;
    if u == 'I' || u == 'L' then '1' else if u == 'O' then '0' else u
  }

  lemma FoldCharIs(c: Byte)
    ensures FoldChar(c) == if IsLetter(Folded(c)) then Some(Folded(c)) else None
  {
    AlphabetIs(Folded(c));
  }

  lemma FoldedIsRead(typed: Byte, letter: Byte)
    ensures IsLetter(letter) ==> (Folded(typed) == letter <==> ReadAs(typed, letter))
  {
  }

  lemma {:induction false} FoldsExactlyMisreadings(typed: Byte, letter: Byte)
    ensures FoldChar(typed) == Some(letter) <==> letter in ALPHABET && ReadAs(typed, letter)
  {
    FoldCharIs(typed);
    AlphabetIs(letter);
    FoldedIsRead(typed, letter);
  }

  /** Every misreading of a code folds back to that code, and nothing else does. */
  lemma {:induction false} MisreadingsFoldBack(b: bytes, code: Text, typed: Text)
    requires IsCode(code, b)
    ensures IsFolded(typed, code) <==> |typed| == |code| && forall k :: 0 <= k < |code| ==> ReadAs(typed[k], code[k])
  {
    var d: Digits :| code == Letters(d) && Expands(d, b);
    forall k | 0 <= k < |code| && k < |typed|
      ensures FoldChar(typed[k]) == Some(code[k]) <==> ReadAs(typed[k], code[k])
    {
      FoldsExactlyMisreadings(typed[k], code[k]);
    }
  }

  /** Folding is idempotent: what it answers folds to itself. */
  lemma {:induction false} FoldIdempotent(s: Text, code: Text)
    requires IsFolded(s, code)
    ensures Foldable(code) && IsFolded(code, code)
  {
    forall k | 0 <= k < |code| ensures FoldChar(code[k]) == Some(code[k]) {
      FoldsExactlyMisreadings(s[k], code[k]);
      FoldsExactlyMisreadings(code[k], code[k]);
    }
  }
}
