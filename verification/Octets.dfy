/** Bytes as the file formats and the sealed records use them. */
module Octets {

  type byte = x: int | 0 <= x < 0x100

  type uint16 = x: int | 0 <= x < 0x1_0000

  type uint32 = x: int | 0 <= x < 0x1_0000_0000

  type bytes = seq<byte>

  datatype Option<+T> = None | Some(value: T)

  datatype Result<+T, +E> = Ok(value: T) | Err(error: E)

  lemma Associates<T>(x: seq<T>, y: seq<T>, z: seq<T>)
    ensures x + (y + z) == x + y + z
  {
  }

  /** `binary.BigEndian.AppendUint16` and `AppendUint32`. */
  function BE16(n: uint16): (b: bytes)
    ensures |b| == 2
  {
    [n / 0x100, n % 0x100]
  }

  function BE32(n: uint32): (b: bytes)
    ensures |b| == 4
  {
    BE16(n / 0x1_0000) + BE16(n % 0x1_0000)
  }

  function FromBE16(b: bytes): (n: uint16)
    requires |b| >= 2
    ensures BE16(n) == b[..2]
  {
    b[0] as int * 0x100 + b[1]
  }

  function FromBE32(b: bytes): (n: uint32)
    requires |b| >= 4
    ensures BE32(n) == b[..4]
  {
    FromBE16(b) as int * 0x1_0000 + FromBE16(b[2..])
  }

  lemma BE16Injective(m: uint16, n: uint16)
    requires BE16(m) == BE16(n)
    ensures m == n
  {
    assert BE16(m)[0] == BE16(n)[0] && BE16(m)[1] == BE16(n)[1];
  }

  lemma BE32Injective(m: uint32, n: uint32)
    requires BE32(m) == BE32(n)
    ensures m == n
  {
    assert BE32(m)[..2] == BE16(m / 0x1_0000) && BE32(m)[2..] == BE16(m % 0x1_0000);
    assert BE32(n)[..2] == BE16(n / 0x1_0000) && BE32(n)[2..] == BE16(n % 0x1_0000);
    BE16Injective(m / 0x1_0000, n / 0x1_0000);
    BE16Injective(m % 0x1_0000, n % 0x1_0000);
  }

  /** The `width` low-order octets of `n`, least significant first. */
  function LE(n: nat, width: nat): (b: bytes)
    ensures |b| == width
  {
    if width == 0 then [] else [n % 0x100] + LE(n / 0x100, width - 1)
  }

  /** The number of values `width` octets can hold. */
  function Span(width: nat): (s: nat)
    ensures s > 0
  {
    if width == 0 then 1 else 0x100 * Span(width - 1)
  }

  /** Octet `k` is the digit of weight `256^k`. */
  lemma {:induction false} LEDigit(n: nat, width: nat, k: nat)
    requires k < width
    ensures LE(n, width)[k] == n / Span(k) % 0x100
  {
    if k > 0 {
      LEDigit(n / 0x100, width - 1, k - 1);
      DividesTwice(n, Span(k - 1));
    }
  }

  lemma DividesTwice(n: nat, s: nat)
    requires s > 0
    ensures n / 0x100 / s == n / (0x100 * s)
  {
    var q, r := n / 0x100 / s, n / 0x100 % s;
    assert n == 0x100 * (n / 0x100) + n % 0x100 == (0x100 * s) * q + (0x100 * r + n % 0x100);
    assert 0 <= 0x100 * r + n % 0x100 < 0x100 * s;
    QuotientIs(n, 0x100 * s, q, 0x100 * r + n % 0x100);
  }

  lemma QuotientIs(n: nat, d: nat, q: nat, r: nat)
    requires 0 <= r < d && n == d * q + r
    ensures n / d == q
  {
    var e := n / d - q;
    assert d * e == r - n % d;
    assert e >= 1 ==> d * e >= d;
    assert e <= -1 ==> d * e <= 0 - d;
  }

  /** The octets are the digits of base 256, most significant first. */
  lemma BigEndianDigits(n: uint32, m: uint16)
    ensures BE16(m) == [m / 0x100, m % 0x100]
    ensures BE32(n) == [n / 0x100_0000, n / 0x1_0000 % 0x100, n / 0x100 % 0x100, n % 0x100]
  {
    var hi, lo := n / 0x1_0000, n % 0x1_0000;
    var a, b, c, d := hi / 0x100, hi % 0x100, lo / 0x100, lo % 0x100;
    assert n == 0x100_0000 * a + 0x1_0000 * b + 0x100 * c + d;
    QuotientIs(n, 0x100_0000, a, 0x1_0000 * b + 0x100 * c + d);
    QuotientIs(n, 0x100, 0x1_0000 * a + 0x100 * b + c, d);
    assert n / 0x100 % 0x100 == c;
  }

  lemma {:induction false} LEInjective(m: nat, n: nat, width: nat)
    requires m < Span(width) && n < Span(width)
    requires LE(m, width) == LE(n, width)
    ensures m == n
  {
    if width > 0 {
      assert LE(m, width)[0] == LE(n, width)[0];
      assert LE(m, width)[1..] == LE(m / 0x100, width - 1);
      assert LE(n, width)[1..] == LE(n / 0x100, width - 1);
      LEInjective(m / 0x100, n / 0x100, width - 1);
    }
  }

  lemma SpanValues()
    ensures Span(4) == 0x1_0000_0000
    ensures Span(8) == 0x1_0000_0000_0000_0000
  {
    assert Span(4) == 0x100 * (0x100 * (0x100 * (0x100 * Span(0))));
    assert Span(8) == 0x100 * (0x100 * (0x100 * (0x100 * Span(4))));
  }
}
