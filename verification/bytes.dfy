/** Byte strings as the device builder produces them: ASCII encoding of
    names, the 32-bit words of Python's `struct.pack(">I")` and
    `struct.pack("<I")`, and zero padding to a four-byte boundary. */
module Bytes {

  type byte = b: int | 0 <= b < 256
  type bytes = seq<byte>

  /** One more than the largest value `struct.pack("I")` accepts. */
  const Two32: int := 0x1_0000_0000

  predicate IsAscii(s: string) {
    forall i :: 0 <= i < |s| ==> s[i] as int < 128
  }

  /** `s.encode("ascii")`, defined only where the encoding succeeds. */
  function Ascii(s: string): (r: bytes)
    requires IsAscii(s)
    ensures |r| == |s|
    ensures forall i :: 0 <= i < |s| ==> r[i] == s[i] as int
  {
    seq(|s|, i requires 0 <= i < |s| => s[i] as int)
  }

  /** Reading ASCII bytes back as characters. */
  function Chars(b: bytes): (r: string)
    requires forall i :: 0 <= i < |b| ==> b[i] < 128
    ensures |r| == |b|
  {
    seq(|b|, i requires 0 <= i < |b| => b[i] as char)
  }

  lemma {:induction false} AsciiChars(s: string)
    requires IsAscii(s)
    ensures Chars(Ascii(s)) == s
  {
    assert forall i :: 0 <= i < |s| ==> Chars(Ascii(s))[i] == s[i];
  }

  /** `struct.pack(">I", n)`: four bytes, most significant first. */
  function BE32(n: int): (r: bytes)
    requires 0 <= n < Two32
    ensures |r| == 4
  {
    [n / 0x100_0000, n / 0x1_0000 % 0x100, n / 0x100 % 0x100, n % 0x100]
  }

  /** `struct.pack("<I", n)`: four bytes, least significant first. */
  function LE32(n: int): (r: bytes)
    requires 0 <= n < Two32
    ensures |r| == 4
  {
    [n % 0x100, n / 0x100 % 0x100, n / 0x1_0000 % 0x100, n / 0x100_0000]
  }

  /** The value of a byte string read most significant byte first. */
  function BigEndian(b: bytes): (n: int)
    decreases |b|
  {
    if |b| == 0 then 0 else BigEndian(b[..|b| - 1]) * 0x100 + b[|b| - 1]
  }

  /** `struct.unpack(">I", b)[0]` */
  function ReadBE32(b: bytes): (n: int)
    requires |b| == 4
    ensures 0 <= n < Two32
  {
    FourBytes(b);
    BigEndian(b)
  }

  /** `struct.unpack("<I", b)[0]` */
  function ReadLE32(b: bytes): (n: int)
    requires |b| == 4
    ensures 0 <= n < Two32
  {
    ReadBE32([b[3], b[2], b[1], b[0]])
  }

  /** Four bytes, spelled out digit by digit. */
  lemma {:induction false} FourBytes(b: bytes)
    requires |b| == 4
    ensures BigEndian(b) == ((b[0] as int * 0x100 + b[1]) * 0x100 + b[2]) * 0x100 + b[3]
    ensures 0 <= BigEndian(b) < Two32
  {
    assert b[..3][..2] == b[..2] && b[..2][..1] == b[..1] && b[..1][..0] == [];
    var x0: int := b[0];
    assert BigEndian(b[..1]) == x0;
    assert BigEndian(b[..2]) == x0 * 0x100 + b[1];
    assert BigEndian(b[..3]) == (x0 * 0x100 + b[1]) * 0x100 + b[2];
  }

  lemma {:induction false} Div256(x: int, q: int, r: int)
    requires x == q * 0x100 + r && 0 <= r < 0x100
    ensures x / 0x100 == q && x % 0x100 == r
  {
  }

  /** The four base-256 digits of a word, read back. */
  lemma {:induction false} Digits(n: int)
    requires 0 <= n < Two32
    ensures ((n / 0x100_0000 * 0x100 + n / 0x1_0000 % 0x100) * 0x100 + n / 0x100 % 0x100) * 0x100 + n % 0x100 == n
  {
    var a := n / 0x100;
    var b := a / 0x100;
    var c := b / 0x100;
    Div256(n, a, n % 0x100);
    Div256(a, b, a % 0x100);
    Div256(b, c, b % 0x100);
    assert b == n / 0x1_0000;
    assert c == n / 0x100_0000;
  }

  lemma {:induction false} WordDigits(b0: byte, b1: byte, b2: byte, b3: byte)
    ensures var x0: int := b0;
      var n := ((x0 * 0x100 + b1) * 0x100 + b2) * 0x100 + b3;
      n / 0x100_0000 == b0 && n / 0x1_0000 % 0x100 == b1 && n / 0x100 % 0x100 == b2 && n % 0x100 == b3
  {
    var x0: int := b0;
    var n := ((x0 * 0x100 + b1) * 0x100 + b2) * 0x100 + b3;
    var a := (x0 * 0x100 + b1) * 0x100 + b2;
    var b := x0 * 0x100 + b1;
    Div256(n, a, b3);
    Div256(a, b, b2);
    Div256(b, x0, b1);
    assert n / 0x1_0000 == b;
    assert n / 0x100_0000 == x0;
  }

  /** Unpacking undoes packing, in both byte orders. */
  lemma {:induction false} BE32RoundTrip(n: int)
    requires 0 <= n < Two32
    ensures ReadBE32(BE32(n)) == n
  {
    FourBytes(BE32(n));
    Digits(n);
  }

  lemma {:induction false} LE32RoundTrip(n: int)
    requires 0 <= n < Two32
    ensures ReadLE32(LE32(n)) == n
  {
    var b := LE32(n);
    assert [b[3], b[2], b[1], b[0]] == BE32(n);
    BE32RoundTrip(n);
  }

  /** Packing undoes unpacking: every four bytes are the image of one word. */
  lemma {:induction false} BE32Onto(b: bytes)
    requires |b| == 4
    ensures BE32(ReadBE32(b)) == b
  {
    FourBytes(b);
    WordDigits(b[0], b[1], b[2], b[3]);
  }

  /** Two different words never pack to the same bytes. */
  lemma {:induction false} BE32Injective(m: int, n: int)
    requires 0 <= m < Two32 && 0 <= n < Two32
    ensures BE32(m) == BE32(n) ==> m == n
  {
    BE32RoundTrip(m);
    BE32RoundTrip(n);
  }

  /** The length `_pad4` pads to: the next multiple of four. */
  function Pad4Len(n: nat): nat {
    (n + 3) / 4 * 4
  }

  function Zeros(n: nat): (r: bytes)
    ensures |r| == n && forall i :: 0 <= i < n ==> r[i] == 0
  {
    seq(n, i => 0)
  }

  /** `_pad4`: zero bytes are appended while the length is not a multiple
      of four. */
  function Pad4(b: bytes): (r: bytes)
    ensures |r| % 4 == 0 && |b| <= |r| < |b| + 4
    ensures r[..|b|] == b
    ensures forall i :: |b| <= i < |r| ==> r[i] == 0
    decreases (4 - |b| % 4) % 4
  {
    if |b| % 4 == 0 then b
    else
      var r := Pad4(b + [0]);
      assert r[..|b|] == (b + [0])[..|b|];
      r
  }

  /** The closed form of `_pad4`: the input followed by the fewest zeros that
      reach a multiple of four. */
  lemma {:induction false} Pad4IsZeros(b: bytes)
    ensures Pad4(b) == b + Zeros(Pad4Len(|b|) - |b|)
    decreases (4 - |b| % 4) % 4
  {
    if |b| % 4 != 0 {
      Pad4IsZeros(b + [0]);
      assert Pad4Len(|b| + 1) == Pad4Len(|b|);
      assert (b + [0]) + Zeros(Pad4Len(|b|) - |b| - 1) == b + Zeros(Pad4Len(|b|) - |b|);
    }
  }

  /** Padded data already on a four-byte boundary is left alone. */
  lemma {:induction false} Pad4Idempotent(b: bytes)
    ensures Pad4(Pad4(b)) == Pad4(b)
  {
  }
}
