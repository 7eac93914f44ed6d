/** Byte-level vocabulary shared by the SD card model: bus bytes, 32-bit
    words, the scripted card side of the bus, big-endian packing and the two
    checksums of the SPI-mode SD protocol. */
module Bytes {

  type Byte = b: int | 0 <= b < 0x100
  type U16 = x: int | 0 <= x < 0x1_0000
  type U32 = x: int | 0 <= x < 0x1_0000_0000

  datatype Option<+T> = None | Some(value: T)

  /** The value the bus reads when nobody drives it (MISO pulled high). */
  const IDLE: Byte := 0xFF

  /** The byte the card drives onto the bus at clock `i`: its script, then idle. */
  function In(script: seq<Byte>, i: nat): Byte
  {
    if i < |script| then script[i] else IDLE
  }

  /** `n` idle filler bytes, as the host clocks out while it only listens. */
  function Fill(n: nat): (r: seq<Byte>)
    ensures |r| == n
  {
    if n == 0 then [] else Fill(n - 1) + [IDLE]
  }

  /** Filler is idle throughout. */
  lemma {:induction false} FillIdle(n: nat)
    ensures forall k :: 0 <= k < n ==> Fill(n)[k] == IDLE
  {
    if n > 0 {
      FillIdle(n - 1);
    }
  }

  /** Two runs of filler after a log are one run. */
  lemma FillAdd(log: seq<Byte>, a: nat, b: nat, c: nat)
    requires c == a + b
    ensures log + Fill(a) + Fill(b) == log + Fill(c)
  {
    assert Fill(a) + Fill(b) == Fill(a + b) by {
      FillIdle(a);
      FillIdle(b);
      FillIdle(a + b);
      assert forall k :: 0 <= k < a + b ==> (Fill(a) + Fill(b))[k] == IDLE;
    }
    assert log + Fill(a) + Fill(b) == log + (Fill(a) + Fill(b));
  }

  /** A log that extends an extension of `a` extends `a`. */
  lemma PrefixTrans<T>(a: seq<T>, b: seq<T>, c: seq<T>)
    requires a <= b && b <= c
    ensures a <= c
  {
    assert c[..|a|] == c[..|b|][..|a|];
  }

  /** The `n` bytes the card drives from clock `i` on. */
  function Window(script: seq<Byte>, i: nat, n: nat): (r: seq<Byte>)
    ensures |r| == n
  {
    if n == 0 then [] else Window(script, i, n - 1) + [In(script, i + n - 1)]
  }

  /** The window holds the card's bytes clock by clock. */
  lemma {:induction false} WindowAt(script: seq<Byte>, i: nat, n: nat)
    ensures forall k :: 0 <= k < n ==> Window(script, i, n)[k] == In(script, i + k)
  {
    if n > 0 {
      WindowAt(script, i, n - 1);
    }
  }

  predicate AllIdle(bytes: seq<Byte>)
  {
    forall k :: 0 <= k < |bytes| ==> bytes[k] == IDLE
  }

  /** `data` written over `buf` from `offset` on, when there is data. */
  function Store(buf: seq<Byte>, offset: nat, data: Option<seq<Byte>>): (r: seq<Byte>)
    requires data.Some? ==> offset + |data.value| <= |buf|
    ensures |r| == |buf|
    ensures data.Some? ==> r[offset..offset + |data.value|] == data.value
    ensures data.Some? ==> r[..offset] == buf[..offset]
    ensures data.Some? ==> r[offset + |data.value|..] == buf[offset + |data.value|..]
    ensures data.None? ==> r == buf
  {
    if data.Some? then buf[..offset] + data.value + buf[offset + |data.value|..] else buf
  }

  /** Big-endian encoding of a 32-bit word, most significant byte first. */
  function Be32(x: U32): (r: seq<Byte>)
    ensures |r| == 4
  {
    [x / 0x100_0000, (x / 0x1_0000) % 0x100, (x / 0x100) % 0x100, x % 0x100]
  }

  /** The word a big-endian 4-byte sequence denotes. */
  function Be32Value(b: seq<Byte>): int
    requires |b| == 4
  {
    (((b[0] as int) * 0x100 + b[1]) * 0x100 + b[2]) * 0x100 + b[3]
  }

  /** Big-endian packing loses nothing: the four frame bytes give back the word. */
  lemma Be32RoundTrip(x: U32)
    ensures Be32Value(Be32(x)) == x
  {
    var q1 := x / 0x100;
    var q2 := q1 / 0x100;
    var q3 := q2 / 0x100;
    assert x == q1 * 0x100 + x % 0x100;
    assert q1 == q2 * 0x100 + q1 % 0x100;
    assert q2 == q3 * 0x100 + q2 % 0x100;
    assert x / 0x1_0000 == q2;
    assert x / 0x100_0000 == q3;
  }

  /** Bitwise AND of a C `int` with an 8-bit mask is nonzero. The low byte of
      the two's-complement representation is the Euclidean residue mod 256,
      so this is exact for negative values too. */
  predicate HasBits(x: int, mask: Byte)
  {
    ((x % 0x100) as bv8) & (mask as bv8) != 0
  }

  /** A `uint32_t` stored into an `int` (two's complement, 32 bits). */
  function ToInt32(x: U32): (r: int)
    ensures -0x8000_0000 <= r < 0x8000_0000
    ensures (r - x) % 0x1_0000_0000 == 0
  {
    if x < 0x8000_0000 then x else x - 0x1_0000_0000
  }

  /** The two checksum routines the driver calls (CRC-7 over command-frame
      bytes and CRC-16 over data blocks, section 7.2.2 of the SD Physical
      Layer Simplified Specification). crc.h is not part of this model: the
      model holds for any pair of functions. */
  datatype Checksums = Checksums(crc7: seq<Byte> -> Byte, crc16: seq<Byte> -> U16)
}
