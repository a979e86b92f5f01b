/** The TLS cipher service's arithmetic: how many 16 KiB pages (the largest TLS fragment) a
    message of a given size occupies, how many cipher threads the server wants, and the guards
    and digest layout of the two debugging `digest` helpers. */
module Cipher {
  import opened Common

  const INT_MIN: int := -0x8000_0000
  const INT_MAX: int := 0x7FFF_FFFF

  /** A Java `int`. */
  predicate IsInt(x: int) {
    INT_MIN <= x <= INT_MAX
  }

  function Pow2(k: nat): (p: nat)
    ensures p >= 1
  {
    if k == 0 then 1 else 2 * Pow2(k - 1)
  }

  /** `1 << s` */
  function ShiftLeftOne(s: nat): nat {
    Pow2(s)
  }

  /** Java's `x >> s` on an `int`: the quotient by `2^s` rounded toward negative infinity
      (written out for both signs, so that it does not rest on Dafny's own division). */
  function ShiftRight(x: int, s: nat): int {
    if x >= 0 then x / Pow2(s) else -((-x + Pow2(s) - 1) / Pow2(s))
  }

  /** Java's `x & (2^k - 1)`: the low `k` bits of `x`'s two's-complement form. */
  function LowBits(x: int, k: nat): int {
    x - ShiftRight(x, k) * Pow2(k)
  }

  const PAGE_SHIFT: nat := 14
  const PAGE_SIZE: nat := ShiftLeftOne(PAGE_SHIFT)

  lemma PageSizeIs16K()
    ensures PAGE_SIZE == 16384
  {
    assert Pow2(14) == 16384 by {
      assert Pow2(4) == 16;
      assert Pow2(8) == 256 by { assert Pow2(8) == 16 * Pow2(4) by { Pow2Add(4, 4); } }
      Pow2Add(8, 6);
      assert Pow2(6) == 64;
    }
  }

  lemma {:induction false} Pow2Add(a: nat, b: nat)
    ensures Pow2(a + b) == Pow2(a) * Pow2(b)
    decreases a
  {
    if a > 0 {
      Pow2Add(a - 1, b);
    }
  }

  /** Shifting by `PAGE_SHIFT` is Dafny's division by the page size, and the mask its remainder. */
  lemma PageShiftAndMaskAreDivMod(x: int)
    ensures ShiftRight(x, PAGE_SHIFT) == x / 16384
    ensures LowBits(x, PAGE_SHIFT) == x % 16384 && 0 <= LowBits(x, PAGE_SHIFT) < 16384
  {
    PageSizeIs16K();
    if x < 0 {
      var q := (-x + 16383) / 16384;
      var r := (-x + 16383) % 16384;
      assert x == -q * 16384 + (16383 - r);
      DivModUnique(x, -q, 16383 - r);
    }
  }

  lemma DivModUnique(x: int, q: int, r: int)
    requires x == q * 16384 + r && 0 <= r < 16384
    ensures x / 16384 == q && x % 16384 == r
  {
  }

  /** `framesFor`: the pages of a message of `size` bytes, the page count rounded up when the
      mask leaves a partial page. */
  function FramesFor(size: int): int
    requires IsInt(size)
  {
    var pages := ShiftRight(size, PAGE_SHIFT);
    var modulo := LowBits(size, PAGE_SHIFT);
    if modulo > 0 then pages + 1 else pages
  }

  /** `framesFor` is the ceiling of the size over the page size: the pages hold the message, and
      one page fewer would not. */
  lemma FramesForIsCeiling(size: int)
    requires IsInt(size)
    ensures FramesFor(size) * 16384 >= size && (FramesFor(size) - 1) * 16384 < size
    ensures size >= 0 ==> FramesFor(size) == (size + 16383) / 16384
    ensures IsInt(FramesFor(size))
  {
    PageShiftAndMaskAreDivMod(size);
  }

  /** An empty message needs no page, and `k` whole pages need exactly `k`. */
  lemma FramesForWholePages(k: int)
    requires IsInt(k * 16384)
    ensures FramesFor(0) == 0 && FramesFor(k * 16384) == k
  {
    FramesForIsCeiling(0);
    FramesForIsCeiling(k * 16384);
  }

  lemma FramesForMonotone(a: int, b: int)
    requires IsInt(a) && IsInt(b) && a <= b
    ensures FramesFor(a) <= FramesFor(b)
  {
    FramesForIsCeiling(a);
    FramesForIsCeiling(b);
  }

  /** Java's `/` on `int`, which truncates toward zero. */
  function JavaDiv(a: int, b: int): int
    requires b > 0
  {
    if a >= 0 then a / b else -((-a) / b)
  }

  /** `getWishedThreadCount`: half the processors the runtime reports (2 when there is no
      runtime), but at least 2. */
  function WishedThreadCount(availableProcessors: Option<int>): (n: int)
    ensures n >= 2
    ensures availableProcessors.None? ==> n == 2
    ensures availableProcessors.Some? && availableProcessors.value >= 0 ==>
      n == if availableProcessors.value / 2 > 2 then availableProcessors.value / 2 else 2
  {
    var coreCount := if availableProcessors.Some? then availableProcessors.value else 2;
    var half := JavaDiv(coreCount, 2);
    if 2 >= half then 2 else half
  }

  datatype CipherKind = Server | Client

  /** The thread count each executor is built with. */
  function ThreadCount(kind: CipherKind, availableProcessors: Option<int>): (n: int)
    ensures n >= 2 && (kind == Client ==> n == 2)
  {
    match kind
    case Server => WishedThreadCount(availableProcessors)
    case Client => 2
  }

  /** An MD5 digest: a 128-bit unsigned number. */
  newtype Md5Digest = d: int | 0 <= d < 0x1_0000_0000_0000_0000_0000_0000_0000_0000

  datatype Uuid = Uuid(msb: int, lsb: int)

  /** `BigInteger.longValue()`: the low 64 bits as a signed `long`. */
  function LongValue(n: nat): (v: int)
    ensures -0x8000_0000_0000_0000 <= v < 0x8000_0000_0000_0000
    ensures (v - n) % 0x1_0000_0000_0000_0000 == 0
  {
    var low := n % 0x1_0000_0000_0000_0000;
    if low >= 0x8000_0000_0000_0000 then low - 0x1_0000_0000_0000_0000 else low
  }

  /** The UUID a digest becomes: its high 64 bits, then its low 64 bits, each as a signed `long`.
      The mask built from eight 0xFF bytes is the `BigInteger` -1 (the byte-array constructor reads
      two's complement), so masking keeps the whole digest and `longValue` alone cuts it to the
      low 64 bits; the result is the same as with a 64-bit mask. */
  function UuidOf(d: Md5Digest): Uuid {
    Uuid(LongValue(d as int / 0x1_0000_0000_0000_0000), LongValue(d as int % 0x1_0000_0000_0000_0000))
  }

  /** The 64-bit word a signed `long` stands for. */
  function Unsigned(v: int): nat
    requires -0x8000_0000_0000_0000 <= v < 0x8000_0000_0000_0000
  {
    if v < 0 then v + 0x1_0000_0000_0000_0000 else v
  }

  /** No information is lost: the digest is recovered from the two halves of its UUID, so
      different digests give different UUIDs. */
  lemma UuidOfRoundTrip(d: Md5Digest)
    ensures Unsigned(UuidOf(d).msb) * 0x1_0000_0000_0000_0000 + Unsigned(UuidOf(d).lsb) == d as int
  {
    var hi := d as int / 0x1_0000_0000_0000_0000;
    var lo := d as int % 0x1_0000_0000_0000_0000;
    assert hi < 0x1_0000_0000_0000_0000;
    assert Unsigned(LongValue(hi)) == hi;
    assert Unsigned(LongValue(lo)) == lo;
  }

  lemma UuidOfInjective(d: Md5Digest, e: Md5Digest)
    requires UuidOf(d) == UuidOf(e)
    ensures d == e
  {
    UuidOfRoundTrip(d);
    UuidOfRoundTrip(e);
  }

  /** A Netty buffer: its readable bytes lie between the reader and the writer index. */
  datatype ByteBuf = ByteBuf(content: seq<bv8>, readerIndex: nat, writerIndex: nat)

  predicate ValidByteBuf(b: ByteBuf) {
    b.readerIndex <= b.writerIndex <= |b.content|
  }

  function Readable(b: ByteBuf): seq<bv8>
    requires ValidByteBuf(b)
  {
    b.content[b.readerIndex..b.writerIndex]
  }

  /** A NIO buffer: its remaining bytes lie between the position and the limit. */
  datatype ByteBuffer = ByteBuffer(content: seq<bv8>, position: nat, limit: nat)

  predicate ValidByteBuffer(b: ByteBuffer) {
    b.position <= b.limit <= |b.content|
  }

  /** The bytes `digest` reads from a NIO buffer: a buffer that was filled and not flipped (none
      remaining, a non-zero limit) is read from its start, any other from its position. */
  function DigestedRegion(b: ByteBuffer): (region: seq<bv8>)
    requires ValidByteBuffer(b)
    ensures b.position == b.limit && b.limit > 0 ==> region == b.content[..b.limit]
    ensures !(b.position == b.limit && b.limit > 0) ==> region == b.content[b.position..b.limit]
  {
    if b.limit - b.position == 0 && b.limit > 0 then b.content[0..b.limit] else b.content[b.position..b.limit]
  }

  /** What `digest` returns: nothing for a negative offset or one at or past the end of the
      bytes, else the UUID of the MD5 digest of the bytes from the offset on. */
  function DigestOf(bytes: seq<bv8>, offset: int, md5: seq<bv8> -> Md5Digest): (r: Option<Uuid>)
    ensures r.None? <==> offset < 0 || |bytes| <= offset
  {
    if offset < 0 || |bytes| <= offset then None else Some(UuidOf(md5(bytes[offset..])))
  }

  /** Feeds the bytes from `offset` on to the digester one by one, as the read loop does. */
  method FeedFrom(bytes: seq<bv8>, offset: nat) returns (fed: seq<bv8>)
    requires offset <= |bytes|
    ensures fed == bytes[offset..]
  {
    fed := [];
    var i := offset;
    while i < |bytes|
      invariant offset <= i <= |bytes| && fed == bytes[offset..i]
    {
      fed := fed + [bytes[i]];
      i := i + 1;
    }
  }

  /** `digest(ByteBuf, int)` */
  method DigestByteBuf(buf: ByteBuf, offset: int, md5: seq<bv8> -> Md5Digest) returns (r: Option<Uuid>)
    requires ValidByteBuf(buf)
    ensures r == DigestOf(Readable(buf), offset, md5)
  {
    if offset < 0 {
      return None;
    }
    var bb := Readable(buf);
    if |bb| <= offset {
      return None;
    }
    var fed := FeedFrom(bb, offset);
    r := Some(UuidOf(md5(fed)));
  }

  /** `digest(ByteBuffer, int)` */
  method DigestByteBuffer(buf: ByteBuffer, offset: int, md5: seq<bv8> -> Md5Digest) returns (r: Option<Uuid>)
    requires ValidByteBuffer(buf)
    ensures r == DigestOf(DigestedRegion(buf), offset, md5)
  {
    if offset < 0 {
      return None;
    }
    var bb: seq<bv8>;
    if !(buf.limit - buf.position > 0) && buf.limit > 0 {
      bb := buf.content[..buf.limit];
    } else {
      bb := buf.content[buf.position..buf.limit];
    }
    if |bb| <= offset {
      return None;
    }
    var fed := FeedFrom(bb, offset);
    r := Some(UuidOf(md5(fed)));
  }
}
