/** SHA-1 as FIPS 180-4 defines it: the reference that log-server/cwebsocket/sha1.c is proved against. */
module Fips180 {
  import opened Bytes

  type word = bv32

  /** Addition modulo 2^32 (section 3.2, operation 1). */
  function Plus(x: word, y: word): word { x + y }

  /** The three rotations SHA-1 uses (section 3.2, operation 5). */
  function Rotl1(x: word): word { x.RotateLeft(1) }
  function Rotl5(x: word): word { x.RotateLeft(5) }
  function Rotl30(x: word): word { x.RotateLeft(30) }

  // ----- functions and constants (sections 3.2, 4.1.1 and 4.2.1) -----

  function Ch(x: word, y: word, z: word): word { (x & y) ^ (!x & z) }
  function Parity(x: word, y: word, z: word): word { x ^ y ^ z }
  function Maj(x: word, y: word, z: word): word { (x & y) ^ (x & z) ^ (y & z) }

  /** Ch chooses, bit by bit: where x has a 1 the bit of y, where it has a 0 that of z. */
  lemma ChChooses(x: word, y: word, z: word)
    ensures Ch(x, y, z) & x == y & x && Ch(x, y, z) & !x == z & !x
  {
  }

  /** Maj takes the vote of two against one. */
  lemma MajVotes(x: word, z: word)
    ensures Maj(x, x, z) == x && Maj(x, z, x) == x && Maj(z, x, x) == x
    ensures Maj(x, !x, z) == z
  {
  }

  /** Parity is 1 where an odd number of its bits are: two equal arguments leave the third. */
  lemma ParityIsOdd(x: word, z: word)
    ensures Parity(x, x, z) == z && Parity(x, z, x) == z && Parity(z, x, x) == z
  {
  }

  function F(t: nat, x: word, y: word, z: word): word
    requires t < 80
  {
    if t < 20 then Ch(x, y, z) else if t < 40 then Parity(x, y, z) else if t < 60 then Maj(x, y, z)
    else Parity(x, y, z)
  }

  function K(t: nat): word
    requires t < 80
  {
    if t < 20 then 0x5a827999 else if t < 40 then 0x6ed9eba1 else if t < 60 then 0x8f1bbcdc else 0xca62c1d6
  }

  // ----- the 80-word message schedule and the rounds (section 6.1.2) -----

  /** A block is sixteen words. */
  type Block = m: seq<word> | |m| == 16 witness seq(16, _ => 0)

  function Xor4(x: word, y: word, z: word, u: word): word { x ^ y ^ z ^ u }

  /** `W_t` for a block. */
  function W(m: Block, t: nat): word {
    if t < 16 then m[t]
    else Rotl1(Xor4(W(m, t - 3), W(m, t - 8), W(m, t - 14), W(m, t - 16)))
  }

  /** The five working variables, and also a chaining value. */
  datatype Regs = Regs(a: word, b: word, c: word, d: word, e: word)

  function Round(m: Block, t: nat, r: Regs): Regs
    requires t < 80
  {
    var temp := Plus(Plus(Plus(Plus(Rotl5(r.a), F(t, r.b, r.c, r.d)), r.e), K(t)), W(m, t));
    Regs(temp, r.a, Rotl30(r.b), r.c, r.d)
  }

  /** The working variables before round `t`, when they start as `h`. */
  function Rounds(m: Block, t: nat, h: Regs): Regs
    requires t <= 80
  {
    if t == 0 then h else Round(m, t - 1, Rounds(m, t - 1, h))
  }

  function Add(h: Regs, r: Regs): Regs {
    Regs(Plus(h.a, r.a), Plus(h.b, r.b), Plus(h.c, r.c), Plus(h.d, r.d), Plus(h.e, r.e))
  }

  function Compress(h: Regs, m: Block): Regs {
    Add(h, Rounds(m, 80, h))
  }

  /** The initial hash value (section 5.3.1). */
  const IV := Regs(0x67452301, 0xefcdab89, 0x98badcfe, 0x10325476, 0xc3d2e1f0)

  // ----- octets and words (section 3.1: big-endian) -----

  function WordOf(b0: byte, b1: byte, b2: byte, b3: byte): word {
    ((b0 as word) << 24) | ((b1 as word) << 16) | ((b2 as word) << 8) | (b3 as word)
  }

  function WordAt(b: seq<byte>, i: nat): word
    requires |b| == 64 && i < 16
  {
    WordOf(b[4 * i], b[4 * i + 1], b[4 * i + 2], b[4 * i + 3])
  }

  /** The sixteen words of 64 octets. */
  function BlockOf(b: seq<byte>): (m: Block)
    requires |b| == 64
  {
    seq(16, i requires 0 <= i < 16 => WordAt(b, i))
  }

  /** Hashing of whole blocks, first to last. */
  function Absorb(h: Regs, b: seq<byte>): Regs
    decreases |b|
  {
    if |b| < 64 then h else Absorb(Compress(h, BlockOf(b[..64])), b[64..])
  }

  lemma {:induction false} AbsorbConcat(h: Regs, b: seq<byte>, c: seq<byte>)
    requires |b| % 64 == 0
    ensures Absorb(h, b + c) == Absorb(Absorb(h, b), c)
    decreases |b|
  {
    hide Compress, BlockOf;
    if |b| < 64 {
      assert b + c == c;
    } else {
      AbsorbConcat(Compress(h, BlockOf(b[..64])), b[64..], c);
      assert (b + c)[..64] == b[..64] && (b + c)[64..] == b[64..] + c;
    }
  }

  lemma AbsorbBlock(h: Regs, b: seq<byte>)
    requires |b| == 64
    ensures Absorb(h, b) == Compress(h, BlockOf(b))
  {
    hide Compress, BlockOf;
    assert b[..64] == b && b[64..] == [];
  }

  // ----- padding (section 5.1.1) -----

  /** The 64-bit length field. */
  function LengthField(n: nat): (f: seq<byte>)
    ensures |f| == 8
  {
    BigEndianOctets(n, 8)
  }

  /** No length below 2^64 loses anything in the field. */
  lemma LengthFieldIsExact(n: nat)
    requires n < 0x1_0000_0000_0000_0000
    ensures BigEndian(LengthField(n)) == n
  {
    hide BigEndian, ByteOf;
    assert Pow256(2) == 0x1_0000;
    assert Pow256(4) == 0x1_0000_0000;
    assert Pow256(6) == 0x1_0000_0000_0000;
    assert Pow256(8) == 0x1_0000_0000_0000_0000;
    BigEndianRoundTrip(n, 8);
  }

  /** `0x80 >> part`: the bit of an octet that follows its first `part` bits. */
  function BitAfter(part: nat): byte
    requires part < 8
  {
    match part
    case 0 => 0x80
    case 1 => 0x40
    case 2 => 0x20
    case 3 => 0x10
    case 4 => 0x08
    case 5 => 0x04
    case 6 => 0x02
    case _ => 0x01
  }

  lemma BitAfterIsShift(part: nat)
    requires part < 8
    ensures BitAfter(part) == 0x80 >> part
  {
    match part
    case 0 => case 1 => case 2 => case 3 => case 4 => case 5 => case 6 => case _ =>
  }

  /**
   The octets of the first `bits` bits of `data`, and the 1 bit that follows them. Section 5.1.1 puts
   the 1 bit right after the message and fills the octet with zeros.
   */
  function WithOneBit(data: seq<byte>, bits: nat): (r: seq<byte>)
    requires bits <= 8 * |data|
    ensures |r| == bits / 8 + 1
  {
    var full, part := bits / 8, bits % 8;
    data[..full] + [(if part == 0 then 0 else data[full] & !(BitAfter(part) | (BitAfter(part) - 1))) | BitAfter(part)]
  }

  /** The number of zero octets that makes the length 56 modulo 64. */
  function ZeroCount(n: nat): (k: nat)
    ensures k < 64 && (n + k + 8) % 64 == 0
  {
    if n % 64 <= 56 then 56 - n % 64 else 120 - n % 64
  }

  /** Zero octets and the 64-bit length, up to a whole block. */
  function Fill(start: seq<byte>, total: nat): (r: seq<byte>)
    ensures |r| % 64 == 0
  {
    hide Zeros, LengthField, ZeroCount;
    start + Zeros(ZeroCount(|start|)) + LengthField(total)
  }

  /** The end of a padded message: the last `bits` bits (in `data`) of a message of `total` bits. */
  function PaddedTail(data: seq<byte>, bits: nat, total: nat): (r: seq<byte>)
    requires bits <= 8 * |data|
    ensures |r| % 64 == 0
  {
    Fill(WithOneBit(data, bits), total)
  }

  /** The digest of the first `bits` bits of `data`, as a chaining value. */
  function Digest(data: seq<byte>, bits: nat): Regs
    requires bits <= 8 * |data|
  {
    Absorb(IV, PaddedTail(data, bits, bits))
  }

  /** A message may be given in two parts, the first of whole blocks. */
  lemma DigestSplit(m: seq<byte>, r: seq<byte>, bits: nat)
    requires |m| % 64 == 0 && bits <= 8 * |r|
    ensures Absorb(IV, m + PaddedTail(r, bits, 8 * |m| + bits)) == Digest(m + r, 8 * |m| + bits)
  {
    hide *;
    PaddedTailSplit(m, r, bits, 8 * |m| + bits);
    DigestOfTail(m, r, bits);
  }

  lemma DigestOfTail(m: seq<byte>, r: seq<byte>, bits: nat)
    requires bits <= 8 * |r|
    requires PaddedTail(m + r, 8 * |m| + bits, 8 * |m| + bits) == m + PaddedTail(r, bits, 8 * |m| + bits)
    ensures Absorb(IV, m + PaddedTail(r, bits, 8 * |m| + bits)) == Digest(m + r, 8 * |m| + bits)
  {
    hide Absorb, PaddedTail;
  }

  lemma PaddedTailSplit(m: seq<byte>, r: seq<byte>, bits: nat, n: nat)
    requires |m| % 64 == 0 && bits <= 8 * |r| && n == 8 * |m| + bits
    ensures PaddedTail(m + r, n, n) == m + PaddedTail(r, bits, n)
  {
    hide Fill, WithOneBit;
    WithOneBitSplit(m, r, bits);
    FillStep(m, WithOneBit(r, bits), n);
  }

  lemma WithOneBitSplit(m: seq<byte>, r: seq<byte>, bits: nat)
    requires bits <= 8 * |r|
    ensures WithOneBit(m + r, 8 * |m| + bits) == m + WithOneBit(r, bits)
  {
    hide BitAfter;
    assert (8 * |m| + bits) / 8 == |m| + bits / 8 && (8 * |m| + bits) % 8 == bits % 8;
    assert (m + r)[..|m| + bits / 8] == m + r[..bits / 8];
  }

  lemma FillStep(front: seq<byte>, start: seq<byte>, total: nat)
    requires |front| % 64 == 0
    ensures Fill(front + start, total) == front + Fill(start, total)
  {
    hide Zeros, LengthField;
    SameZeroCount(|front| / 64, |start|);
  }

  lemma SameZeroCount(q: nat, n: nat)
    ensures ZeroCount(64 * q + n) == ZeroCount(n)
  {
    var k, r := n / 64, n % 64;
    assert 64 * q + n == 64 * (q + k) + r;
  }

  /** The digest as twenty octets. */
  function DigestOctets(r: Regs): (b: seq<byte>)
    ensures |b| == 20
  {
    WordOctets(r.a) + WordOctets(r.b) + WordOctets(r.c) + WordOctets(r.d) + WordOctets(r.e)
  }

  function RegAt(r: Regs, i: nat): word
    requires i < 5
  {
    match i
    case 0 => r.a
    case 1 => r.b
    case 2 => r.c
    case 3 => r.d
    case _ => r.e
  }

  lemma DigestWordAt(r: Regs, i: nat)
    requires i < 5
    ensures DigestOctets(r)[4 * i..4 * i + 4] == WordOctets(RegAt(r, i))
  {
    hide WordOctets;
    var d := DigestOctets(r);
    match i
    case 0 => assert d[0..4] == WordOctets(r.a);
    case 1 => assert d[4..8] == WordOctets(r.b);
    case 2 => assert d[8..12] == WordOctets(r.c);
    case 3 => assert d[12..16] == WordOctets(r.d);
    case _ => assert d[16..20] == WordOctets(r.e);
  }

  function WordOctets(x: word): (b: seq<byte>)
    ensures |b| == 4
  {
    [(x >> 24) as byte, ((x >> 16) & 0xFF) as byte, ((x >> 8) & 0xFF) as byte, (x & 0xFF) as byte]
  }

  /** Section 3.1 both ways: a word is its four octets. */
  lemma WordOfWordOctets(x: word)
    ensures var b := WordOctets(x); WordOf(b[0], b[1], b[2], b[3]) == x
  {
  }

  /** The twenty octets, read as big-endian words, are the five words of the digest. */
  lemma DigestReadBack(r: Regs, i: nat)
    requires i < 5
    ensures var d := DigestOctets(r);
      WordOf(d[4 * i], d[4 * i + 1], d[4 * i + 2], d[4 * i + 3]) == RegAt(r, i)
  {
    hide WordOctets, WordOf, DigestOctets, RegAt;
    var d := DigestOctets(r);
    DigestWordAt(r, i);
    WordOfWordOctets(RegAt(r, i));
    var b := d[4 * i..4 * i + 4];
    assert b[0] == d[4 * i] && b[1] == d[4 * i + 1] && b[2] == d[4 * i + 2] && b[3] == d[4 * i + 3];
  }
}
