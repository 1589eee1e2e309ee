/**
 SHA-1 (log-server/cwebsocket/sha1.c): the rolling 16-word schedule, the block and length bookkeeping
 across three functions, and the whole-message form, each proved against FIPS 180-4.
 */
module Sha1 {
  import opened Bytes
  import opened Fips180

  // ----- word functions -----

  function Rotl32(n: word, bits: byte): word
    requires 0 < bits < 32
  {
    (n << bits) | (n >> (32 - bits))
  }

  function ChangeEndian32(x: word): word {
    (x << 24) | (x >> 24) | ((x & 0x0000ff00) << 8) | ((x & 0x00ff0000) >> 8)
  }

  /** A 32-bit load of four octets, on the little-endian host the source is built for. */
  function Load32(b0: byte, b1: byte, b2: byte, b3: byte): word {
    (b0 as word) | ((b1 as word) << 8) | ((b2 as word) << 16) | ((b3 as word) << 24)
  }

  /** The table `f` of inner functions, by round group. */
  function Inner(fi: nat, x: word, y: word, z: word): word
    requires fi < 4
  {
    match fi
    case 0 => (x & y) ^ (!x & z) // ch
    case 1 => (x ^ y) ^ z // parity
    case 2 => (x & y) ^ (x & z) ^ (y & z) // maj
    case _ => (x ^ y) ^ z
  }

  /** The table `k` of constants, by round group. */
  const K_TABLE: seq<word> := [0x5a827999, 0x6ed9eba1, 0x8f1bbcdc, 0xca62c1d6]

  /** The rotations the source uses are those of section 3.2, operation 5. */
  lemma Rotl32IsRotateLeft(n: word)
    ensures Rotl32(n, 1) == Rotl1(n) && Rotl32(n, 5) == Rotl5(n) && Rotl32(n, 30) == Rotl30(n)
  {
  }

  lemma ChangeEndianLoadIsWordOf(b0: byte, b1: byte, b2: byte, b3: byte)
    ensures ChangeEndian32(Load32(b0, b1, b2, b3)) == WordOf(b0, b1, b2, b3)
  {
  }

  lemma GroupTablesAgree(t: nat, x: word, y: word, z: word)
    requires t < 80
    ensures Inner(t / 20, x, y, z) == F(t, x, y, z) && K_TABLE[t / 20] == K(t)
  {
    assert t / 20 == if t < 20 then 0 else if t < 40 then 1 else if t < 60 then 2 else 3;
  }

  // ----- the circular schedule -----

  /** Schedule word `u` sits in its slot. */
  ghost predicate InSlot(w: seq<word>, m: Block, u: nat)
    requires |w| == 16
  {
    w[u % 16] == W(m, u)
  }

  function Low(t: nat): nat { if t < 16 then 0 else t - 16 }

  /** `w` holds the last sixteen schedule words before word `t` is needed, each at its index modulo 16. */
  ghost predicate Window(w: seq<word>, m: Block, t: nat) {
    && |w| == 16
    && forall u: nat | Low(t) <= u < Low(t) + 16 :: InSlot(w, m, u)
  }

  lemma WindowStart(m: Block)
    ensures Window(m, m, 0)
  {
  }

  /** The first sixteen words need no change. */
  lemma WindowSame(w: seq<word>, m: Block, t: nat)
    requires t < 16 && Window(w, m, t)
    ensures w[t % 16] == W(m, t) && Window(w, m, t + 1)
  {
    assert InSlot(w, m, t);
  }

  lemma SlotsApart(t: nat, u: nat)
    requires t < u < t + 16
    ensures u % 16 != t % 16
  {
  }

  lemma SlotOffsets(t: nat)
    requires t >= 16
    ensures (t % 16 + 13) % 16 == (t - 3) % 16 && (t % 16 + 8) % 16 == (t - 8) % 16
    ensures (t % 16 + 2) % 16 == (t - 14) % 16 && t % 16 == (t - 16) % 16
  {
    var q := t / 16 - 1;
    SlotOf(t % 16 + 13, t - 3, q);
    SlotOf(t % 16 + 8, t - 8, q);
    SlotOf(t % 16 + 2, t - 14, q);
    SlotOf(t % 16, t - 16, q);
  }

  lemma SlotOf(x: nat, y: nat, q: nat)
    requires y == x + 16 * q
    ensures x % 16 == y % 16
  {
  }

  /** The word the source computes from the slots, before it is rotated. */
  function Mixed(w: seq<word>, s: nat): word
    requires |w| == 16 && s < 16
  {
    Xor4(w[(s + 13) % 16], w[(s + 8) % 16], w[(s + 2) % 16], w[s])
  }

  lemma MixedIsRecurrence(w: seq<word>, m: Block, t: nat)
    requires t >= 16 && Window(w, m, t)
    ensures Rotl1(Mixed(w, t % 16)) == W(m, t)
  {
    hide Xor4, Rotl1;
    SlotOffsets(t);
    assert InSlot(w, m, t - 3) && InSlot(w, m, t - 8) && InSlot(w, m, t - 14) && InSlot(w, m, t - 16);
  }

  /** Overwriting slot `t % 16` with word `t` moves the window on by one word. */
  lemma WindowAdvance(w: seq<word>, m: Block, t: nat)
    requires t >= 16 && Window(w, m, t)
    ensures Window(w[t % 16 := W(m, t)], m, t + 1)
  {
    hide W;
    var w' := w[t % 16 := W(m, t)];
    forall u: nat | t - 15 <= u < t + 1
      ensures InSlot(w', m, u)
    {
      if u < t {
        assert InSlot(w, m, u);
        SlotsApart(t - 16, u);
        assert (t - 16) % 16 == t % 16;
      }
    }
  }

  // ----- the context -----

  /** `sha1_ctx_t`. */
  class Context {
    const h: array<word>
    var length: nat // a `uint64_t`: every update is taken modulo 2^64

    ghost predicate Valid()
      reads this
    {
      h.Length == 5 && length < 0x1_0000_0000_0000_0000
    }

    /** The chaining value. */
    ghost function State(): Regs
      requires Valid()
      reads this, h
    {
      Regs(h[0], h[1], h[2], h[3], h[4])
    }

    /** The context has taken in exactly the whole blocks of `m`. */
    ghost predicate Has(m: seq<byte>)
      requires Valid()
      reads this, h
    {
      |m| % 64 == 0 && State() == Absorb(IV, m) && length == U64(8 * |m|)
    }

    /** `sha1_init`. */
    constructor ()
      ensures Valid() && fresh(h) && Has([])
    {
      h := new word[5];
      length := 0;
      new;
      h[0] := 0x67452301;
      h[1] := 0xefcdab89;
      h[2] := 0x98badcfe;
      h[3] := 0x10325476;
      h[4] := 0xc3d2e1f0;
    }

    /** `sha1_nextBlock`: one compression of the first 64 octets at `block`, and 512 more bits. */
    method NextBlock(block: seq<byte>)
      requires Valid() && |block| >= 64
      modifies this, h
      ensures Valid()
      ensures State() == Compress(old(State()), BlockOf(block[..64]))
      ensures length == U64(old(length) + 512)
    {
      hide Plus, Rounds, BlockOf;
      var w := LoadBlock(block);
      var a := new word[5];
      a[0], a[1], a[2], a[3], a[4] := h[0], h[1], h[2], h[3], h[4];
      RunRounds(a, w, BlockOf(block[..64]), State());
      h[0], h[1], h[2], h[3], h[4] :=
        Plus(h[0], a[0]), Plus(h[1], a[1]), Plus(h[2], a[2]), Plus(h[3], a[3]), Plus(h[4], a[4]);
      length := U64(length + 512);
    }

    /**
     `sha1_lastBlock`: takes in the first `bits` bits at `block` (a `uint16_t`) after the whole blocks `m`,
     and the padding. The 64-bit length it stores is exact, although the counter is raised by 512 for
     every block, including the extra one.
     */
    method LastBlock(block: seq<byte>, bits: nat, ghost m: seq<byte>)
      requires Valid() && Has(m)
      requires bits < 0x1_0000 && bits <= 8 * |block| && 8 * |m| + bits < 0x1_0000_0000_0000_0000
      modifies this, h
      ensures Valid()
      ensures State() == Absorb(IV, m + SourceTail(block, bits, 8 * |m| + bits))
    {
      hide SourceTail, Absorb;
      var rest, left := block, bits;
      ghost var taken := m;
      ghost var total, goal := 8 * |m| + bits, m + SourceTail(block, bits, 8 * |m| + bits);
      while left >= 512
        invariant Valid() && Has(taken)
        invariant 0 <= left <= bits && left <= 8 * |rest| && 8 * |taken| + left == total
        invariant taken + SourceTail(rest, left, total) == goal
      {
        SourceTailStep(taken, rest, left, total);
        TakeBlock(rest, taken);
        left := left - 512;
        taken := taken + rest[..64];
        rest := rest[64..];
      }
      FinishBlock(rest, left, taken);
    }

    /** `sha1_nextBlock` on a context that has taken in the whole blocks `m`. */
    method TakeBlock(block: seq<byte>, ghost m: seq<byte>)
      requires Valid() && Has(m) && |block| >= 64
      modifies this, h
      ensures Valid() && Has(m + block[..64])
    {
      hide Absorb, Compress, BlockOf, U64;
      ghost var b := block[..64];
      NextBlock(block);
      assert State() == Absorb(IV, m + b) by { AbsorbOne(m, b); }
      assert length == U64(8 * |m + b|) by { U64Add(8 * |m|, 512); }
    }

    /** The part of `sha1_lastBlock` after its loop. */
    method FinishBlock(rest: seq<byte>, bits: nat, ghost m: seq<byte>)
      requires Valid() && Has(m)
      requires bits < 512 && bits <= 8 * |rest| && 8 * |m| + bits < 0x1_0000_0000_0000_0000
      modifies this, h
      ensures Valid()
      ensures State() == Absorb(IV, m + SourceTail(rest, bits, 8 * |m| + bits))
    {
      hide Absorb, Compress, BlockOf, Fill, SourceOneBit, LengthField, Zeros, U64;
      length := U64(length + bits);
      U64Add(8 * |m|, bits);
      var lb := LocalBlock(rest, bits);
      if bits > 512 - 64 - 1 {
        ghost var first := lb[..];
        NextBlock(lb[..]);
        length := U64(length - 512);
        U64Add(8 * |m| + bits + 512, -512);
        FinishExtra(lb, first, m);
        FillTwoBlocks(SourceOneBit(rest, bits), 8 * |m| + bits);
      } else {
        FinishSame(lb, m);
        FillOneBlock(SourceOneBit(rest, bits), 8 * |m| + bits);
      }
    }

    /** The length does not fit behind the message: it goes to a block of its own. */
    method FinishExtra(lb: array<byte>, ghost first: seq<byte>, ghost m: seq<byte>)
      requires Valid() && lb.Length == 64 && |first| == 64 && |m| % 64 == 0
      requires State() == Compress(Absorb(IV, m), BlockOf(first[..64]))
      modifies this, h, lb
      ensures Valid()
      ensures State() == Absorb(IV, m + (first + (Zeros(56) + LengthField(old(length)))))
    {
      hide Absorb, Compress, BlockOf, LengthField;
      forall i | 0 <= i < 64 { lb[i] := 0; }
      StoreLength(lb, length);
      ghost var second := lb[..];
      assert second == Zeros(56) + LengthField(length);
      NextBlock(lb[..]);
      WholeBlock(first);
      WholeBlock(second);
      AbsorbTwo(m, first, second);
    }

    /** The length goes to the end of the same block. */
    method FinishSame(lb: array<byte>, ghost m: seq<byte>)
      requires Valid() && lb.Length == 64 && |m| % 64 == 0 && State() == Absorb(IV, m)
      modifies this, h, lb
      ensures Valid()
      ensures State() == Absorb(IV, m + (old(lb[..56]) + LengthField(old(length))))
    {
      hide Absorb, Compress, BlockOf, LengthField;
      StoreLength(lb, length);
      ghost var last := lb[..];
      NextBlock(lb[..]);
      WholeBlock(last);
      AbsorbOne(m, last);
    }
  }

  lemma WholeBlock(b: seq<byte>)
    requires |b| == 64
    ensures b[..64] == b
  {
  }

  function U64(n: int): (r: nat)
    ensures r < 0x1_0000_0000_0000_0000
    ensures 0 <= n < 0x1_0000_0000_0000_0000 ==> r == n
  {
    n % 0x1_0000_0000_0000_0000
  }

  lemma U64Add(n: int, d: int)
    ensures U64(U64(n) + d) == U64(n + d)
  {
  }

  lemma AbsorbOne(m: seq<byte>, b: seq<byte>)
    requires |m| % 64 == 0 && |b| == 64
    ensures Absorb(IV, m + b) == Compress(Absorb(IV, m), BlockOf(b))
  {
    hide Absorb, Compress, BlockOf;
    AbsorbConcat(IV, m, b);
    AbsorbBlock(Absorb(IV, m), b);
  }

  lemma AbsorbTwo(m: seq<byte>, b: seq<byte>, c: seq<byte>)
    requires |m| % 64 == 0 && |b| == 64 && |c| == 64
    ensures Absorb(IV, m + (b + c)) == Compress(Compress(Absorb(IV, m), BlockOf(b)), BlockOf(c))
  {
    hide Absorb, Compress, BlockOf;
    var h := Absorb(IV, m);
    AbsorbConcat(IV, m, b + c);
    AbsorbConcat(h, b, c);
    AbsorbBlock(h, b);
    AbsorbBlock(Compress(h, BlockOf(b)), c);
  }

  // ----- padding, as the source does it -----

  /**
   The message octets and the 1 bit, as `memcpy` and `lb[length>>3] |= 0x80>>(length&7)` leave them: the
   bits of a partial last octet that lie after the message are not cleared.
   */
  function SourceOneBit(data: seq<byte>, bits: nat): (r: seq<byte>)
    requires bits <= 8 * |data|
    ensures |r| == bits / 8 + 1
  {
    var full, part := bits / 8, bits % 8;
    data[..full] + [(if part == 0 then 0 else data[full]) | BitAfter(part)]
  }

  function SourceTail(data: seq<byte>, bits: nat, total: nat): (r: seq<byte>)
    requires bits <= 8 * |data|
    ensures |r| % 64 == 0
  {
    Fill(SourceOneBit(data, bits), total)
  }

  lemma SourceTailStep(taken: seq<byte>, data: seq<byte>, bits: nat, total: nat)
    requires 512 <= bits <= 8 * |data|
    ensures taken + SourceTail(data, bits, total)
         == taken + data[..64] + SourceTail(data[64..], bits - 512, total)
  {
    hide Fill;
    SourceOneBitStep(data, bits);
    FillStep(data[..64], SourceOneBit(data[64..], bits - 512), total);
  }

  lemma SourceOneBitStep(data: seq<byte>, bits: nat)
    requires 512 <= bits <= 8 * |data|
    ensures SourceOneBit(data, bits) == data[..64] + SourceOneBit(data[64..], bits - 512)
  {
    hide BitAfter;
    assert data[..bits / 8] == data[..64] + data[64..][..bits / 8 - 64];
  }

  lemma FillOneBlock(start: seq<byte>, total: nat)
    requires |start| <= 56
    ensures Fill(start, total) == (start + Zeros(64 - |start|))[..56] + LengthField(total)
  {
    hide LengthField;
    assert (start + Zeros(64 - |start|))[..56] == start + Zeros(56 - |start|);
  }

  lemma FillTwoBlocks(start: seq<byte>, total: nat)
    requires 56 < |start| <= 64
    ensures Fill(start, total) == (start + Zeros(64 - |start|)) + (Zeros(56) + LengthField(total))
  {
    hide LengthField;
    assert Zeros(120 - |start|) == Zeros(64 - |start|) + Zeros(56);
  }

  /** `(length+7)>>3` octets are copied: the whole ones, and one more when a part is left. */
  lemma CopiedOctets(bits: nat)
    ensures (bits + 7) / 8 == bits / 8 + if bits % 8 == 0 then 0 else 1
  {
  }

  /** `d | 0x80>>part`. */
  function SetBit(d: byte, part: nat): (r: byte)
    requires part < 8
    ensures r == d | BitAfter(part)
  {
    BitAfterIsShift(part);
    d | (0x80 >> part)
  }

  /** The local block `lb`: zeroed, filled with the last message octets, and given the 1 bit. */
  method LocalBlock(block: seq<byte>, bits: nat) returns (lb: array<byte>)
    requires bits < 512 && bits <= 8 * |block|
    ensures fresh(lb) && lb.Length == 64
    ensures lb[..] == SourceOneBit(block, bits) + Zeros(64 - (bits / 8 + 1))
  {
    hide BitAfter;
    var full, part := bits / 8, bits % 8;
    assert bits == 8 * full + part;
    CopiedOctets(bits);
    lb := new byte[64];
    var n := (bits + 7) / 8;
    forall i | 0 <= i < 64 { lb[i] := if i < n then block[i] else 0; }
    ghost var copied := lb[..];
    lb[full] := SetBit(lb[full], part);
    assert lb[..] == copied[full := copied[full] | BitAfter(part)];
  }

  /** The 64-bit counter, stored from the last octet of its memory to the first. */
  method StoreLength(lb: array<byte>, length: nat)
    requires lb.Length == 64 && length < 0x1_0000_0000_0000_0000
    modifies lb
    ensures lb[..] == old(lb[..56]) + LengthField(length)
    ensures BigEndian(lb[56..]) == length
  {
    hide Memory, BigEndianOctets, BigEndian;
    var memory, i := Memory(length, 8), 0;
    while i < 8
      invariant 0 <= i <= 8
      invariant lb[..56] == old(lb[..56])
      invariant forall k | 0 <= k < i :: lb[56 + k] == LengthField(length)[k]
    {
      MemoryReversed(length, 8, i);
      lb[56 + i] := memory[7 - i];
      i := i + 1;
    }
    LengthFieldIsExact(length);
    assert lb[56..] == LengthField(length);
  }

  ghost function RegsOf(a: seq<word>): Regs
    requires |a| == 5
  {
    Regs(a[0], a[1], a[2], a[3], a[4])
  }

  /** The loop that fills `w`, changing the endianness of each word. */
  method LoadBlock(block: seq<byte>) returns (w: array<word>)
    requires |block| >= 64
    ensures fresh(w) && w[..] == BlockOf(block[..64])
  {
    hide ChangeEndian32, Load32, WordOf;
    w := new word[16];
    var t := 0;
    while t < 16
      invariant 0 <= t <= 16
      invariant forall j | 0 <= j < t :: w[j] == BlockOf(block[..64])[j]
    {
      w[t] := ChangeEndian32(Load32(block[4 * t], block[4 * t + 1], block[4 * t + 2], block[4 * t + 3]));
      ChangeEndianLoadIsWordOf(block[4 * t], block[4 * t + 1], block[4 * t + 2], block[4 * t + 3]);
      t := t + 1;
    }
  }

  /** The eighty rounds, with the round-group counters `fi` and `fib`. */
  method RunRounds(a: array<word>, w: array<word>, ghost m: Block, ghost h: Regs)
    requires a.Length == 5 && w.Length == 16 && a != w
    requires RegsOf(a[..]) == h && w[..] == m
    modifies a, w
    ensures RegsOf(a[..]) == Rounds(m, 80, h)
  {
    hide Window, Round, W;
    WindowStart(m);
    var fi, fib, t := 0, 0, 0;
    while t <= 79
      invariant 0 <= t <= 80 && fi == t / 20 % 4 && fib == t % 20
      invariant Window(w[..], m, t)
      invariant RegsOf(a[..]) == Rounds(m, t, h)
    {
      var s := t % 16;
      RefreshSlot(w, t, m);
      RoundInPlace(a, w[s], fi, t, m);
      fib := fib + 1;
      if fib == 20 {
        fib := 0;
        fi := (fi + 1) % 4;
      }
      t := t + 1;
    }
  }

  /** From round 16 on, the slot of this round is recomputed from three others and itself. */
  method RefreshSlot(w: array<word>, t: nat, ghost m: Block)
    requires w.Length == 16 && t < 80 && Window(w[..], m, t)
    modifies w
    ensures w[t % 16] == W(m, t) && Window(w[..], m, t + 1)
  {
    hide Xor4, Rotl1, Rotl32, W, Window;
    var s := t % 16;
    if t >= 16 {
      ghost var was := w[..];
      var mixed := Xor4(w[(s + 13) % 16], w[(s + 8) % 16], w[(s + 2) % 16], w[s]);
      MixedIsRecurrence(was, m, t);
      WindowAdvance(was, m, t);
      Rotl32IsRotateLeft(mixed);
      w[s] := Rotl32(mixed, 1);
      assert w[..] == was[s := W(m, t)];
    } else {
      WindowSame(w[..], m, t);
    }
  }

  /** The sum the source computes for `temp`. */
  function Temp(r: Regs, fi: nat, ws: word): word
    requires fi < 4
  {
    Plus(Plus(Plus(Plus(Rotl32(r.a, 5), Inner(fi, r.b, r.c, r.d)), r.e), K_TABLE[fi]), ws)
  }

  lemma TempIsRound(r: Regs, t: nat, m: Block)
    requires t < 80
    ensures Temp(r, t / 20, W(m, t)) == Round(m, t, r).a
  {
    hide Plus, F, K, Inner, W, Rotl32, Rotl5, Rotl30;
    GroupTablesAgree(t, r.b, r.c, r.d);
    Rotl32IsRotateLeft(r.a);
  }

  /** One round on the registers, shifted by `memmove`. */
  method RoundInPlace(a: array<word>, ws: word, fi: nat, ghost t: nat, ghost m: Block)
    requires a.Length == 5 && t < 80 && fi == t / 20 && ws == W(m, t)
    modifies a
    ensures RegsOf(a[..]) == Round(m, t, old(RegsOf(a[..])))
  {
    hide Plus, F, K, Inner, W, Rotl32, Rotl5, Rotl30;
    TempIsRound(RegsOf(a[..]), t, m);
    Rotl32IsRotateLeft(a[1]);
    var temp := Plus(Plus(Plus(Plus(Rotl32(a[0], 5), Inner(fi, a[1], a[2], a[3])), a[4]), K_TABLE[fi]), ws);
    a[1], a[2], a[3], a[4] := a[0], a[1], a[2], a[3]; // the memmove
    a[0] := temp;
    a[2] := Rotl32(a[2], 30);
  }

  // ----- the whole message -----

  /** No bit after the message is set in the octet that holds its last bits. */
  predicate LastOctetClean(data: seq<byte>, bits: nat)
    requires bits <= 8 * |data|
  {
    bits % 8 == 0 || data[bits / 8] & (BitAfter(bits % 8) - 1) == 0
  }

  lemma MergedBit(d: byte, part: nat)
    requires 0 < part < 8
    ensures var one := BitAfter(part); (d | one) == ((d & !(one | (one - 1))) | one) <==> d & (one - 1) == 0
  {
    match part
    case 1 => case 2 => case 3 => case 4 => case 5 => case 6 => case _ =>
  }

  /** The source pads as section 5.1.1 says if and only if the partial octet is clean. */
  lemma SourceTailIsPaddedTailIff(data: seq<byte>, bits: nat, total: nat)
    requires bits <= 8 * |data|
    ensures SourceTail(data, bits, total) == PaddedTail(data, bits, total) <==> LastOctetClean(data, bits)
  {
    hide BitAfter, Zeros, LengthField, ZeroCount;
    var s, p := SourceOneBit(data, bits), WithOneBit(data, bits);
    if bits % 8 != 0 {
      MergedBit(data[bits / 8], bits % 8);
    }
    assert Fill(s, total)[..|s|] == s && Fill(p, total)[..|p|] == p;
    assert s[bits / 8] == p[bits / 8] <==> s == p;
  }

  /** A partial octet that is not clean: one bit of message, the other bits set. */
  lemma DirtyOctetIsMisread()
    ensures SourceTail([0xFF], 1, 1) != PaddedTail([0xFF], 1, 1)
  {
    hide Fill;
    SourceTailIsPaddedTailIff([0xFF], 1, 1);
  }

  /**
   `sha1_lastBlock` after any number of `sha1_nextBlock` calls: the digest of the whole message, wherever
   the message was split, when the partial octet is clean.
   */
  lemma SplitDigest(m: seq<byte>, r: seq<byte>, bits: nat)
    requires |m| % 64 == 0 && bits <= 8 * |r| && LastOctetClean(r, bits)
    ensures Absorb(IV, m + SourceTail(r, bits, 8 * |m| + bits)) == Digest(m + r, 8 * |m| + bits)
  {
    hide *;
    SourceTailIsPaddedTailIff(r, bits, 8 * |m| + bits);
    DigestSplit(m, r, bits);
  }

  /** The octets of a 32-bit store on a little-endian host. */
  function Store32(x: word): (b: seq<byte>)
    ensures |b| == 4
  {
    [(x & 0xFF) as byte, ((x >> 8) & 0xFF) as byte, ((x >> 16) & 0xFF) as byte, (x >> 24) as byte]
  }

  lemma StoreChangedIsWordOctets(x: word)
    ensures Store32(ChangeEndian32(x)) == WordOctets(x)
  {
  }

  /** `sha1_ctx2hash`: the chaining value, each word stored with its endianness changed. */
  method Ctx2Hash(dest: array<byte>, state: Context)
    requires state.Valid() && dest.Length >= 20
    modifies dest
    ensures dest[..20] == DigestOctets(state.State()) && dest[20..] == old(dest[20..])
  {
    hide Store32, ChangeEndian32, DigestOctets;
    ghost var d := DigestOctets(state.State());
    var i := 0;
    while i < 5
      invariant 0 <= i <= 5
      invariant dest[..4 * i] == d[..4 * i]
      invariant dest[20..] == old(dest[20..])
    {
      StoredWord(state.State(), i);
      assert state.h[i] == RegAt(state.State(), i);
      PutWord(dest, 4 * i, Store32(ChangeEndian32(state.h[i])));
      i := i + 1;
    }
  }

  /** One word of the digest, as the loop stores it. */
  lemma StoredWord(r: Regs, i: nat)
    requires i < 5
    ensures var d := DigestOctets(r); d[..4 * i] + Store32(ChangeEndian32(RegAt(r, i))) == d[..4 * i + 4]
  {
    hide Store32, ChangeEndian32, WordOctets, DigestOctets, RegAt;
    var d := DigestOctets(r);
    StoreChangedIsWordOctets(RegAt(r, i));
    DigestWordAt(r, i);
    assert d[..4 * i + 4] == d[..4 * i] + d[4 * i..4 * i + 4];
  }

  /** A store of four octets. */
  method PutWord(dest: array<byte>, at: nat, o: seq<byte>)
    requires |o| == 4 && at + 4 <= 20 <= dest.Length
    modifies dest
    ensures dest[..at + 4] == old(dest[..at]) + o && dest[20..] == old(dest[20..])
  {
    dest[at], dest[at + 1], dest[at + 2], dest[at + 3] := o[0], o[1], o[2], o[3];
  }

  /**
   `sha1`: hashes the first `bits` bits of `msg`, a `uint32_t`, into the first 20 octets of `dest`.
   */
  method Sha1(dest: array<byte>, msg: seq<byte>, bits: nat)
    requires dest.Length >= 20 && bits < 0x1_0000_0000 && bits <= 8 * |msg|
    modifies dest
    ensures LastOctetClean(msg, bits) ==> dest[..20] == DigestOctets(Digest(msg, bits))
    ensures dest[..20] == DigestOctets(Absorb(IV, SourceTail(msg, bits, bits)))
    ensures dest[20..] == old(dest[20..])
  {
    hide SourceTail, Absorb, Digest, LastOctetClean;
    var s := new Context();
    var rest, left := msg, bits;
    ghost var taken: seq<byte> := [];
    assert [] + SourceTail(msg, bits, bits) == SourceTail(msg, bits, bits);
    while left >= 512
      invariant s.Valid() && s.Has(taken) && fresh(s.h) && s.h as object != dest
      invariant 0 <= left <= bits && left <= 8 * |rest| && 8 * |taken| + left == bits
      invariant taken + SourceTail(rest, left, bits) == SourceTail(msg, bits, bits)
      invariant dest[..] == old(dest[..])
    {
      SourceTailStep(taken, rest, left, bits);
      s.TakeBlock(rest, taken);
      left := left - 512;
      taken := taken + rest[..64];
      rest := rest[64..];
    }
    s.LastBlock(rest, left, taken);
    Ctx2Hash(dest, s);
    if LastOctetClean(msg, bits) {
      SplitDigest([], msg, bits);
      assert [] + msg == msg;
    }
  }
}
