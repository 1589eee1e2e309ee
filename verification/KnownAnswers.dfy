/**
 The handshake of section 1.3 of RFC 6455, calculated: the key, the digest of section 4.2.2 and the accept
 value. The two blocks of the padded message go through the 80 rounds of FIPS 180-4 step by step.
 */
module KnownAnswers {
  import opened Bytes
  import opened Fips180
  import Accept
  import Base64

  /** "dGhlIHNhbXBsZSBub25jZQ==" */
  const SAMPLE_KEY: seq<byte> :=
    [0x64, 0x47, 0x68, 0x6c, 0x49, 0x48, 0x4e, 0x68, 0x62, 0x58, 0x42, 0x73]
      + [0x5a, 0x53, 0x42, 0x75, 0x62, 0x32, 0x35, 0x6a, 0x5a, 0x51, 0x3d, 0x3d]

  /** "258EAFA5-E914-47DA-" */
  const GUID_FRONT: seq<byte> := [
    0x32, 0x35, 0x38, 0x45, 0x41, 0x46, 0x41, 0x35, 0x2d, 0x45,
    0x39, 0x31, 0x34, 0x2d, 0x34, 0x37, 0x44, 0x41, 0x2d]

  /** "95CA-C5AB0DC85B11" */
  const GUID_BACK: seq<byte> := [
    0x39, 0x35, 0x43, 0x41, 0x2d, 0x43, 0x35, 0x41, 0x42, 0x30,
    0x44, 0x43, 0x38, 0x35, 0x42, 0x31, 0x31]

  const GUID := GUID_FRONT + GUID_BACK

  // ----- the schedule, sixteen words at a time -----

  datatype Words = Words(w0: word, w1: word, w2: word, w3: word, w4: word, w5: word, w6: word, w7: word)

  /** Eight words of the schedule, from word `t` on. */
  ghost predicate WordsAre(m: Block, t: nat, w: Words) {
    && W(m, t) == w.w0 && W(m, t + 1) == w.w1 && W(m, t + 2) == w.w2 && W(m, t + 3) == w.w3
    && W(m, t + 4) == w.w4 && W(m, t + 5) == w.w5 && W(m, t + 6) == w.w6 && W(m, t + 7) == w.w7
  }

  function BlockOfWords(v: Words, w: Words): Block {
    seq(16, i requires 0 <= i < 16 => if i < 8 then WordIn(v, i) else WordIn(w, i - 8))
  }

  function FourWords(x: word, y: word, z: word, u: word): (b: seq<byte>)
    ensures |b| == 16
  {
    WordOctets(x) + WordOctets(y) + WordOctets(z) + WordOctets(u)
  }

  function OctetsOf(w: Words): (b: seq<byte>)
    ensures |b| == 32
  {
    FourWords(w.w0, w.w1, w.w2, w.w3) + FourWords(w.w4, w.w5, w.w6, w.w7)
  }

  function WordIn(w: Words, i: nat): word
    requires i < 8
  {
    match i
    case 0 => w.w0
    case 1 => w.w1
    case 2 => w.w2
    case 3 => w.w3
    case 4 => w.w4
    case 5 => w.w5
    case 6 => w.w6
    case _ => w.w7
  }

  function WordOfFour(x: word, y: word, z: word, u: word, i: nat): word
    requires i < 4
  {
    if i == 0 then x else if i == 1 then y else if i == 2 then z else u
  }

  lemma FourWordsAt(x: word, y: word, z: word, u: word, i: nat)
    requires i < 4
    ensures FourWords(x, y, z, u)[4 * i..4 * i + 4] == WordOctets(WordOfFour(x, y, z, u, i))
  {
    hide WordOctets;
  }

  lemma SliceOfFront(p: seq<byte>, q: seq<byte>, i: nat, j: nat)
    requires i <= j <= |p|
    ensures (p + q)[i..j] == p[i..j]
  {
  }

  lemma SliceOfBack(p: seq<byte>, q: seq<byte>, i: nat, j: nat)
    requires |p| <= i <= j <= |p| + |q|
    ensures (p + q)[i..j] == q[i - |p|..j - |p|]
  {
  }

  lemma WordInHalves(w: Words, i: nat)
    requires i < 4
    ensures WordIn(w, i) == WordOfFour(w.w0, w.w1, w.w2, w.w3, i)
    ensures WordIn(w, 4 + i) == WordOfFour(w.w4, w.w5, w.w6, w.w7, i)
  {
  }

  lemma OctetsOfAt(w: Words, i: nat)
    requires i < 8
    ensures OctetsOf(w)[4 * i..4 * i + 4] == WordOctets(WordIn(w, i))
  {
    hide WordOctets, FourWords, WordIn, WordOfFour;
    var front, back := FourWords(w.w0, w.w1, w.w2, w.w3), FourWords(w.w4, w.w5, w.w6, w.w7);
    if i < 4 {
      SliceOfFront(front, back, 4 * i, 4 * i + 4);
      FourWordsAt(w.w0, w.w1, w.w2, w.w3, i);
      WordInHalves(w, i);
    } else {
      SliceOfBack(front, back, 4 * i, 4 * i + 4);
      FourWordsAt(w.w4, w.w5, w.w6, w.w7, i - 4);
      WordInHalves(w, i - 4);
    }
  }

  lemma OctetsOfWord(w: Words, i: nat)
    requires i < 8
    ensures var b := OctetsOf(w); WordOf(b[4 * i], b[4 * i + 1], b[4 * i + 2], b[4 * i + 3]) == WordIn(w, i)
  {
    hide WordOf, WordOctets, OctetsOf, WordIn;
    OctetsOfAt(w, i);
    WordOfWordOctets(WordIn(w, i));
    var b := OctetsOf(w);
    var o := b[4 * i..4 * i + 4];
    assert o[0] == b[4 * i] && o[1] == b[4 * i + 1] && o[2] == b[4 * i + 2] && o[3] == b[4 * i + 3];
  }

  lemma BlockOfOctets(v: Words, w: Words)
    ensures BlockOf(OctetsOf(v) + OctetsOf(w)) == BlockOfWords(v, w)
  {
    hide WordOf, OctetsOf, WordOctets, WordIn;
    var b := OctetsOf(v) + OctetsOf(w);
    forall i: nat | i < 16
      ensures BlockOf(b)[i] == BlockOfWords(v, w)[i]
    {
      if i < 8 {
        OctetsOfWord(v, i);
      } else {
        OctetsOfWord(w, i - 8);
      }
    }
  }

  lemma GivenWords(v: Words, w: Words, i: nat)
    requires i < 8
    ensures var m := BlockOfWords(v, w); W(m, i) == WordIn(v, i) && W(m, 8 + i) == WordIn(w, i)
  {
  }

  lemma FirstSixteen(v: Words, w: Words)
    ensures WordsAre(BlockOfWords(v, w), 0, v) && WordsAre(BlockOfWords(v, w), 8, w)
  {
    hide W, BlockOfWords;
    GivenWords(v, w, 0);
    GivenWords(v, w, 1);
    GivenWords(v, w, 2);
    GivenWords(v, w, 3);
    GivenWords(v, w, 4);
    GivenWords(v, w, 5);
    GivenWords(v, w, 6);
    GivenWords(v, w, 7);
  }

  /** The eight words that follow sixteen others. */
  function Expand(v: Words, w: Words): Words {
    var n0 := Rotl1(Xor4(w.w5, w.w0, v.w2, v.w0));
    var n1 := Rotl1(Xor4(w.w6, w.w1, v.w3, v.w1));
    var n2 := Rotl1(Xor4(w.w7, w.w2, v.w4, v.w2));
    var n3 := Rotl1(Xor4(n0, w.w3, v.w5, v.w3));
    var n4 := Rotl1(Xor4(n1, w.w4, v.w6, v.w4));
    var n5 := Rotl1(Xor4(n2, w.w5, v.w7, v.w5));
    var n6 := Rotl1(Xor4(n3, w.w6, w.w0, v.w6));
    var n7 := Rotl1(Xor4(n4, w.w7, w.w1, v.w7));
    Words(n0, n1, n2, n3, n4, n5, n6, n7)
  }

  lemma NextWord(m: Block, t: nat)
    requires t >= 16
    ensures W(m, t) == Rotl1(Xor4(W(m, t - 3), W(m, t - 8), W(m, t - 14), W(m, t - 16)))
  {
  }

  lemma ExpandIsSchedule(m: Block, t: nat, v: Words, w: Words)
    requires WordsAre(m, t, v) && WordsAre(m, t + 8, w)
    ensures WordsAre(m, t + 16, Expand(v, w))
  {
    hide W, Rotl1, Xor4;
    NextWord(m, t + 16);
    NextWord(m, t + 17);
    NextWord(m, t + 18);
    NextWord(m, t + 19);
    NextWord(m, t + 20);
    NextWord(m, t + 21);
    NextWord(m, t + 22);
    NextWord(m, t + 23);
  }

  // ----- the rounds, eight at a time -----

  function One(t: nat, r: Regs, w: word): Regs
    requires t < 80
  {
    Regs(Plus(Plus(Plus(Plus(Rotl5(r.a), F(t, r.b, r.c, r.d)), r.e), K(t)), w), r.a, Rotl30(r.b), r.c, r.d)
  }

  /** Eight rounds, from round `t` on. */
  function Eight(t: nat, r: Regs, w: Words): Regs
    requires t <= 72
  {
    var r1 := One(t, r, w.w0);
    var r2 := One(t + 1, r1, w.w1);
    var r3 := One(t + 2, r2, w.w2);
    var r4 := One(t + 3, r3, w.w3);
    var r5 := One(t + 4, r4, w.w4);
    var r6 := One(t + 5, r5, w.w5);
    var r7 := One(t + 6, r6, w.w6);
    One(t + 7, r7, w.w7)
  }

  lemma NextRound(m: Block, t: nat, h: Regs)
    requires t < 80
    ensures Rounds(m, t + 1, h) == One(t, Rounds(m, t, h), W(m, t))
  {
  }

  lemma EightIsRounds(m: Block, t: nat, h: Regs, w: Words)
    requires t <= 72 && WordsAre(m, t, w)
    ensures Rounds(m, t + 8, h) == Eight(t, Rounds(m, t, h), w)
  {
    hide W, Rounds, One;
    NextRound(m, t, h);
    NextRound(m, t + 1, h);
    NextRound(m, t + 2, h);
    NextRound(m, t + 3, h);
    NextRound(m, t + 4, h);
    NextRound(m, t + 5, h);
    NextRound(m, t + 6, h);
    NextRound(m, t + 7, h);
  }

  lemma NoRounds(m: Block, h: Regs)
    ensures Rounds(m, 0, h) == h
  {
  }

  // ----- the first block -----

  const FIRST0 := Words(
    0x6447686c, 0x49484e68, 0x62584273, 0x5a534275, 0x6232356a, 0x5a513d3d, 0x32353845, 0x41464135)
  const FIRST8 := Words(
    0x2d453931, 0x342d3437, 0x44412d39, 0x3543412d, 0x43354142, 0x30444338, 0x35423131, 0x80000000)
  const FIRST16 := Words(
    0x363ca02c, 0x24e81236, 0x8856b441, 0x06fb3c92, 0x6fb4bcb6, 0x460b16e3, 0x599219ae, 0x35bf9369)
  const FIRST24 := Words(
    0x3267458e, 0xf828fd04, 0x753a96a7, 0x6336f612, 0xc3d66383, 0x06eb86f9, 0x73b4fd42, 0xa503c5b8)
  const FIRST32 := Words(
    0x15cdae35, 0x531e5dc5, 0x6fb6b7d0, 0x6c16e4ac, 0x4ddd36bd, 0x35d36946, 0xe8ae8b9c, 0x4a933ad0)
  const FIRST40 := Words(
    0xce8628b4, 0x415dba9e, 0x2792f049, 0x8e9b79e7, 0x79c425c5, 0x6353b49d, 0x00994218, 0x8a950ed1)
  const FIRST48 := Words(
    0xaf5d0b99, 0xfd9883de, 0x1ed8ffeb, 0xf007ff28, 0x425e3674, 0x059631c0, 0xad6c3c31, 0x860b71d7)
  const FIRST56 := Words(
    0x87bfc548, 0x3e64f92d, 0x8d0ab761, 0x34e1ee35, 0x0acf5108, 0xc2b479da, 0x6c93370a, 0xf7935ba1)
  const FIRST64 := Words(
    0xe91c91c1, 0xbed165a2, 0x4c3e4abe, 0x50d96238, 0xb6587dde, 0x1a2ee6e6, 0x2d335896, 0xf3495d0b)
  const FIRST72 := Words(
    0xf30e0a1d, 0x32ce5459, 0x7165e3b8, 0xab05ff94, 0xc5949f0b, 0xbcd84e4a, 0x07720392, 0xff3ff806)

  lemma FirstExpands()
    ensures Expand(FIRST0, FIRST8) == FIRST16
    ensures Expand(FIRST8, FIRST16) == FIRST24
    ensures Expand(FIRST16, FIRST24) == FIRST32
    ensures Expand(FIRST24, FIRST32) == FIRST40
    ensures Expand(FIRST32, FIRST40) == FIRST48
    ensures Expand(FIRST40, FIRST48) == FIRST56
    ensures Expand(FIRST48, FIRST56) == FIRST64
    ensures Expand(FIRST56, FIRST64) == FIRST72
  {
  }

  lemma FirstEight0()
    ensures Eight(0, Regs(0x67452301, 0xefcdab89, 0x98badcfe, 0x10325476, 0xc3d2e1f0), FIRST0)
         == Regs(0x2e0ce601, 0x73553e84, 0x5cc82e5a, 0xb7631f04, 0x14f80e6b)
  {
  }

  lemma FirstEight8()
    ensures Eight(8, Regs(0x2e0ce601, 0x73553e84, 0x5cc82e5a, 0xb7631f04, 0x14f80e6b), FIRST8)
         == Regs(0xa004c468, 0xe922cc9d, 0xab86825b, 0xd86f6caf, 0x8d33ae61)
  {
  }

  lemma FirstEight16()
    ensures Eight(16, Regs(0xa004c468, 0xe922cc9d, 0xab86825b, 0xd86f6caf, 0x8d33ae61), FIRST16)
         == Regs(0x250e26ef, 0xbeafd554, 0xb44bc2d5, 0xd4611c28, 0x0246ae5f)
  {
  }

  lemma FirstEight24()
    ensures Eight(24, Regs(0x250e26ef, 0xbeafd554, 0xb44bc2d5, 0xd4611c28, 0x0246ae5f), FIRST24)
         == Regs(0xa6680a1f, 0xb7dabc8b, 0x4206d8f9, 0xc6aec70d, 0x95c7df60)
  {
  }

  lemma FirstEight32()
    ensures Eight(32, Regs(0xa6680a1f, 0xb7dabc8b, 0x4206d8f9, 0xc6aec70d, 0x95c7df60), FIRST32)
         == Regs(0x2ba2c83e, 0xd0869081, 0x1a1d8209, 0xd3334889, 0x2779e4f2)
  {
  }

  lemma FirstEight40()
    ensures Eight(40, Regs(0x2ba2c83e, 0xd0869081, 0x1a1d8209, 0xd3334889, 0x2779e4f2), FIRST40)
         == Regs(0xabe1748a, 0xdee4b7a8, 0x5cbfccd3, 0x97d7cd14, 0xdb71a8f5)
  {
  }

  lemma FirstEight48()
    ensures Eight(48, Regs(0xabe1748a, 0xdee4b7a8, 0x5cbfccd3, 0x97d7cd14, 0xdb71a8f5), FIRST48)
         == Regs(0x7e1242f2, 0x50c9104c, 0x131822b1, 0x49b1a4e5, 0x4439fd9c)
  {
  }

  lemma FirstEight56()
    ensures Eight(56, Regs(0x7e1242f2, 0x50c9104c, 0x131822b1, 0x49b1a4e5, 0x4439fd9c), FIRST56)
         == Regs(0x685e2ff6, 0x840054d3, 0xe43c0363, 0x3350802e, 0x921cb616)
  {
  }

  lemma FirstEight64()
    ensures Eight(64, Regs(0x685e2ff6, 0x840054d3, 0xe43c0363, 0x3350802e, 0x921cb616), FIRST64)
         == Regs(0x7e65e044, 0x80d59773, 0x81ce06df, 0xa59b8126, 0x33e1963b)
  {
  }

  lemma FirstEight72()
    ensures Eight(72, Regs(0x7e65e044, 0x80d59773, 0x81ce06df, 0xa59b8126, 0x33e1963b), FIRST72)
         == Regs(0xf48a5426, 0x835995e1, 0x25c11efb, 0x4a45c402, 0x9a73c2f2)
  {
  }

  lemma FirstBlock(m: Block)
    requires m == BlockOfWords(FIRST0, FIRST8)
    ensures Compress(IV, m) == MIDDLE
  {
    hide Rounds, WordsAre, Eight, Expand, BlockOfWords;
    FirstSixteen(FIRST0, FIRST8);
    FirstExpands();
    NoRounds(m, IV);
    EightIsRounds(m, 0, IV, FIRST0);
    FirstEight0();
    EightIsRounds(m, 8, IV, FIRST8);
    FirstEight8();
    ExpandIsSchedule(m, 0, FIRST0, FIRST8);
    EightIsRounds(m, 16, IV, FIRST16);
    FirstEight16();
    ExpandIsSchedule(m, 8, FIRST8, FIRST16);
    EightIsRounds(m, 24, IV, FIRST24);
    FirstEight24();
    ExpandIsSchedule(m, 16, FIRST16, FIRST24);
    EightIsRounds(m, 32, IV, FIRST32);
    FirstEight32();
    ExpandIsSchedule(m, 24, FIRST24, FIRST32);
    EightIsRounds(m, 40, IV, FIRST40);
    FirstEight40();
    ExpandIsSchedule(m, 32, FIRST32, FIRST40);
    EightIsRounds(m, 48, IV, FIRST48);
    FirstEight48();
    ExpandIsSchedule(m, 40, FIRST40, FIRST48);
    EightIsRounds(m, 56, IV, FIRST56);
    FirstEight56();
    ExpandIsSchedule(m, 48, FIRST48, FIRST56);
    EightIsRounds(m, 64, IV, FIRST64);
    FirstEight64();
    ExpandIsSchedule(m, 56, FIRST56, FIRST64);
    EightIsRounds(m, 72, IV, FIRST72);
    FirstEight72();
  }

  const MIDDLE := Regs(0x5bcf7727, 0x7327416a, 0xbe7bfbf9, 0x5a781878, 0x5e46a4e2)

  // ----- the second block -----

  const SECOND0 := Words(
    0x00000000, 0x00000000, 0x00000000, 0x00000000, 0x00000000, 0x00000000, 0x00000000, 0x00000000)
  const SECOND8 := Words(
    0x00000000, 0x00000000, 0x00000000, 0x00000000, 0x00000000, 0x00000000, 0x00000000, 0x000001e0)
  const SECOND16 := Words(
    0x00000000, 0x00000000, 0x000003c0, 0x00000000, 0x00000000, 0x00000780, 0x00000000, 0x000003c0)
  const SECOND24 := Words(
    0x00000f00, 0x00000000, 0x00000000, 0x00001e00, 0x00000000, 0x00000cc0, 0x00003c00, 0x00000440)
  const SECOND32 := Words(
    0x00000000, 0x00007800, 0x00000f00, 0x00003300, 0x0000f000, 0x00000f00, 0x00000000, 0x0001ef00)
  const SECOND40 := Words(
    0x00000000, 0x0000cc00, 0x0003c000, 0x00004380, 0x00000000, 0x00078f00, 0x0000ff00, 0x00032680)
  const SECOND48 := Words(
    0x000f0000, 0x0000f000, 0x00003300, 0x001eff00, 0x00000000, 0x000cb800, 0x003c0000, 0x00040b00)
  const SECOND56 := Words(
    0x0000f000, 0x0078ff00, 0x000ff000, 0x00338700, 0x00f00000, 0x000fc300, 0x0000f000, 0x01efbb00)
  const SECOND64 := Words(
    0x00000000, 0x00cc0000, 0x03c0f000, 0x00438000, 0x00000000, 0x078f0000, 0x00ff0000, 0x03269e00)
  const SECOND72 := Words(
    0x0f000000, 0x00f0f000, 0x00333c00, 0x1eff8800, 0x00000000, 0x0cb88800, 0x3c00f000, 0x040a4a00)

  lemma SecondExpands()
    ensures Expand(SECOND0, SECOND8) == SECOND16
    ensures Expand(SECOND8, SECOND16) == SECOND24
    ensures Expand(SECOND16, SECOND24) == SECOND32
    ensures Expand(SECOND24, SECOND32) == SECOND40
    ensures Expand(SECOND32, SECOND40) == SECOND48
    ensures Expand(SECOND40, SECOND48) == SECOND56
    ensures Expand(SECOND48, SECOND56) == SECOND64
    ensures Expand(SECOND56, SECOND64) == SECOND72
  {
  }

  lemma SecondEight0()
    ensures Eight(0, Regs(0x5bcf7727, 0x7327416a, 0xbe7bfbf9, 0x5a781878, 0x5e46a4e2), SECOND0)
         == Regs(0x25c018be, 0xb3bbcafe, 0xe4e97bee, 0xb90f74bc, 0xc5615548)
  {
    assert One(0, Regs(0x5bcf7727, 0x7327416a, 0xbe7bfbf9, 0x5a781878, 0x5e46a4e2), 0x00000000)
        == Regs(0x6d335cde, 0x5bcf7727, 0x9cc9d05a, 0xbe7bfbf9, 0x5a781878);
    assert One(1, Regs(0x6d335cde, 0x5bcf7727, 0x9cc9d05a, 0xbe7bfbf9, 0x5a781878), 0x00000000)
        == Regs(0x186006b8, 0x6d335cde, 0xd6f3ddc9, 0x9cc9d05a, 0xbe7bfbf9);
    assert One(2, Regs(0x186006b8, 0x6d335cde, 0xd6f3ddc9, 0x9cc9d05a, 0xbe7bfbf9), 0x00000000)
        == Regs(0xf9fb295d, 0x186006b8, 0x9b4cd737, 0xd6f3ddc9, 0x9cc9d05a);
    assert One(3, Regs(0xf9fb295d, 0x186006b8, 0x9b4cd737, 0xd6f3ddc9, 0x9cc9d05a), 0x00000000)
        == Regs(0x15855523, 0xf9fb295d, 0x061801ae, 0x9b4cd737, 0xd6f3ddc9);
    assert One(4, Regs(0x15855523, 0xf9fb295d, 0x061801ae, 0x9b4cd737, 0xd6f3ddc9), 0x00000000)
        == Regs(0xe43dd2f2, 0x15855523, 0x7e7eca57, 0x061801ae, 0x9b4cd737);
    assert One(5, Regs(0xe43dd2f2, 0x15855523, 0x7e7eca57, 0x061801ae, 0x9b4cd737), 0x00000000)
        == Regs(0x93a5efbb, 0xe43dd2f2, 0xc5615548, 0x7e7eca57, 0x061801ae);
    assert One(6, Regs(0x93a5efbb, 0xe43dd2f2, 0xc5615548, 0x7e7eca57, 0x061801ae), 0x00000000)
        == Regs(0xb3bbcafe, 0x93a5efbb, 0xb90f74bc, 0xc5615548, 0x7e7eca57);
  }

  lemma SecondEight8()
    ensures Eight(8, Regs(0x25c018be, 0xb3bbcafe, 0xe4e97bee, 0xb90f74bc, 0xc5615548), SECOND8)
         == Regs(0x986df268, 0x990b7be7, 0xab50fce7, 0x195db4b7, 0x4941806b)
  {
    assert One(8, Regs(0x25c018be, 0xb3bbcafe, 0xe4e97bee, 0xb90f74bc, 0xc5615548), 0x00000000)
        == Regs(0x80946593, 0x25c018be, 0xaceef2bf, 0xe4e97bee, 0xb90f74bc);
    assert One(9, Regs(0x80946593, 0x25c018be, 0xaceef2bf, 0xe4e97bee, 0xb90f74bc), 0x00000000)
        == Regs(0x0b0814c3, 0x80946593, 0x8970062f, 0xaceef2bf, 0xe4e97bee);
    assert One(10, Regs(0x0b0814c3, 0x80946593, 0x8970062f, 0xaceef2bf, 0xe4e97bee), 0x00000000)
        == Regs(0x4ce92417, 0x0b0814c3, 0xe0251964, 0x8970062f, 0xaceef2bf);
    assert One(11, Regs(0x4ce92417, 0x0b0814c3, 0xe0251964, 0x8970062f, 0xaceef2bf), 0x00000000)
        == Regs(0x250601ad, 0x4ce92417, 0xc2c20530, 0xe0251964, 0x8970062f);
    assert One(12, Regs(0x250601ad, 0x4ce92417, 0xc2c20530, 0xe0251964, 0x8970062f), 0x00000000)
        == Regs(0x6576d2dc, 0x250601ad, 0xd33a4905, 0xc2c20530, 0xe0251964);
    assert One(13, Regs(0x6576d2dc, 0x250601ad, 0xd33a4905, 0xc2c20530, 0xe0251964), 0x00000000)
        == Regs(0xad43f39e, 0x6576d2dc, 0x4941806b, 0xd33a4905, 0xc2c20530);
    assert One(14, Regs(0xad43f39e, 0x6576d2dc, 0x4941806b, 0xd33a4905, 0xc2c20530), 0x00000000)
        == Regs(0x990b7be7, 0xad43f39e, 0x195db4b7, 0x4941806b, 0xd33a4905);
  }

  lemma SecondEight16()
    ensures Eight(16, Regs(0x986df268, 0x990b7be7, 0xab50fce7, 0x195db4b7, 0x4941806b), SECOND16)
         == Regs(0x53c73650, 0x3e5179e7, 0x103ef3e6, 0xc48c56ca, 0x4a8022d4)
  {
    assert One(16, Regs(0x986df268, 0x990b7be7, 0xab50fce7, 0x195db4b7, 0x4941806b), 0x00000000)
        == Regs(0x3ad7440e, 0x986df268, 0xe642def9, 0xab50fce7, 0x195db4b7);
    assert One(17, Regs(0x3ad7440e, 0x986df268, 0xe642def9, 0xab50fce7, 0x195db4b7), 0x00000000)
        == Regs(0x72198f06, 0x3ad7440e, 0x261b7c9a, 0xe642def9, 0xab50fce7);
    assert One(18, Regs(0x72198f06, 0x3ad7440e, 0x261b7c9a, 0xe642def9, 0xab50fce7), 0x000003c0)
        == Regs(0x2f193a09, 0x72198f06, 0x8eb5d103, 0x261b7c9a, 0xe642def9);
    assert One(19, Regs(0x2f193a09, 0x72198f06, 0x8eb5d103, 0x261b7c9a, 0xe642def9), 0x00000000)
        == Regs(0x2a008b51, 0x2f193a09, 0x9c8663c1, 0x8eb5d103, 0x261b7c9a);
    assert One(20, Regs(0x2a008b51, 0x2f193a09, 0x9c8663c1, 0x8eb5d103, 0x261b7c9a), 0x00000000)
        == Regs(0x12315b2b, 0x2a008b51, 0x4bc64e82, 0x9c8663c1, 0x8eb5d103);
    assert One(21, Regs(0x12315b2b, 0x2a008b51, 0x4bc64e82, 0x9c8663c1, 0x8eb5d103), 0x00000780)
        == Regs(0x40fbcf98, 0x12315b2b, 0x4a8022d4, 0x4bc64e82, 0x9c8663c1);
    assert One(22, Regs(0x40fbcf98, 0x12315b2b, 0x4a8022d4, 0x4bc64e82, 0x9c8663c1), 0x00000000)
        == Regs(0x3e5179e7, 0x40fbcf98, 0xc48c56ca, 0x4a8022d4, 0x4bc64e82);
  }

  lemma SecondEight24()
    ensures Eight(24, Regs(0x53c73650, 0x3e5179e7, 0x103ef3e6, 0xc48c56ca, 0x4a8022d4), SECOND24)
         == Regs(0x3cf6eb58, 0xf4ddd7b7, 0xc90fb815, 0xbd5f2d4f, 0xe4c9f7db)
  {
  }

  lemma SecondEight32()
    ensures Eight(32, Regs(0x3cf6eb58, 0xf4ddd7b7, 0xc90fb815, 0xbd5f2d4f, 0xe4c9f7db), SECOND32)
         == Regs(0x6f698f1a, 0xc6ff0cd3, 0xde5ab7bc, 0x5f6f3cbb, 0x1da48a85)
  {
  }

  lemma SecondEight40()
    ensures Eight(40, Regs(0x6f698f1a, 0xc6ff0cd3, 0xde5ab7bc, 0x5f6f3cbb, 0x1da48a85), SECOND40)
         == Regs(0xa3ef857e, 0xc8cda3da, 0xcef6480e, 0xff1ef4d7, 0xc7a4d2b3)
  {
  }

  lemma SecondEight48()
    ensures Eight(48, Regs(0xa3ef857e, 0xc8cda3da, 0xcef6480e, 0xff1ef4d7, 0xc7a4d2b3), SECOND48)
         == Regs(0xa1b68141, 0x660dd0b1, 0x0b1cef5e, 0xe795018d, 0xd7f8a8f6)
  {
  }

  lemma SecondEight56()
    ensures Eight(56, Regs(0xa1b68141, 0x660dd0b1, 0x0b1cef5e, 0xe795018d, 0xd7f8a8f6), SECOND56)
         == Regs(0xa5937450, 0xd5ef1ed7, 0xc444cbe3, 0xddd22788, 0x558467c6)
  {
  }

  lemma SecondEight64()
    ensures Eight(64, Regs(0xa5937450, 0xd5ef1ed7, 0xc444cbe3, 0xddd22788, 0x558467c6), SECOND64)
         == Regs(0xc90888ca, 0xf6d1afee, 0x6fce9fe5, 0x538d8f6e, 0x025e9447)
  {
  }

  lemma SecondEight72()
    ensures Eight(72, Regs(0xc90888ca, 0xf6d1afee, 0x6fce9fe5, 0x538d8f6e, 0x025e9447), SECOND72)
         == Regs(0x57aad805, 0x4d3b0dac, 0xd27a4a0d, 0x74c040cd, 0x54782008)
  {
  }

  lemma SecondBlock(m: Block)
    requires m == BlockOfWords(SECOND0, SECOND8)
    ensures Compress(MIDDLE, m) == Regs(0xb37a4f2c, 0xc0624f16, 0x90f64606, 0xcf385945, 0xb2bec4ea)
  {
    hide Rounds, WordsAre, Eight, Expand, BlockOfWords;
    FirstSixteen(SECOND0, SECOND8);
    SecondExpands();
    NoRounds(m, MIDDLE);
    EightIsRounds(m, 0, MIDDLE, SECOND0);
    SecondEight0();
    EightIsRounds(m, 8, MIDDLE, SECOND8);
    SecondEight8();
    ExpandIsSchedule(m, 0, SECOND0, SECOND8);
    EightIsRounds(m, 16, MIDDLE, SECOND16);
    SecondEight16();
    ExpandIsSchedule(m, 8, SECOND8, SECOND16);
    EightIsRounds(m, 24, MIDDLE, SECOND24);
    SecondEight24();
    ExpandIsSchedule(m, 16, SECOND16, SECOND24);
    EightIsRounds(m, 32, MIDDLE, SECOND32);
    SecondEight32();
    ExpandIsSchedule(m, 24, SECOND24, SECOND32);
    EightIsRounds(m, 40, MIDDLE, SECOND40);
    SecondEight40();
    ExpandIsSchedule(m, 32, SECOND32, SECOND40);
    EightIsRounds(m, 48, MIDDLE, SECOND48);
    SecondEight48();
    ExpandIsSchedule(m, 40, SECOND40, SECOND48);
    EightIsRounds(m, 56, MIDDLE, SECOND56);
    SecondEight56();
    ExpandIsSchedule(m, 48, SECOND48, SECOND56);
    EightIsRounds(m, 64, MIDDLE, SECOND64);
    SecondEight64();
    ExpandIsSchedule(m, 56, SECOND56, SECOND64);
    EightIsRounds(m, 72, MIDDLE, SECOND72);
    SecondEight72();
  }

  lemma KeyText()
    ensures SAMPLE_KEY == Ascii("dGhlIHNhbXBsZSBub25jZQ==")
  {
    hide Octet;
    Iso646();
  }

  lemma GuidText()
    ensures Accept.GUID == GUID
  {
    hide Octet;
    Iso646();
  }

  const PADDING: seq<byte> := [0x80] + Zeros(59) + LENGTH
  const LENGTH: seq<byte> := [0, 0, 0, 0, 0, 0, 0x01, 0xe0] // 480 bits

  lemma ZeroOctets(k: nat)
    ensures BigEndianOctets(0, k) == Zeros(k)
  {
    hide ByteOf;
    if k > 0 {
      ZeroOctets(k - 1);
    }
  }

  lemma Length480()
    ensures LengthField(480) == LENGTH
  {
    hide ByteOf, Zeros;
    ZeroOctets(6);
    assert BigEndianOctets(1, 7) == BigEndianOctets(0, 6) + [ByteOf(1)];
    assert BigEndianOctets(480, 8) == BigEndianOctets(1, 7) + [ByteOf(224)];
    SmallOctets();
  }

  lemma SmallOctets()
    ensures ByteOf(1) == 0x01 && ByteOf(224) == 0xe0
  {
  }

  lemma Padded()
    ensures var text := SAMPLE_KEY + GUID; PaddedTail(text, 480, 480) == text + PADDING
  {
    hide LengthField, Zeros;
    Length480();
    var text := SAMPLE_KEY + GUID;
    assert WithOneBit(text, 480) == text + [0x80];
  }

  const OCTETS0: seq<byte> := [
    0x64, 0x47, 0x68, 0x6c, 0x49, 0x48, 0x4e, 0x68, 0x62, 0x58, 0x42, 0x73, 0x5a, 0x53, 0x42, 0x75,
    0x62, 0x32, 0x35, 0x6a, 0x5a, 0x51, 0x3d, 0x3d, 0x32, 0x35, 0x38, 0x45, 0x41, 0x46, 0x41, 0x35]

  lemma FirstWords0()
    ensures WordOctets(0x6447686c) == [0x64, 0x47, 0x68, 0x6c]
    ensures WordOctets(0x49484e68) == [0x49, 0x48, 0x4e, 0x68]
    ensures WordOctets(0x62584273) == [0x62, 0x58, 0x42, 0x73]
    ensures WordOctets(0x5a534275) == [0x5a, 0x53, 0x42, 0x75]
    ensures WordOctets(0x6232356a) == [0x62, 0x32, 0x35, 0x6a]
    ensures WordOctets(0x5a513d3d) == [0x5a, 0x51, 0x3d, 0x3d]
    ensures WordOctets(0x32353845) == [0x32, 0x35, 0x38, 0x45]
    ensures WordOctets(0x41464135) == [0x41, 0x46, 0x41, 0x35]
  {
  }

  lemma FirstOctets0()
    ensures OctetsOf(FIRST0) == OCTETS0
  {
    hide WordOctets;
    FirstWords0();
  }

  const LAST28: seq<byte> := [
    0x2d, 0x45, 0x39, 0x31, 0x34, 0x2d, 0x34, 0x37, 0x44, 0x41, 0x2d, 0x39, 0x35, 0x43,
    0x41, 0x2d, 0x43, 0x35, 0x41, 0x42, 0x30, 0x44, 0x43, 0x38, 0x35, 0x42, 0x31, 0x31]
  const OCTETS8: seq<byte> := LAST28 + [0x80, 0x00, 0x00, 0x00]

  lemma FirstWords8()
    ensures WordOctets(0x2d453931) == [0x2d, 0x45, 0x39, 0x31]
    ensures WordOctets(0x342d3437) == [0x34, 0x2d, 0x34, 0x37]
    ensures WordOctets(0x44412d39) == [0x44, 0x41, 0x2d, 0x39]
    ensures WordOctets(0x3543412d) == [0x35, 0x43, 0x41, 0x2d]
    ensures WordOctets(0x43354142) == [0x43, 0x35, 0x41, 0x42]
    ensures WordOctets(0x30444338) == [0x30, 0x44, 0x43, 0x38]
    ensures WordOctets(0x35423131) == [0x35, 0x42, 0x31, 0x31]
    ensures WordOctets(0x80000000) == [0x80, 0x00, 0x00, 0x00]
  {
  }

  lemma FirstOctets8()
    ensures OctetsOf(FIRST8) == OCTETS8
  {
    hide WordOctets;
    FirstWords8();
  }

  lemma FirstHalf()
    ensures (SAMPLE_KEY + GUID)[..32] == OCTETS0
  {
  }

  lemma LastOctets()
    ensures (SAMPLE_KEY + GUID)[32..] == LAST28
  {
  }

  lemma SecondHalf()
    ensures (SAMPLE_KEY + GUID)[32..] + [0x80] + Zeros(3) == OCTETS8
  {
    LastOctets();
    assert Zeros(3) == [0, 0, 0];
  }

  lemma Blocks()
    ensures var padded := SAMPLE_KEY + GUID + PADDING;
      && |padded| == 128 && padded[..32] == OCTETS0 && padded[32..64] == OCTETS8
      && padded[64..] == Zeros(56) + LENGTH
  {
    FirstHalf();
    SecondHalf();
    var text := SAMPLE_KEY + GUID;
    assert |text| == 60;
    SplitPadding(text);
  }

  lemma SplitPadding(text: seq<byte>)
    requires |text| == 60
    ensures var padded := text + PADDING;
      && |padded| == 128 && padded[..32] == text[..32] && padded[32..64] == text[32..] + [0x80] + Zeros(3)
      && padded[64..] == Zeros(56) + LENGTH
  {
    assert Zeros(59) == Zeros(3) + Zeros(56);
  }

  lemma SecondOctets()
    ensures OctetsOf(SECOND0) == Zeros(32) && OctetsOf(SECOND8) == Zeros(24) + LENGTH
  {
    assert WordOctets(0) == [0, 0, 0, 0] && WordOctets(0x1e0) == [0, 0, 0x01, 0xe0];
  }

  /** SHA-1 of the sample key and the GUID. */
  lemma SampleDigest()
    ensures Digest(SAMPLE_KEY + GUID, 480) == Regs(0xb37a4f2c, 0xc0624f16, 0x90f64606, 0xcf385945, 0xb2bec4ea)
  {
    hide Compress, Absorb, BlockOf, BlockOfWords, PaddedTail, Zeros, OctetsOf;
    Padded();
    Blocks();
    FirstOctets0();
    FirstOctets8();
    SecondOctets();
    BlockOfOctets(FIRST0, FIRST8);
    BlockOfOctets(SECOND0, SECOND8);
    FirstBlock(BlockOfWords(FIRST0, FIRST8));
    SecondBlock(BlockOfWords(SECOND0, SECOND8));
    var padded := SAMPLE_KEY + GUID + PADDING;
    assert padded[..64] == OctetsOf(FIRST0) + OctetsOf(FIRST8);
    assert padded[64..] == OctetsOf(SECOND0) + OctetsOf(SECOND8) by {
      assert Zeros(56) == Zeros(32) + Zeros(24);
    }
    assert padded == padded[..64] + padded[64..];
    AbsorbConcat(IV, padded[..64], padded[64..]);
    AbsorbBlock(IV, padded[..64]);
    AbsorbBlock(MIDDLE, padded[64..]);
  }

  // ----- base64 of the digest -----

  lemma EncodeStep(x: byte, y: byte, z: byte, rest: seq<byte>)
    ensures Base64.Encode([x, y, z] + rest) == Base64.Quad(x, y, z) + Base64.Encode(rest)
  {
    assert ([x, y, z] + rest)[3..] == rest;
  }

  /** The digest, in groups of three octets. */
  const REST0: seq<byte> := [0xb3, 0x7a, 0x4f] + REST1
  const REST1: seq<byte> := [0x2c, 0xc0, 0x62] + REST2
  const REST2: seq<byte> := [0x4f, 0x16, 0x90] + REST3
  const REST3: seq<byte> := [0xf6, 0x46, 0x06] + REST4
  const REST4: seq<byte> := [0xcf, 0x38, 0x59] + REST5
  const REST5: seq<byte> := [0x45, 0xb2, 0xbe] + REST6
  const REST6: seq<byte> := [0xc4, 0xea]

  lemma SampleOctets()
    ensures DigestOctets(Regs(0xb37a4f2c, 0xc0624f16, 0x90f64606, 0xcf385945, 0xb2bec4ea)) == REST0
  {
    assert WordOctets(0xb37a4f2c) == [0xb3, 0x7a, 0x4f, 0x2c];
    assert WordOctets(0xc0624f16) == [0xc0, 0x62, 0x4f, 0x16];
    assert WordOctets(0x90f64606) == [0x90, 0xf6, 0x46, 0x06];
    assert WordOctets(0xcf385945) == [0xcf, 0x38, 0x59, 0x45];
    assert WordOctets(0xb2bec4ea) == [0xb2, 0xbe, 0xc4, 0xea];
  }

  lemma QuadValues()
    ensures Base64.Quad(0xb3, 0x7a, 0x4f) == [0x73, 0x33, 0x70, 0x50]
    ensures Base64.Quad(0x2c, 0xc0, 0x62) == [0x4c, 0x4d, 0x42, 0x69]
    ensures Base64.Quad(0x4f, 0x16, 0x90) == [0x54, 0x78, 0x61, 0x51]
    ensures Base64.Quad(0xf6, 0x46, 0x06) == [0x39, 0x6b, 0x59, 0x47]
    ensures Base64.Quad(0xcf, 0x38, 0x59) == [0x7a, 0x7a, 0x68, 0x5a]
    ensures Base64.Quad(0x45, 0xb2, 0xbe) == [0x52, 0x62, 0x4b, 0x2b]
  {
  }

  lemma TailValue()
    ensures Base64.Encode(REST6) == [0x78, 0x4f, 0x6f, 0x3d]
  {
  }

  lemma SampleBase64()
    ensures Base64.Encode(REST0) == [0x73, 0x33, 0x70, 0x50] + ([0x4c, 0x4d, 0x42, 0x69] + ([0x54, 0x78, 0x61, 0x51] + (
           [0x39, 0x6b, 0x59, 0x47] + ([0x7a, 0x7a, 0x68, 0x5a] + ([0x52, 0x62, 0x4b, 0x2b] + (
           [0x78, 0x4f, 0x6f, 0x3d]))))))
  {
    hide Base64.Encode, Base64.Quad, Base64.Tail;
    QuadValues();
    TailValue();
    EncodeStep(0xb3, 0x7a, 0x4f, REST1);
    EncodeStep(0x2c, 0xc0, 0x62, REST2);
    EncodeStep(0x4f, 0x16, 0x90, REST3);
    EncodeStep(0xf6, 0x46, 0x06, REST4);
    EncodeStep(0xcf, 0x38, 0x59, REST5);
    EncodeStep(0x45, 0xb2, 0xbe, REST6);
  }

  lemma AcceptText()
    ensures Ascii("s3pPLMBiTxaQ9kYGzzhZRbK+xOo=") == [
      0x73, 0x33, 0x70, 0x50, 0x4c, 0x4d, 0x42, 0x69, 0x54, 0x78, 0x61, 0x51, 0x39, 0x6b,
      0x59, 0x47, 0x7a, 0x7a, 0x68, 0x5a, 0x52, 0x62, 0x4b, 0x2b, 0x78, 0x4f, 0x6f, 0x3d]
  {
    hide Octet;
    Iso646();
  }

  /** The accept value of section 1.3 for the sample key. */
  lemma SampleAcceptValue()
    ensures Accept.AcceptValue(Ascii("dGhlIHNhbXBsZSBub25jZQ==")) == Ascii("s3pPLMBiTxaQ9kYGzzhZRbK+xOo=")
  {
    hide Base64.Encode, DigestOctets, Digest, Ascii;
    KeyText();
    GuidText();
    SampleDigest();
    SampleOctets();
    SampleBase64();
    AcceptText();
  }
}
