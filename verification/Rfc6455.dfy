/**
 The part of RFC 6455 the server implements, written from the standard: base framing (section 5.2),
 client-to-server masking (section 5.3), and decoders for both directions.
 */
module Rfc6455 {
  import opened Bytes

  /** The five opcodes the source recognises, by their numbers in section 5.2. */
  datatype Opcode = Text | Binary | Close | Ping | Pong {
    function Code(): byte {
      match this
      case Text => 0x1
      case Binary => 0x2
      case Close => 0x8
      case Ping => 0x9
      case Pong => 0xA
    }
  }

  datatype Lookup = NoOpcode | Found(opcode: Opcode)

  function OpcodeOf(b: byte): Lookup {
    if b == 0x1 then Found(Text)
    else if b == 0x2 then Found(Binary)
    else if b == 0x8 then Found(Close)
    else if b == 0x9 then Found(Ping)
    else if b == 0xA then Found(Pong)
    else NoOpcode
  }

  /** What stands at the front of an octet stream. */
  datatype Front = Partial | Malformed | Frame(opcode: Opcode, payload: seq<byte>, size: nat)

  // ----- masking (section 5.3) -----

  type Key = k: seq<byte> | |k| == 4 witness [0, 0, 0, 0]

  function XorByte(a: byte, b: byte): byte { a ^ b }

  /** Transformed octet `i` is original octet `i` XOR key octet `i MOD 4`. */
  function Mask(data: seq<byte>, key: Key): (r: seq<byte>)
    ensures |r| == |data|
  {
    seq(|data|, i requires 0 <= i < |data| => XorByte(data[i], key[i % 4]))
  }

  /** Octets differ exactly where their XOR is not 0; 0 changes nothing; the order does not matter. */
  lemma XorLaws(a: byte, b: byte, c: byte)
    ensures XorByte(a, b) == 0 <==> a == b
    ensures XorByte(a, 0) == a && XorByte(a, b) == XorByte(b, a)
    ensures XorByte(XorByte(a, b), c) == XorByte(a, XorByte(b, c))
  {
  }

  lemma XorTwice(a: byte, b: byte)
    ensures XorByte(XorByte(a, b), b) == a
  {
  }

  /** The same algorithm masks and unmasks. */
  lemma MaskTwice(data: seq<byte>, key: Key)
    ensures Mask(Mask(data, key), key) == data
  {
    hide XorByte;
    forall i | 0 <= i < |data|
      ensures Mask(Mask(data, key), key)[i] == data[i]
    {
      XorTwice(data[i], key[i % 4]);
    }
  }

  // ----- length forms (section 5.2) -----

  /** The number of extra length octets that the 7-bit field announces. */
  function ExtraOctets(len7: nat): nat {
    if len7 == 126 then 2 else if len7 == 127 then 8 else 0
  }

  /** The minimal length form: the 7-bit field and the extra octets, in network order. */
  function Len7(n: nat): (len7: nat)
    ensures len7 < 128
  {
    if n <= 125 then n else if n <= 0xFFFF then 126 else 127
  }

  function LengthOctets(n: nat): seq<byte> {
    BigEndianOctets(n, ExtraOctets(Len7(n)))
  }

  /** The 7-bit field of the second octet of a frame. */
  function Len7Of(b: byte): (n: nat)
    ensures n < 128
  {
    (b & 0x7F) as nat
  }

  // ----- header octets -----

  predicate ReservedBitsClear(b: byte) { b & 0x70 == 0 }
  predicate FinBitSet(b: byte) { b & 0x80 == 0x80 }
  predicate MaskBitSet(b: byte) { b & 0x80 == 0x80 }

  /** A first octet of an unfragmented frame with a known opcode. */
  function FirstOctet(op: Opcode): byte { 0x80 | op.Code() }

  predicate GoodFirstOctet(b: byte) {
    ReservedBitsClear(b) && FinBitSet(b) && OpcodeOf(b & 0x0F).Found?
  }

  lemma FirstOctetIsGood(op: Opcode)
    ensures GoodFirstOctet(FirstOctet(op)) && OpcodeOf(FirstOctet(op) & 0x0F) == Found(op)
  {
  }

  function SecondOctet(masked: bool, len7: nat): byte
    requires len7 < 128
  {
    if masked then 0x80 | ByteOf(len7) else ByteOf(len7)
  }

  /** The fields of the two header octets, as numbers: FIN and MASK are worth 128, the reserved bits 64, 32 and 16. */
  lemma HeaderBits(b: byte)
    ensures FinBitSet(b) <==> b >= 0x80
    ensures MaskBitSet(b) <==> b >= 0x80
    ensures ReservedBitsClear(b) <==> b < 0x10 || 0x80 <= b < 0x90
    ensures Len7Of(b) == if b >= 0x80 then b as nat - 128 else b as nat
  {
    hide ByteOf;
    if b < 0x80 {
      assert b & 0x7F == b;
    } else {
      assert b & 0x7F == b - 0x80;
    }
  }

  /** The first octets that are accepted: unfragmented text, binary, close, ping and pong. */
  lemma GoodFirstOctets(b: byte)
    ensures GoodFirstOctet(b) <==> b == 0x81 || b == 0x82 || b == 0x88 || b == 0x89 || b == 0x8A
    ensures GoodFirstOctet(b) ==>
      OpcodeOf(b & 0x0F)
      == Found(if b == 0x81 then Text else if b == 0x82 then Binary else if b == 0x88 then Close
               else if b == 0x89 then Ping else Pong)
  {
  }

  lemma SecondOctetFields(masked: bool, len7: nat)
    requires len7 < 128
    ensures MaskBitSet(SecondOctet(masked, len7)) == masked && Len7Of(SecondOctet(masked, len7)) == len7
  {
    SevenBits(ByteOf(len7));
  }

  lemma SevenBits(b: byte)
    requires b as nat < 128
    ensures b & 0x80 == 0 && b & 0x7F == b && (0x80 | b) & 0x80 == 0x80 && (0x80 | b) & 0x7F == b
  {
  }

  // ----- client frames -----

  /** A masked, unfragmented client frame in minimal length form. */
  function ClientFrame(op: Opcode, key: Key, payload: seq<byte>): seq<byte> {
    [FirstOctet(op), SecondOctet(true, Len7(|payload|))] + LengthOctets(|payload|) + key + Mask(payload, key)
  }

  /**
   The front of a client stream. Fragments, extensions and unknown opcodes are malformed here, as this
   server supports none of them (section 5.1 requires the mask bit).
   */
  function ClientFront(s: seq<byte>): Front {
    if |s| < 2 then Partial
    else if !GoodFirstOctet(s[0]) || !MaskBitSet(s[1]) then Malformed
    else
      var extra := ExtraOctets(Len7Of(s[1]));
      if |s| < 2 + extra then Partial
      else
        var length := if extra == 0 then Len7Of(s[1]) else BigEndian(s[2..2 + extra]);
        if length >= 0x8000_0000_0000_0000 then Malformed
        else if |s| < 2 + extra + 4 + length then Partial
        else
          var at := 2 + extra + 4;
          Frame(OpcodeOf(s[0] & 0x0F).opcode, Mask(s[at..at + length], s[at - 4..at]), at + length)
  }

  lemma SliceStable(s: seq<byte>, t: seq<byte>, from: nat, to: nat)
    requires from <= to <= |s|
    ensures (s + t)[from..to] == s[from..to]
  {
  }

  /** More octets never change an answer that has been given. */
  lemma ClientFrontStable(s: seq<byte>, t: seq<byte>)
    requires ClientFront(s) != Partial
    ensures ClientFront(s + t) == ClientFront(s)
  {
    hide GoodFirstOctet, MaskBitSet, Len7Of, OpcodeOf, Mask, BigEndian;
    assert (s + t)[0] == s[0] && (s + t)[1] == s[1];
    if GoodFirstOctet(s[0]) && MaskBitSet(s[1]) {
      var extra := ExtraOctets(Len7Of(s[1]));
      SliceStable(s, t, 2, 2 + extra);
      if ClientFront(s).Frame? {
        var at, size := 2 + extra + 4, ClientFront(s).size;
        SliceStable(s, t, at, size);
        SliceStable(s, t, at - 4, at);
      }
    }
  }

  /** Every client frame with a payload that fits the standard is read back, whatever follows it. */
  lemma ClientFrameFront(op: Opcode, key: Key, payload: seq<byte>, t: seq<byte>)
    requires |payload| < 0x8000_0000_0000_0000
    ensures ClientFront(ClientFrame(op, key, payload) + t)
         == Frame(op, payload, |ClientFrame(op, key, payload)|)
  {
    hide FirstOctet, SecondOctet, GoodFirstOctet, MaskBitSet, Len7Of, OpcodeOf, Mask, BigEndian, BigEndianOctets;
    FirstOctetIsGood(op);
    var n, s := |payload|, ClientFrame(op, key, payload) + t;
    SecondOctetFields(true, Len7(n));
    var extra := ExtraOctets(Len7(n));
    assert s[2..2 + extra] == LengthOctets(n);
    if n > 125 {
      LengthOctetsRoundTrip(n);
    }
    var at := 2 + extra + 4;
    var head := [FirstOctet(op), SecondOctet(true, Len7(n))] + LengthOctets(n);
    assert s == head + key + (Mask(payload, key) + t);
    assert s[at - 4..at] == key;
    assert s[at..at + n] == Mask(payload, key);
    MaskTwice(payload, key);
  }

  lemma LengthOctetsRoundTrip(n: nat)
    requires 125 < n < 0x1_0000_0000_0000_0000
    ensures BigEndian(LengthOctets(n)) == n
  {
    hide BigEndian, BigEndianOctets;
    assert Pow256(2) == 0x1_0000;
    assert Pow256(4) == 0x1_0000_0000;
    assert Pow256(6) == 0x1_0000_0000_0000;
    assert Pow256(8) == 0x1_0000_0000_0000_0000;
    BigEndianRoundTrip(n, ExtraOctets(Len7(n)));
  }

  /** A proper prefix of a client frame is never taken for a frame. */
  lemma ClientFramePrefix(op: Opcode, key: Key, payload: seq<byte>, k: nat)
    requires |payload| < 0x8000_0000_0000_0000 && k < |ClientFrame(op, key, payload)|
    ensures ClientFront(ClientFrame(op, key, payload)[..k]) == Partial
  {
    hide ClientFront, ClientFrame;
    var f := ClientFrame(op, key, payload);
    ClientFrameFront(op, key, payload, []);
    assert f + [] == f;
    var front := f[..k];
    if ClientFront(front) != Partial {
      ClientFrontStable(front, f[k..]);
      assert front + f[k..] == f;
      assert ClientFront(front) == ClientFront(f);
      ClientFrontSize(front);
    }
  }

  lemma ClientFrontSize(s: seq<byte>)
    requires ClientFront(s).Frame?
    ensures 6 <= ClientFront(s).size <= |s|
  {
    hide GoodFirstOctet, MaskBitSet, Len7Of, OpcodeOf, Mask, BigEndian;
  }

  // ----- server frames -----

  /** An unmasked, unfragmented server frame in minimal length form. */
  function ServerFrame(op: Opcode, payload: seq<byte>): seq<byte> {
    [FirstOctet(op), SecondOctet(false, Len7(|payload|))] + LengthOctets(|payload|) + payload
  }

  /** The front of a server stream, as a client reads it: no mask, and the length form must be minimal. */
  function ServerFront(s: seq<byte>): Front {
    if |s| < 2 then Partial
    else if !GoodFirstOctet(s[0]) || MaskBitSet(s[1]) then Malformed
    else
      var extra := ExtraOctets(Len7Of(s[1]));
      if |s| < 2 + extra then Partial
      else
        var length := if extra == 0 then Len7Of(s[1]) else BigEndian(s[2..2 + extra]);
        if length >= 0x8000_0000_0000_0000 || Len7(length) != Len7Of(s[1]) then Malformed
        else if |s| < 2 + extra + length then Partial
        else Frame(OpcodeOf(s[0] & 0x0F).opcode, s[2 + extra..2 + extra + length], 2 + extra + length)
  }

  lemma ServerFrameFront(op: Opcode, payload: seq<byte>, t: seq<byte>)
    requires |payload| < 0x8000_0000_0000_0000
    ensures ServerFront(ServerFrame(op, payload) + t) == Frame(op, payload, |ServerFrame(op, payload)|)
  {
    hide FirstOctet, SecondOctet, GoodFirstOctet, MaskBitSet, Len7Of, OpcodeOf, BigEndian, BigEndianOctets;
    FirstOctetIsGood(op);
    var n, s := |payload|, ServerFrame(op, payload) + t;
    SecondOctetFields(false, Len7(n));
    var extra := ExtraOctets(Len7(n));
    assert s[2..2 + extra] == LengthOctets(n);
    if n > 125 {
      LengthOctetsRoundTrip(n);
    }
    assert s[2 + extra..2 + extra + n] == payload;
  }

  /** A whole server stream as its frames; `Broken` when it is malformed or cut inside a frame. */
  datatype Decoded = Broken | Messages(list: seq<(Opcode, seq<byte>)>)

  function DecodeServer(s: seq<byte>): Decoded {
    if s == [] then Messages([])
    else
      match ServerFront(s)
      case Frame(op, payload, size) =>
        if size == 0 || size > |s| then Broken
        else
          (match DecodeServer(s[size..])
           case Messages(rest) => Messages([(op, payload)] + rest)
           case Broken => Broken)
      case _ => Broken
  }

  function ServerStream(list: seq<(Opcode, seq<byte>)>): seq<byte> {
    if list == [] then [] else ServerFrame(list[0].0, list[0].1) + ServerStream(list[1..])
  }

  /** The frames of a list of messages, one after the other, are read back as exactly that list. */
  lemma {:induction false} DecodeServerStream(list: seq<(Opcode, seq<byte>)>)
    requires forall i | 0 <= i < |list| :: |list[i].1| < 0x8000_0000_0000_0000
    ensures DecodeServer(ServerStream(list)) == Messages(list)
  {
    hide ServerFrame, ServerFront;
    if list == [] {
    } else {
      var f, rest := ServerFrame(list[0].0, list[0].1), ServerStream(list[1..]);
      DecodeServerStream(list[1..]);
      ServerFrameFront(list[0].0, list[0].1, rest);
      ServerFrameSize(list[0].0, list[0].1);
      assert (f + rest)[|f|..] == rest;
      assert list == [list[0]] + list[1..];
    }
  }

  lemma ServerFrameSize(op: Opcode, payload: seq<byte>)
    ensures |ServerFrame(op, payload)| == 2 + ExtraOctets(Len7(|payload|)) + |payload|
  {
  }

  /** Writing one more frame extends the stream by one message. */
  lemma {:induction false} ServerStreamSnoc(list: seq<(Opcode, seq<byte>)>, op: Opcode, payload: seq<byte>)
    ensures ServerStream(list + [(op, payload)]) == ServerStream(list) + ServerFrame(op, payload)
  {
    hide ServerFrame;
    if list == [] {
      assert [(op, payload)][1..] == [];
    } else {
      ServerStreamSnoc(list[1..], op, payload);
      assert (list + [(op, payload)])[1..] == list[1..] + [(op, payload)];
    }
  }
}
