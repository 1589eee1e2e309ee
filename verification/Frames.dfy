/**
 The frame parser and the frame printer (log-server/cwebsocket/websocket.c:208-334), with the unsigned
 arithmetic and the host byte order of the source.
 */
module Frames {
  import opened Bytes
  import opened Rfc6455

  /** `enum wsFrameType`. */
  datatype FrameType =
    | EmptyFrame | ErrorFrame | IncompleteFrame | OpeningFrame
    | TextFrame | BinaryFrame | ClosingFrame | PingFrame | PongFrame

  function TypeOf(op: Opcode): FrameType {
    match op
    case Text => TextFrame
    case Binary => BinaryFrame
    case Close => ClosingFrame
    case Ping => PingFrame
    case Pong => PongFrame
  }

  /** Subtraction of `size_t` values: it wraps around. */
  function SizeSub(a: nat, b: nat): (r: nat) {
    (a - b) % 0x1_0000_0000_0000_0000
  }

  // ----- the parser -----

  /** What `getPayloadLength` returns and what it leaves in its two out-parameters. */
  datatype LengthInfo = LengthInfo(payload: nat, extra: nat, frameType: FrameType)

  /** `getPayloadLength`. The extended lengths are copied in host order. */
  function GetPayloadLength(b: seq<byte>, frameType: FrameType): LengthInfo
    requires |b| >= 2
  {
    var len7 := Len7Of(b[1]);
    if len7 == 0 then LengthInfo(0, 0, frameType)
    else if (len7 == 0x7E && |b| < 4) || (len7 == 0x7F && |b| < 10) then LengthInfo(0, 0, IncompleteFrame)
    else if len7 == 0x7F && b[3] & 0x80 != 0 then LengthInfo(0, 0, ErrorFrame)
    else if len7 == 0x7E then LengthInfo(HostNumber(b[2..4]), 2, frameType)
    else if len7 == 0x7F then LengthInfo(HostNumber(b[2..10]), 8, frameType)
    else LengthInfo(len7, 0, frameType)
  }

  /** The answer of the parser: the type, and where the data and the frame end. */
  datatype Parsed = Parsed(frameType: FrameType, dataAt: nat, dataLength: nat, frameLength: nat)

  const REJECTED := Parsed(ErrorFrame, 0, 0, 0)
  const WAITING := Parsed(IncompleteFrame, 0, 0, 0)

  /** What `wsParseInputFrame` answers for the `inputLength` octets `b`. */
  function ParseHeader(b: seq<byte>): Parsed {
    if |b| < 2 then WAITING
    else if !ReservedBitsClear(b[0]) then REJECTED
    else if !FinBitSet(b[0]) then REJECTED
    else if !MaskBitSet(b[1]) then REJECTED
    else
      match OpcodeOf(b[0] & 0x0F)
      case NoOpcode => REJECTED
      case Found(op) =>
        var info := GetPayloadLength(b, TypeOf(op));
        if info.payload > 0 && info.payload > SizeSub(|b|, 6 + info.extra) then WAITING
        else
          var size := (info.payload + info.extra + 6) % 0x1_0000_0000_0000_0000;
          if info.frameType == IncompleteFrame then WAITING
          else if info.frameType == ErrorFrame then REJECTED
          else Parsed(info.frameType, 6 + info.extra, info.payload, size)
  }

  /** The parser unmasks the data in place, and only when it answers with a complete frame. */
  function Unmasked(b: seq<byte>, p: Parsed): (r: seq<byte>)
    requires p.frameType in {ErrorFrame, IncompleteFrame} || 4 <= p.dataAt <= p.dataAt + p.dataLength <= |b|
    ensures |r| == |b|
  {
    if p.frameType in {ErrorFrame, IncompleteFrame} then b
    else
      b[..p.dataAt] + Mask(b[p.dataAt..p.dataAt + p.dataLength], b[p.dataAt - 4..p.dataAt])
        + b[p.dataAt + p.dataLength..]
  }

  lemma NothingUnmasked(a: seq<byte>, p: Parsed)
    requires p.frameType in {ErrorFrame, IncompleteFrame}
    ensures Unmasked(a, p) == a
  {
  }

  /** Unmasking shows the payload and leaves everything behind the frame as it is. */
  lemma UnmaskedParts(a: seq<byte>, n: nat, p: Parsed)
    requires p.frameType !in {ErrorFrame, IncompleteFrame}
    requires 6 <= p.dataAt && p.dataAt + p.dataLength == p.frameLength <= n <= |a|
    ensures var b, u := a[..n], Unmasked(a, p);
      && u[p.dataAt..p.frameLength] == Mask(b[p.dataAt..p.frameLength], b[p.dataAt - 4..p.dataAt])
      && u[..n][p.frameLength..] == b[p.frameLength..]
  {
    hide Mask;
    var b, u := a[..n], Unmasked(a, p);
    assert b[p.dataAt..p.frameLength] == a[p.dataAt..p.frameLength];
    assert b[p.dataAt - 4..p.dataAt] == a[p.dataAt - 4..p.dataAt];
  }

  /**
   `wsParseInputFrame` on the first `inputLength` octets of the buffer. The caller owes what the
   assertion of the source demands, and that the data the header announces lies inside the buffer.
   */
  method ParseInputFrame(inputFrame: array<byte>, inputLength: nat) returns (p: Parsed)
    requires 0 < inputLength <= inputFrame.Length
    requires var p := ParseHeader(inputFrame[..inputLength]);
      p.frameType in {ErrorFrame, IncompleteFrame} || p.dataAt + p.dataLength <= inputFrame.Length
    modifies inputFrame
    ensures p == ParseHeader(old(inputFrame[..inputLength]))
    ensures p.frameType in {ErrorFrame, IncompleteFrame}
      || 6 <= p.dataAt <= p.dataAt + p.dataLength <= inputFrame.Length
    ensures inputFrame[..] == Unmasked(old(inputFrame[..]), p)
  {
    hide ReservedBitsClear, FinBitSet, MaskBitSet, OpcodeOf, GetPayloadLength, Mask;
    p := HeaderAnswer(inputFrame, inputLength);
    if p.frameType !in {ErrorFrame, IncompleteFrame} {
      UnmaskInPlace(inputFrame, p.dataAt, p.dataLength);
    }
  }

  /** The header checks of `wsParseInputFrame`, in its order. */
  method HeaderAnswer(inputFrame: array<byte>, inputLength: nat) returns (p: Parsed)
    requires 0 < inputLength <= inputFrame.Length
    ensures p == ParseHeader(inputFrame[..inputLength])
    ensures p.frameType in {ErrorFrame, IncompleteFrame} || 6 <= p.dataAt
  {
    hide ReservedBitsClear, FinBitSet, MaskBitSet, OpcodeOf, GetPayloadLength;
    if inputLength < 2 {
      return WAITING;
    }
    ghost var b := inputFrame[..inputLength];
    assert b[0] == inputFrame[0] && b[1] == inputFrame[1];
    if !ReservedBitsClear(inputFrame[0]) {
      return REJECTED;
    }
    if !FinBitSet(inputFrame[0]) {
      return REJECTED;
    }
    if !MaskBitSet(inputFrame[1]) {
      return REJECTED;
    }
    var opcode := OpcodeOf(inputFrame[0] & 0x0F);
    if opcode == NoOpcode {
      return REJECTED;
    }
    var info := GetPayloadLength(inputFrame[..inputLength], TypeOf(opcode.opcode));
    if info.payload > 0 && info.payload > SizeSub(inputLength, 6 + info.extra) {
      return WAITING;
    }
    if info.frameType == IncompleteFrame {
      return WAITING;
    }
    if info.frameType == ErrorFrame {
      return REJECTED;
    }
    var size := (info.payload + info.extra + 6) % 0x1_0000_0000_0000_0000;
    return Parsed(info.frameType, 6 + info.extra, info.payload, size);
  }

  /** The unmasking loop: the key is the four octets before the data. */
  method UnmaskInPlace(a: array<byte>, at: nat, length: nat)
    requires 4 <= at <= at + length <= a.Length
    modifies a
    ensures a[..] == old(a[..at] + Mask(a[at..at + length], a[at - 4..at]) + a[at + length..])
  {
    hide XorByte;
    ghost var data, key := a[at..at + length], a[at - 4..at];
    var i := 0;
    while i < length
      invariant 0 <= i <= length
      invariant a[..at] == old(a[..at]) && a[at + length..] == old(a[at + length..])
      invariant forall j | 0 <= j < i :: a[at + j] == Mask(data, key)[j]
      invariant forall j | i <= j < length :: a[at + j] == data[j]
    {
      assert a[at - 4 + i % 4] == key[i % 4] by { assert a[..at][at - 4 + i % 4] == key[i % 4]; }
      a[at + i] := XorByte(a[at + i], a[at - 4 + i % 4]);
      i := i + 1;
    }
    assert a[at..at + length] == Mask(data, key);
    assert a[..] == a[..at] + a[at..at + length] + a[at + length..];
  }

  // ----- the parser against the standard -----

  /** The length octet is a 7-bit length: the form every message of up to 125 octets has. */
  predicate ShortForm(s: seq<byte>) {
    |s| >= 2 ==> Len7Of(s[1]) <= 125
  }

  /**
   The header hypothesis: the parser is not run on a buffer that holds the first two octets of a frame
   but not its whole masking key.
   */
  predicate HeaderWhole(s: seq<byte>) {
    |s| < 2 || |s| >= 6
  }

  predicate GoodHeader(s: seq<byte>) {
    |s| >= 2 && GoodFirstOctet(s[0]) && MaskBitSet(s[1])
  }

  /** The answer `p` for `s` says the same as the standard does. */
  predicate Agrees(p: Parsed, s: seq<byte>) {
    match ClientFront(s)
    case Partial => p.frameType == IncompleteFrame
    case Malformed => p.frameType == ErrorFrame
    case Frame(op, payload, size) =>
      && p.frameType == TypeOf(op) && p.frameLength == size
      && 6 <= p.dataAt && p.dataAt + p.dataLength == size <= |s|
      && Mask(s[p.dataAt..size], s[p.dataAt - 4..p.dataAt]) == payload
  }

  /** What the parser answers for a good header with a 7-bit length. */
  lemma ShortAnswer(s: seq<byte>)
    requires GoodHeader(s) && Len7Of(s[1]) <= 125
    ensures var n := Len7Of(s[1]);
      exists op | OpcodeOf(s[0] & 0x0F) == Found(op) ::
        ParseHeader(s) == if n > 0 && n > SizeSub(|s|, 6) then WAITING else Parsed(TypeOf(op), 6, n, n + 6)
  {
    hide ReservedBitsClear, FinBitSet, MaskBitSet, OpcodeOf, Len7Of;
    assert OpcodeOf(s[0] & 0x0F) == Found(OpcodeOf(s[0] & 0x0F).opcode);
  }

  lemma BadHeaderAnswer(s: seq<byte>)
    requires |s| >= 2 && !GoodHeader(s)
    ensures ParseHeader(s) == REJECTED && ClientFront(s) == Malformed
  {
    hide ReservedBitsClear, FinBitSet, MaskBitSet, OpcodeOf, GetPayloadLength;
  }

  /** What the standard says of a good header with a 7-bit length. */
  lemma ShortFront(s: seq<byte>)
    requires GoodHeader(s) && Len7Of(s[1]) <= 125
    ensures |s| < 6 + Len7Of(s[1]) ==> ClientFront(s) == Partial
    ensures var n := Len7Of(s[1]);
      |s| >= 6 + n ==>
        && OpcodeOf(s[0] & 0x0F).Found?
        && ClientFront(s) == Frame(OpcodeOf(s[0] & 0x0F).opcode, Mask(s[6..6 + n], s[2..6]), 6 + n)
  {
    hide ReservedBitsClear, FinBitSet, MaskBitSet, OpcodeOf, Len7Of, Mask;
  }

  lemma SizeSubWraps(n: nat)
    requires n < 6
    ensures SizeSub(n, 6) == 0x1_0000_0000_0000_0000 - 6 + n
  {
  }

  /**
   For short frames the parser agrees with the standard exactly under the header hypothesis: on two to
   five octets of a good header it answers with a frame that is not there yet.
   */
  lemma ParserAgreesIff(s: seq<byte>)
    requires ShortForm(s) && |s| < 0x1_0000_0000_0000_0000
    ensures Agrees(ParseHeader(s), s) <==> HeaderWhole(s) || !GoodHeader(s)
  {
    hide GoodFirstOctet, MaskBitSet, ParseHeader, ClientFront, OpcodeOf, Mask, Len7Of;
    if |s| < 2 {
      TooShort(s);
    } else if !GoodHeader(s) {
      BadHeaderAnswer(s);
    } else {
      ShortAnswer(s);
      ShortFront(s);
      if |s| < 6 {
        SizeSubWraps(|s|);
      }
    }
  }

  lemma TooShort(s: seq<byte>)
    requires |s| < 2
    ensures ParseHeader(s) == WAITING && ClientFront(s) == Partial && !GoodHeader(s)
  {
  }

  /**
   The two causes. A length of 0 is never compared with what has arrived; a length from 1 to 125 is
   compared with a difference that has wrapped around.
   */
  lemma ShortHeaderCauses(s: seq<byte>)
    requires ShortForm(s) && GoodHeader(s) && |s| < 6
    ensures ClientFront(s) == Partial && OpcodeOf(s[0] & 0x0F).Found?
    ensures var n := Len7Of(s[1]);
      && ParseHeader(s) == Parsed(TypeOf(OpcodeOf(s[0] & 0x0F).opcode), 6, n, n + 6)
      && (n == 0 || n <= SizeSub(|s|, 6) == |s| - 6 + 0x1_0000_0000_0000_0000)
  {
    hide GoodFirstOctet, MaskBitSet, ParseHeader, ClientFront, OpcodeOf, Mask, Len7Of;
    ShortAnswer(s);
    ShortFront(s);
    SizeSubWraps(|s|);
  }

  /** A short frame that is reported lies within the octets read exactly when its header does. */
  lemma FrameArrivedIff(s: seq<byte>)
    requires ShortForm(s) && |s| < 0x1_0000_0000_0000_0000
    requires ParseHeader(s).frameType !in {ErrorFrame, IncompleteFrame}
    ensures GoodHeader(s) && (ParseHeader(s).frameLength <= |s| <==> HeaderWhole(s))
  {
    hide GoodFirstOctet, MaskBitSet, ParseHeader, OpcodeOf, Len7Of;
    if |s| < 2 {
      TooShort(s);
    } else if !GoodHeader(s) {
      BadHeaderAnswer(s);
    } else {
      ShortAnswer(s);
    }
  }

  /** The wrap-around, on two octets of a text frame of five octets. */
  lemma WrapAroundExample()
    ensures ClientFront([0x81, 0x85]) == Partial && SizeSub(2, 6) == 0xFFFF_FFFF_FFFF_FFFC
    ensures ParseHeader([0x81, 0x85]) == Parsed(TextFrame, 6, 5, 11)
  {
  }

  /** The length that is not checked, on two octets of an empty text frame. */
  lemma EmptyFrameExample()
    ensures ClientFront([0x81, 0x80]) == Partial
    ensures ParseHeader([0x81, 0x80]) == Parsed(TextFrame, 6, 0, 6)
  {
  }

  /**
   An answer other than INCOMPLETE stays when octets are appended, for short frames exactly when the header
   was whole, not good, or that of an empty frame.
   */
  lemma ParserStableIff(s: seq<byte>)
    requires ShortForm(s) && |s| < 0x8000_0000_0000_0000 && ParseHeader(s).frameType != IncompleteFrame
    ensures (forall t | |s + t| < 0x1_0000_0000_0000_0000 :: ParseHeader(s + t) == ParseHeader(s))
      <==> HeaderWhole(s) || !GoodHeader(s) || Len7Of(s[1]) == 0
  {
    hide GoodFirstOctet, MaskBitSet, ParseHeader, OpcodeOf, Len7Of;
    if HeaderWhole(s) || !GoodHeader(s) || (|s| >= 2 && Len7Of(s[1]) == 0) {
      forall t | |s + t| < 0x1_0000_0000_0000_0000
        ensures ParseHeader(s + t) == ParseHeader(s)
      {
        ParserStays(s, t);
      }
    } else {
      var t := Zeros(6 - |s|);
      ParserTakesBack(s);
      assert ParseHeader(s + t) != ParseHeader(s);
    }
  }

  lemma SameHeader(s: seq<byte>, t: seq<byte>)
    requires |s| >= 2
    ensures (s + t)[0] == s[0] && (s + t)[1] == s[1] && GoodHeader(s + t) == GoodHeader(s)
  {
  }

  lemma ParserStays(s: seq<byte>, t: seq<byte>)
    requires ShortForm(s) && |s + t| < 0x1_0000_0000_0000_0000 && ParseHeader(s).frameType != IncompleteFrame
    requires HeaderWhole(s) || !GoodHeader(s) || (|s| >= 2 && Len7Of(s[1]) == 0)
    ensures ParseHeader(s + t) == ParseHeader(s)
  {
    hide GoodHeader, ParseHeader, OpcodeOf, Len7Of;
    if |s| < 2 {
      TooShort(s);
    }
    SameHeader(s, t);
    if GoodHeader(s) {
      ShortAnswer(s);
      ShortAnswer(s + t);
    } else {
      BadHeaderAnswer(s);
      BadHeaderAnswer(s + t);
    }
  }

  /** With its key complete, a frame announced too early is INCOMPLETE again. */
  lemma ParserTakesBack(s: seq<byte>)
    requires GoodHeader(s) && |s| < 6 && 0 < Len7Of(s[1]) <= 125
    ensures ParseHeader(s).frameType != IncompleteFrame
    ensures ParseHeader(s + Zeros(6 - |s|)).frameType == IncompleteFrame
  {
    hide GoodFirstOctet, MaskBitSet, ParseHeader, OpcodeOf, Len7Of;
    SameHeader(s, Zeros(6 - |s|));
    ShortAnswer(s);
    SizeSubWraps(|s|);
    ShortAnswer(s + Zeros(6 - |s|));
  }

  /** An answer that is taken back. */
  lemma UnstableExample()
    ensures ParseHeader([0x81, 0x85]).frameType == TextFrame
    ensures ParseHeader([0x81, 0x85, 0, 0, 0, 0]).frameType == IncompleteFrame
  {
  }

  /** The parse of a complete short client frame, whatever follows it in the buffer. */
  lemma ParseClientFrame(op: Opcode, key: Key, payload: seq<byte>, t: seq<byte>)
    requires |payload| <= 125
    requires |ClientFrame(op, key, payload) + t| < 0x1_0000_0000_0000_0000
    ensures var s := ClientFrame(op, key, payload) + t; var p := ParseHeader(s);
      && p == Parsed(TypeOf(op), 6, |payload|, |payload| + 6)
      && Unmasked(s, p)[6..6 + |payload|] == payload
  {
    hide ParseHeader, ClientFrame, ClientFront, Mask;
    var s := ClientFrame(op, key, payload) + t;
    ShortClientFrame(op, key, payload, t);
    ClientFrameFront(op, key, payload, t);
    ParserAgreesIff(s);
    AgreesShort(s);
  }

  lemma ShortClientFrame(op: Opcode, key: Key, payload: seq<byte>, t: seq<byte>)
    requires |payload| <= 125
    ensures |ClientFrame(op, key, payload)| == |payload| + 6
    ensures ShortForm(ClientFrame(op, key, payload) + t)
  {
    hide FirstOctet, SecondOctet, Len7Of, Mask;
    SecondOctetFields(true, |payload|);
  }

  /** A short frame has its data right after a header of six octets. */
  lemma AgreesShort(s: seq<byte>)
    requires ShortForm(s) && Agrees(ParseHeader(s), s) && ClientFront(s).Frame?
    ensures ParseHeader(s).dataAt == 6 && ClientFront(s).size == 6 + ParseHeader(s).dataLength <= |s|
    ensures |ClientFront(s).payload| == ParseHeader(s).dataLength
  {
    hide ReservedBitsClear, FinBitSet, MaskBitSet, OpcodeOf, Mask, BigEndian, HostNumber, Len7Of;
  }

  /** A proper prefix of a short client frame that meets the hypothesis is INCOMPLETE. */
  lemma ParsePrefix(op: Opcode, key: Key, payload: seq<byte>, k: nat)
    requires |payload| <= 125 && k < |ClientFrame(op, key, payload)|
    ensures ParseHeader(ClientFrame(op, key, payload)[..k]).frameType == IncompleteFrame <==> k < 2 || k >= 6
  {
    hide ParseHeader, ClientFrame, ClientFront, Mask;
    var f := ClientFrame(op, key, payload);
    ShortClientFrame(op, key, payload, []);
    assert f + [] == f;
    ClientFramePrefix(op, key, payload, k);
    GoodClientFrame(op, key, payload);
    ParserAgreesIff(f[..k]);
  }

  lemma GoodClientFrame(op: Opcode, key: Key, payload: seq<byte>)
    requires |payload| <= 125
    ensures GoodHeader(ClientFrame(op, key, payload))
  {
    hide FirstOctet, SecondOctet, Len7Of, Mask, GoodFirstOctet, MaskBitSet;
    FirstOctetIsGood(op);
    SecondOctetFields(true, |payload|);
  }

  // ----- the longer length forms -----

  /** The extra length octets. */
  function ExtraLength(s: seq<byte>, extra: nat): seq<byte>
    requires |s| >= 2 + extra
  {
    s[2..2 + extra]
  }

  lemma TwoOctets(a: byte, b: byte)
    ensures Reversed([a, b]) == [b, a] && HostNumber([a, b]) < 0x1_0000
  {
    assert [a, b][1..] == [b] && [b][1..] == [];
    assert Reversed([b]) == [b];
    assert HostNumber([b]) == b as nat;
  }

  /** The 16-bit form is copied in host order: the length is right exactly when the two octets are equal. */
  lemma HostOrder16Iff(s: seq<byte>)
    requires |s| >= 4 && Len7Of(s[1]) == 126
    ensures GetPayloadLength(s, TextFrame).payload == BigEndian(s[2..4]) <==> s[2] == s[3]
  {
    hide Len7Of, HostNumber, BigEndian, Reversed;
    assert s[2..4] == [s[2], s[3]];
    TwoOctets(s[2], s[3]);
    HostOrderAgreesIff(s[2..4]);
  }

  /** So is the 64-bit form: the length is right exactly when the eight octets read the same backwards. */
  lemma HostOrder64Iff(s: seq<byte>)
    requires |s| >= 10 && Len7Of(s[1]) == 127 && s[3] & 0x80 == 0
    ensures GetPayloadLength(s, TextFrame).payload == BigEndian(s[2..10]) <==> Reversed(s[2..10]) == s[2..10]
  {
    hide Len7Of, HostNumber, BigEndian, Reversed;
    HostOrderAgreesIff(s[2..10]);
  }

  /** What the parser answers for a good header with a longer length form, once the length is there. */
  lemma ExtendedAnswer(s: seq<byte>, extra: nat)
    requires GoodHeader(s) && extra == ExtraOctets(Len7Of(s[1])) > 0 && |s| >= 2 + extra
    requires extra == 8 ==> s[3] & 0x80 == 0
    ensures OpcodeOf(s[0] & 0x0F).Found?
    ensures var n := HostNumber(ExtraLength(s, extra));
      ParseHeader(s)
      == if n > 0 && n > SizeSub(|s|, 6 + extra) then WAITING
         else
           Parsed(TypeOf(OpcodeOf(s[0] & 0x0F).opcode), 6 + extra, n, (n + extra + 6) % 0x1_0000_0000_0000_0000)
  {
    hide ReservedBitsClear, FinBitSet, MaskBitSet, OpcodeOf, Len7Of, HostNumber, SizeSub;
  }

  /** What the standard says of such a header. */
  lemma ExtendedFront(s: seq<byte>, extra: nat)
    requires GoodHeader(s) && extra == ExtraOctets(Len7Of(s[1])) > 0 && |s| >= 2 + extra
    ensures var n := BigEndian(ExtraLength(s, extra));
      && (n >= 0x8000_0000_0000_0000 ==> ClientFront(s) == Malformed)
      && (n < 0x8000_0000_0000_0000 && |s| < 6 + extra + n ==> ClientFront(s) == Partial)
      && (n < 0x8000_0000_0000_0000 && |s| >= 6 + extra + n ==>
        && OpcodeOf(s[0] & 0x0F).Found?
        && ClientFront(s) == Frame(OpcodeOf(s[0] & 0x0F).opcode,
                                   Mask(s[6 + extra..6 + extra + n], s[2 + extra..6 + extra]), 6 + extra + n))
  {
    hide ReservedBitsClear, FinBitSet, MaskBitSet, OpcodeOf, Len7Of, BigEndian, Mask;
  }

  /** Before the length is there, both wait. */
  lemma ExtendedTooShort(s: seq<byte>)
    requires GoodHeader(s) && ExtraOctets(Len7Of(s[1])) > 0 && |s| < 2 + ExtraOctets(Len7Of(s[1]))
    ensures ParseHeader(s) == WAITING && ClientFront(s) == Partial
  {
    hide ReservedBitsClear, FinBitSet, MaskBitSet, OpcodeOf, Len7Of;
  }

  lemma SizeSubMeaning(a: nat, b: nat)
    requires a < 0x1_0000_0000_0000_0000 && b <= 14
    ensures SizeSub(a, b) == if a >= b then a - b else a - b + 0x1_0000_0000_0000_0000
  {
  }

  /**
   With the length there, parser and standard agree exactly when the masking key is there too, and either
   the two byte orders give the same length, or both give one that has not arrived.
   */
  lemma ExtendedAgreesIff(s: seq<byte>, extra: nat)
    requires GoodHeader(s) && extra == ExtraOctets(Len7Of(s[1])) > 0 && 2 + extra <= |s| < 0x1_0000_0000_0000_0000
    requires extra == 8 ==> s[3] & 0x80 == 0
    requires HostNumber(ExtraLength(s, extra)) < 0x1_0000_0000_0000_0000 - 4
    requires BigEndian(ExtraLength(s, extra)) < 0x8000_0000_0000_0000
    ensures var host, n := HostNumber(ExtraLength(s, extra)), BigEndian(ExtraLength(s, extra));
      Agrees(ParseHeader(s), s)
      <==> |s| >= 6 + extra && (host == n || (host > |s| - 6 - extra && n > |s| - 6 - extra))
  {
    hide ParseHeader, ClientFront, OpcodeOf, Mask, Len7Of, HostNumber, BigEndian, SizeSub, GoodFirstOctet, MaskBitSet;
    ExtendedAnswer(s, extra);
    ExtendedFront(s, extra);
    SizeSubMeaning(|s|, 6 + extra);
  }

  /** Parser and standard on 16-bit lengths. */
  lemma ParserAgrees16Iff(s: seq<byte>)
    requires GoodHeader(s) && Len7Of(s[1]) == 126 && |s| < 0x1_0000_0000_0000_0000
    ensures Agrees(ParseHeader(s), s)
      <==> (|s| < 4
        || (|s| >= 8 && (s[2] == s[3] || (HostNumber(s[2..4]) > |s| - 8 && BigEndian(s[2..4]) > |s| - 8))))
  {
    hide ParseHeader, ClientFront, Mask, Len7Of, HostNumber, BigEndian, Reversed, GoodFirstOctet, MaskBitSet;
    if |s| < 4 {
      ExtendedTooShort(s);
    } else {
      assert s[2..4] == [s[2], s[3]] == ExtraLength(s, 2);
      TwoOctets(s[2], s[3]);
      TwoOctets(s[3], s[2]);
      HostNumberIsReversed([s[3], s[2]]);
      HostOrderAgreesIff(s[2..4]);
      ExtendedAgreesIff(s, 2);
    }
  }

  lemma EightOctets(b: seq<byte>)
    requires |b| == 8 && b[1] & 0x80 == 0
    ensures HostNumber(b) < 0x1_0000_0000_0000_0000 - 4
  {
    var rest := b[2..];
    HostNumberBound(rest);
    PowerOfSix();
    HighBitClear(b[1]);
    assert b[1..][1..] == rest && b[1..][0] == b[1];
    assert HostNumber(b) == b[0] as nat + 256 * (b[1] as nat + 256 * HostNumber(rest));
  }

  lemma PowerOfSix()
    ensures Pow256(6) == 0x1_0000_0000_0000
  {
    assert Pow256(3) == 0x100_0000;
  }

  lemma HighBitClear(b: byte)
    ensures b & 0x80 == 0 ==> b as nat < 128
  {
  }

  /** Parser and standard on 64-bit lengths, of which the parser tests the wrong octet for the top bit. */
  lemma ParserAgrees64Iff(s: seq<byte>)
    requires GoodHeader(s) && Len7Of(s[1]) == 127 && |s| < 0x1_0000_0000_0000_0000
    ensures |s| < 10 ==> Agrees(ParseHeader(s), s)
    ensures |s| >= 10 ==>
      var host, n := HostNumber(s[2..10]), BigEndian(s[2..10]);
      Agrees(ParseHeader(s), s)
      <==> if s[3] & 0x80 != 0 then n >= 0x8000_0000_0000_0000
           else
             && n < 0x8000_0000_0000_0000 && |s| >= 14
             && (Reversed(s[2..10]) == s[2..10] || (host > |s| - 14 && n > |s| - 14))
  {
    hide ParseHeader, ClientFront, Mask, Len7Of, HostNumber, BigEndian, Reversed, GoodFirstOctet, MaskBitSet;
    if |s| < 10 {
      ExtendedTooShort(s);
    } else {
      ExtendedFront(s, 8);
      if s[3] & 0x80 != 0 {
        HighBitAnswer(s);
      } else {
        EightOctets(s[2..10]);
        HostOrderAgreesIff(s[2..10]);
        ExtendedAnswer(s, 8);
        if BigEndian(s[2..10]) < 0x8000_0000_0000_0000 {
          ExtendedAgreesIff(s, 8);
        }
      }
    }
  }

  lemma HighBitAnswer(s: seq<byte>)
    requires GoodHeader(s) && Len7Of(s[1]) == 127 && |s| >= 10 && s[3] & 0x80 != 0
    ensures ParseHeader(s) == REJECTED
  {
    hide ReservedBitsClear, FinBitSet, MaskBitSet, OpcodeOf, Len7Of;
  }

  // ----- the printer -----

  /** The header octets `wsMakeFrame` writes. The 64-bit form is copied in host order. */
  function MadeHeader(op: Opcode, n: nat): (h: seq<byte>)
    requires n < 0x1_0000_0000_0000_0000
  {
    [FirstOctet(op), SecondOctet(false, Len7(n))]
      + (if n <= 0xFFFF then LengthOctets(n) else Memory(n, 8))
  }

  /**
   `wsMakeFrame` for the opcodes. It writes the header before it looks at `outLength`; it answers -1
   exactly when header and data do not fit, and otherwise the size of the frame it has written.
   */
  method MakeFrame(data: seq<byte>, outFrame: array<byte>, outLength: nat, op: Opcode) returns (r: int)
    requires |data| < 0x1_0000_0000_0000_0000
    requires outFrame.Length >= 10 && outLength <= outFrame.Length
    modifies outFrame
    ensures r == -1 <==> outLength < |MadeHeader(op, |data|)| + |data|
    ensures r != -1 ==> r == |MadeHeader(op, |data|)| + |data| && outFrame[..r] == MadeHeader(op, |data|) + data
  {
    hide MadeHeader;
    var headerLength := PutHeader(outFrame, |data|, op);
    if outLength < headerLength + |data| {
      return -1;
    }
    ghost var header := outFrame[..headerLength];
    PutAt(outFrame, headerLength, data);
    assert outFrame[..headerLength + |data|] == header + data;
    return headerLength + |data|;
  }

  /** The first octet and the length form. */
  method PutHeader(outFrame: array<byte>, n: nat, op: Opcode) returns (headerLength: nat)
    requires n < 0x1_0000_0000_0000_0000 && outFrame.Length >= 10
    modifies outFrame
    ensures headerLength == |MadeHeader(op, n)| <= 10 && outFrame[..headerLength] == MadeHeader(op, n)
  {
    hide FirstOctet, BigEndianOctets, Memory;
    SecondOctets();
    outFrame[0] := FirstOctet(op);
    if n <= 125 {
      outFrame[1] := ByteOf(n);
      headerLength := 2;
    } else if n <= 0xFFFF {
      outFrame[1] := 126;
      PutAt(outFrame, 2, LengthOctets(n)); // htons and memcpy: network order
      headerLength := 4;
    } else {
      outFrame[1] := 127;
      PutAt(outFrame, 2, Memory(n, 8));
      headerLength := 10;
    }
    assert outFrame[..2] == [FirstOctet(op), SecondOctet(false, Len7(n))];
    assert outFrame[..headerLength] == outFrame[..2] + outFrame[2..headerLength];
  }

  lemma SecondOctets()
    ensures SecondOctet(false, 126) == 126 && SecondOctet(false, 127) == 127
  {
    SecondOctetValue(126);
    SecondOctetValue(127);
  }

  lemma SecondOctetValue(n: nat)
    requires n < 128
    ensures SecondOctet(false, n) as nat == n
  {
    hide ByteOf;
  }

  /** `memcpy` into an array. */
  method PutAt(a: array<byte>, at: nat, data: seq<byte>)
    requires at + |data| <= a.Length
    modifies a
    ensures a[..at] == old(a[..at]) && a[at..at + |data|] == data && a[at + |data|..] == old(a[at + |data|..])
  {
    forall i | 0 <= i < |data| { a[at + i] := data[i]; }
  }

  /** Up to 65535 octets, and so for every message `Send` accepts, the frame is that of the standard. */
  lemma MadeFrameIsServerFrame(op: Opcode, data: seq<byte>)
    requires |data| <= 0xFFFF
    ensures MadeHeader(op, |data|) + data == ServerFrame(op, data)
  {
    hide FirstOctet, SecondOctet, BigEndianOctets;
  }
}
