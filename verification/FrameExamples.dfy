/** The examples of section 5.7 of RFC 6455, octet by octet. */
module FrameExamples {
  import opened Bytes
  import opened Rfc6455
  import opened Frames

  /** "Hello" */
  const HELLO: seq<byte> := [0x48, 0x65, 0x6c, 0x6c, 0x6f]
  const SAMPLE_KEY: Key := [0x37, 0xfa, 0x21, 0x3d]

  lemma MaskedHello()
    ensures Mask([0x7f, 0x9f, 0x4d, 0x51, 0x58], SAMPLE_KEY) == HELLO
  {
  }

  /** A single-frame masked text message. */
  const MASKED_TEXT: seq<byte> := [0x81, 0x85, 0x37, 0xfa, 0x21, 0x3d, 0x7f, 0x9f, 0x4d, 0x51, 0x58]

  lemma MaskedTextMessage()
    ensures ClientFront(MASKED_TEXT) == Frame(Text, HELLO, 11)
    ensures var p := ParseHeader(MASKED_TEXT);
      p == Parsed(TextFrame, 6, 5, 11) && Unmasked(MASKED_TEXT, p)[6..11] == HELLO
  {
    hide Mask;
    MaskedHello();
    assert MASKED_TEXT[6..11] == [0x7f, 0x9f, 0x4d, 0x51, 0x58] && MASKED_TEXT[2..6] == SAMPLE_KEY;
    assert Len7Of(0x85) == 5;
  }

  /** The masked pong that answers a ping with "Hello". */
  const MASKED_PONG: seq<byte> := [0x8a, 0x85, 0x37, 0xfa, 0x21, 0x3d, 0x7f, 0x9f, 0x4d, 0x51, 0x58]

  lemma MaskedPong()
    ensures ClientFront(MASKED_PONG) == Frame(Pong, HELLO, 11) && ParseHeader(MASKED_PONG).frameType == PongFrame
  {
    hide Mask;
    MaskedHello();
    assert MASKED_PONG[6..11] == [0x7f, 0x9f, 0x4d, 0x51, 0x58] && MASKED_PONG[2..6] == SAMPLE_KEY;
    assert Len7Of(0x85) == 5;
  }

  /** Unmasked text, ping and closing frames. */
  lemma UnmaskedMessages()
    ensures ServerFrame(Text, HELLO) == [0x81, 0x05, 0x48, 0x65, 0x6c, 0x6c, 0x6f]
    ensures ServerFrame(Ping, HELLO) == [0x89, 0x05, 0x48, 0x65, 0x6c, 0x6c, 0x6f]
    ensures ServerFrame(Close, []) == [0x88, 0x00]
  {
    assert ByteOf(5) == 0x05 && ByteOf(0) == 0x00;
  }

  /** The headers of binary messages of 256 and of 65536 octets. */
  lemma LongHeaders(message: seq<byte>)
    ensures |message| == 256 ==> ServerFrame(Binary, message) == [0x82, 0x7e, 0x01, 0x00] + message
    ensures |message| == 65536 ==>
      ServerFrame(Binary, message) == [0x82, 0x7f, 0x00, 0x00, 0x00, 0x00, 0x00, 0x01, 0x00, 0x00] + message
  {
    assert ByteOf(126) == 0x7e && ByteOf(127) == 0x7f && ByteOf(1) == 0x01 && ByteOf(0) == 0x00;
    Length256();
    Length65536();
  }

  lemma Length256()
    ensures BigEndianOctets(256, 2) == [0x01, 0x00]
  {
    hide ByteOf;
    SmallOctets();
    assert BigEndianOctets(1, 1) == BigEndianOctets(0, 0) + [ByteOf(1)];
    assert BigEndianOctets(256, 2) == BigEndianOctets(1, 1) + [ByteOf(0)];
  }

  lemma SmallOctets()
    ensures ByteOf(0) == 0x00 && ByteOf(1) == 0x01
  {
  }

  lemma Length65536()
    ensures BigEndianOctets(65536, 8) == [0x00, 0x00, 0x00, 0x00, 0x00, 0x01, 0x00, 0x00]
  {
    assert BigEndianOctets(0, 1) == [0x00];
    assert BigEndianOctets(0, 2) == [0x00, 0x00];
    assert BigEndianOctets(0, 3) == [0x00, 0x00, 0x00];
    assert BigEndianOctets(0, 4) == [0x00, 0x00, 0x00, 0x00];
    assert BigEndianOctets(0, 5) == [0x00, 0x00, 0x00, 0x00, 0x00];
    assert BigEndianOctets(1, 6) == BigEndianOctets(0, 5) + [ByteOf(1)];
    assert BigEndianOctets(256, 7) == BigEndianOctets(1, 6) + [ByteOf(0)];
    assert BigEndianOctets(65536, 8) == BigEndianOctets(256, 7) + [ByteOf(0)];
  }
}
