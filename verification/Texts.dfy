/** The constants of the sources, as text and as numbers. */
module Texts {
  import opened Bytes
  import opened CStrings
  import opened Streams
  import A = Accept
  import B = Base64
  import C = Clients
  import H = Handshake
  import S = Subscriptions

  // ----- websocket.h -----

  lemma ShortNames()
    ensures H.Field.Host.Name() == Ascii("Host: ")
    ensures H.Field.Origin.Name() == Ascii("Origin: ")
    ensures H.Field.Connection.Name() == Ascii("Connection: ")
    ensures H.Field.Upgrade.Name() == Ascii("Upgrade: ")
  {
    hide Octet;
    Iso646();
  }

  lemma SecText()
    ensures H.SEC == Ascii("Sec-WebSocket-")
  {
    hide Octet;
    Iso646();
  }

  lemma ProtocolName()
    ensures H.Field.Protocol.Name() == Ascii("Sec-WebSocket-Protocol: ")
  {
    hide Octet;
    Iso646();
  }

  lemma KeyName()
    ensures H.Field.Key.Name() == Ascii("Sec-WebSocket-Key: ")
  {
    hide Octet;
    Iso646();
  }

  lemma VersionName()
    ensures H.Field.Version.Name() == Ascii("Sec-WebSocket-Version: ")
  {
    hide Octet;
    Iso646();
  }

  lemma Values()
    ensures H.UPGRADE_VALUE == Ascii("upgrade") && H.WEBSOCKET_VALUE == Ascii("websocket")
    ensures H.VERSION_VALUE == Ascii("13")
  {
    hide Octet;
    Iso646();
  }

  // ----- the request line, line ends and characters -----

  lemma RequestTexts()
    ensures H.GET == Ascii("GET ") && H.HTTP11 == Ascii(" HTTP/1.1")
  {
    hide Octet;
    Iso646();
  }

  lemma LineEnds()
    ensures CRLF == Ascii("\r\n") && BLANK == Ascii("\r\n\r\n")
  {
    hide Octet;
    Iso646();
  }

  /** `tolower`: a capital letter becomes the small one as far from 'a' as it is from 'A'; nothing else changes. */
  lemma ToLowerMeaning(c: byte)
    ensures Octet('A') <= c <= Octet('Z') ==> ToLower(c) - Octet('a') == c - Octet('A')
    ensures c < Octet('A') || c > Octet('Z') ==> ToLower(c) == c
  {
  }

  /** `isspace`: blank, and the five control characters from TAB to CR. */
  lemma SpaceIff(c: byte)
    ensures IsSpace(c) <==> c == 0x20 || c == 0x09 || c == 0x0A || c == 0x0B || c == 0x0C || c == 0x0D
  {
  }

  // ----- the answers -----

  /** The response to an accepted request, as text. */
  lemma ResponseText(key: seq<byte>)
    ensures A.Response(key)
         == Ascii("HTTP/1.1 101 Switching Protocols\r\n")
          + Ascii("Upgrade: ") + Ascii("websocket") + Ascii("\r\n")
          + Ascii("Connection: ") + Ascii("Upgrade") + Ascii("\r\n")
          + Ascii("Sec-WebSocket-Accept: ") + A.AcceptValue(key) + Ascii("\r\n\r\n")
  {
    hide A.AcceptValue, Ascii, H.Field.Name;
    LineEnds();
    ShortNames();
    Values();
  }

  /** The response to a refused one. */
  lemma BadRequestText()
    ensures C.BAD_REQUEST
         == Ascii("HTTP/1.1 400 Bad Request\r\n")
          + Ascii("Sec-WebSocket-Version: ") + Ascii("13") + Ascii("\r\n\r\n")
  {
    hide Ascii, H.Field.Name;
    VersionName();
    Values();
  }

  // ----- base64 -----

  /** Table 1 of RFC 4648: the letters, the digits, plus and slash, and the padding character. */
  lemma Alphabet(a: byte)
    ensures a < 26 ==> B.Bit6ToAscii(a) - Octet('A') == a
    ensures 26 <= a < 52 ==> B.Bit6ToAscii(a) - Octet('a') == a - 26
    ensures 52 <= a < 62 ==> B.Bit6ToAscii(a) - Octet('0') == a - 52
    ensures B.Bit6ToAscii(62) == Octet('+') && B.Bit6ToAscii(63) == Octet('/') && B.PAD == Octet('=')
  {
    hide Octet;
    Iso646();
  }

  /** The vectors of section 10 of RFC 4648. */
  lemma Vectors()
    ensures B.Encode(Ascii("")) == Ascii("")
    ensures B.Encode(Ascii("f")) == Ascii("Zg==")
    ensures B.Encode(Ascii("fo")) == Ascii("Zm8=")
    ensures B.Encode(Ascii("foo")) == Ascii("Zm9v")
    ensures B.Encode(Ascii("foob")) == Ascii("Zm9vYg==")
    ensures B.Encode(Ascii("fooba")) == Ascii("Zm9vYmE=")
    ensures B.Encode(Ascii("foobar")) == Ascii("Zm9vYmFy")
  {
    hide Ascii, B.Encode;
    VectorTexts();
    Rest();
    EncodeFoo([0x62]);
    EncodeFoo([0x62, 0x61]);
    EncodeFoo([0x62, 0x61, 0x72]);
  }

  lemma VectorTexts()
    ensures Ascii("") == []
    ensures Ascii("f") == [0x66] && Ascii("Zg==") == [0x5A, 0x67, 0x3D, 0x3D]
    ensures Ascii("fo") == [0x66, 0x6F] && Ascii("Zm8=") == [0x5A, 0x6D, 0x38, 0x3D]
    ensures Ascii("foo") == [0x66, 0x6F, 0x6F] && Ascii("Zm9v") == [0x5A, 0x6D, 0x39, 0x76]
    ensures Ascii("foob") == [0x66, 0x6F, 0x6F] + [0x62]
    ensures Ascii("Zm9vYg==") == [0x5A, 0x6D, 0x39, 0x76] + [0x59, 0x67, 0x3D, 0x3D]
    ensures Ascii("fooba") == [0x66, 0x6F, 0x6F] + [0x62, 0x61]
    ensures Ascii("Zm9vYmE=") == [0x5A, 0x6D, 0x39, 0x76] + [0x59, 0x6D, 0x45, 0x3D]
    ensures Ascii("foobar") == [0x66, 0x6F, 0x6F] + [0x62, 0x61, 0x72]
    ensures Ascii("Zm9vYmFy") == [0x5A, 0x6D, 0x39, 0x76] + [0x59, 0x6D, 0x46, 0x79]
  {
    hide Octet;
    Iso646();
  }

  lemma EncodeFoo(rest: seq<byte>)
    ensures B.Encode([0x66, 0x6F, 0x6F] + rest) == [0x5A, 0x6D, 0x39, 0x76] + B.Encode(rest)
  {
    hide B.Quad;
    Foo();
    var s := [0x66, 0x6F, 0x6F] + rest;
    assert s[3..] == rest;
  }

  lemma Foo()
    ensures B.Quad(0x66, 0x6F, 0x6F) == [0x5A, 0x6D, 0x39, 0x76]
  {
  }

  lemma Rest()
    ensures B.Encode([]) == []
    ensures B.Encode([0x66, 0x6F, 0x6F]) == [0x5A, 0x6D, 0x39, 0x76]
    ensures B.Encode([0x66]) == [0x5A, 0x67, 0x3D, 0x3D]
    ensures B.Encode([0x66, 0x6F]) == [0x5A, 0x6D, 0x38, 0x3D]
    ensures B.Encode([0x62]) == [0x59, 0x67, 0x3D, 0x3D]
    ensures B.Encode([0x62, 0x61]) == [0x59, 0x6D, 0x45, 0x3D]
    ensures B.Encode([0x62, 0x61, 0x72]) == [0x59, 0x6D, 0x46, 0x79]
  {
  }

  // ----- log-server.cpp and client.h -----

  lemma CommandTexts()
    ensures S.ADD == Ascii("add") && S.DEL == Ascii("del") && S.DOTS == Ascii("..") && S.SPACE == Ascii(" ")
  {
    hide Octet;
    Iso646();
  }

  /** The sizes and result codes. */
  lemma Numbers()
    ensures BUF_LEN == 8192 && C.SEND_BUF_LEN == 16000 && MESSAGE_BUF_LEN == 2048
    ensures READ_SUCCEED == 0 && READ_SUCCEED_DATA_AVAILABLE == 1 && WAITING_FOR_MORE_DATA == 2
    ensures HANDSHAKE_SUCCEED == 3 && NETWORK_ERROR == -1 && BUFFER_TOO_SMALL == -3 && CLIENT_DISCONNECTED == -4
    ensures INVALID_FRAME == -5 && HANDSHAKE_FAILED == -6 && C.MESSAGE_TOO_LONG == -10
  {
  }
}
