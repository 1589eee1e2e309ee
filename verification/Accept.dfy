/** The answer to an accepted upgrade request (log-server/cwebsocket/websocket.c:174-206). */
module Accept {
  import opened Bytes
  import opened CStrings
  import opened Options
  import Base64
  import Fips180
  import H = Handshake
  import S = Sha1

  /** The GUID of section 1.3 of RFC 6455, `secret` in websocket.h. */
  const GUID: seq<byte> := Ascii("258EAFA5-E914-47DA-95CA-C5AB0DC85B11")

  /** "HTTP/1.1 101 Switching Protocols", and the field names and values of websocket.h. */
  const HEAD: seq<byte> :=
    Ascii("HTTP/1.1 101 Switching Protocols\r\n")
      + H.Field.Upgrade.Name() + H.WEBSOCKET_VALUE + CRLF
      + H.Field.Connection.Name() + UPGRADE2 + CRLF
      + Ascii("Sec-WebSocket-Accept: ")
  const UPGRADE2: seq<byte> := Ascii("Upgrade")
  const FOOT: seq<byte> := BLANK

  lemma Lengths()
    ensures |GUID| == 36 && |HEAD| == 97
  {
  }

  /** The SHA-1 digest of the key followed by the GUID. */
  function KeyDigest(key: seq<byte>): (d: seq<byte>)
    ensures |d| == 20
  {
    Fips180.DigestOctets(Fips180.Digest(key + GUID, 8 * |key + GUID|))
  }

  /** Section 4.2.2, item 5.4: base64 of the digest. */
  function AcceptValue(key: seq<byte>): (v: seq<byte>)
    ensures |v| == 28
  {
    Base64.Encode(KeyDigest(key))
  }

  function Response(key: seq<byte>): seq<byte> {
    HEAD + AcceptValue(key) + FOOT
  }

  /** A client that decodes the accept value gets the digest of its own key. */
  lemma AcceptValueDecodes(key: seq<byte>)
    ensures Base64.Decode(AcceptValue(key)) == Some(KeyDigest(key))
  {
    hide KeyDigest;
    Base64.DecodeEncode(KeyDigest(key));
  }

  /** Every response has the same 129 octets of length. */
  lemma ResponseLength(key: seq<byte>)
    ensures |Response(key)| == 129
  {
    hide AcceptValue;
    Lengths();
  }

  /**
   `wsGetHandshakeAnswer`. The key and the GUID fill `responseKey`, whose length goes through a `uint8_t`;
   the same buffer then takes the base64 text and its NUL.
   */
  method GetHandshakeAnswer(key: seq<byte>, outFrame: array<byte>) returns (outLength: nat)
    requires 1 <= |key| <= 219
    requires 129 <= outFrame.Length
    modifies outFrame
    ensures outLength == 129 && outFrame[..129] == Response(key)
    ensures outFrame[129..] == old(outFrame[129..])
  {
    hide AcceptValue, KeyDigest;
    Lengths();
    var length := (|key| + |GUID|) % 256;
    var text := key + GUID;
    var responseKey := new byte[length](i requires 0 <= i < |text| => text[i]);
    EncodeKey(responseKey, key);
    ResponseLength(key);
    var response := HEAD + responseKey[..28] + FOOT;
    forall i | 0 <= i < |response| { outFrame[i] := response[i]; }
    outLength := |response|;
  }

  /** The hash of `responseKey`, written back over it in base64: it always has room for 29 octets. */
  method EncodeKey(responseKey: array<byte>, key: seq<byte>)
    requires 37 <= responseKey.Length <= 255 && responseKey[..] == key + GUID
    modifies responseKey
    ensures responseKey[..28] == AcceptValue(key) && responseKey[28] == 0
  {
    hide Base64.Encode, Fips180.DigestOctets, Fips180.Digest, Fips180.Absorb, S.SourceTail, S.LastOctetClean;
    var shaHash := new byte[20](_ => 0);
    WholeOctets(key + GUID);
    S.Sha1(shaHash, responseKey[..], responseKey.Length * 8);
    assert shaHash[..20] == shaHash[..] == KeyDigest(key);
    Base64.Base64Enc(responseKey, shaHash[..]);
  }

  lemma WholeOctets(text: seq<byte>)
    ensures S.LastOctetClean(text, 8 * |text|)
  {
    assert 8 * |text| % 8 == 0;
  }
}
