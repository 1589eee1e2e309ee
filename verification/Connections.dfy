/**
 A whole connection of a browser: its request, the answer with the accept value, and its text frames, put
 together from the parts.
 */
module Connections {
  import opened Bytes
  import opened CStrings
  import opened Streams
  import opened Clients
  import A = Accept
  import Frames
  import H = Handshake
  import Texts

  // ----- the request of a browser -----

  function Line(f: H.Field, v: seq<byte>): seq<byte> { f.Name() + v }

  const CAPITAL_UPGRADE: seq<byte> := [0x55, 0x70, 0x67, 0x72, 0x61, 0x64, 0x65] // "Upgrade"

  /** The header lines: host, upgrade, connection, key, version. */
  function BrowserLines(host: seq<byte>, key: seq<byte>): seq<seq<byte>> {
    [Line(H.Field.Host, host),
     Line(H.Field.Upgrade, H.WEBSOCKET_VALUE),
     Line(H.Field.Connection, CAPITAL_UPGRADE),
     Line(H.Field.Key, key),
     Line(H.Field.Version, H.VERSION_VALUE)]
  }

  /** A value that a header line can carry. */
  predicate Value(v: seq<byte>) {
    1 <= |v| <= 255 && forall i | 0 <= i < |v| :: v[i] != 0 && v[i] != 0x0D && v[i] != 0x0A
  }

  lemma FieldLine(f: H.Field, v: seq<byte>)
    requires Value(v) && f != H.Field.Protocol
    ensures var l := Line(f, v);
      && H.Plain(l) && !H.Stopper(l) && H.ValueFits(l) && H.TagOf(l) == H.Of(f) && H.FullValue(l, f) == v
  {
    hide H.TagOf, H.Field.Name;
    H.NameFacts(f);
    H.TagOfIff(Line(f, v), f);
  }

  lemma ConnectionValue()
    ensures H.Contains(Lower(CAPITAL_UPGRADE), H.UPGRADE_VALUE)
  {
    assert Lower(CAPITAL_UPGRADE) == H.UPGRADE_VALUE;
    assert MatchAt(H.UPGRADE_VALUE, 0, H.UPGRADE_VALUE);
  }

  lemma WebsocketValue()
    ensures H.WEBSOCKET_VALUE <= Lower(H.WEBSOCKET_VALUE)
  {
    assert Lower(H.WEBSOCKET_VALUE) == H.WEBSOCKET_VALUE;
  }

  lemma FixedValues()
    ensures Value(H.WEBSOCKET_VALUE) && Value(CAPITAL_UPGRADE) && Value(H.VERSION_VALUE)
    ensures Value(MIXED_WEBSOCKET) && Value(KEEP_ALIVE + CAPITAL_UPGRADE)
  {
  }

  lemma BrowserFields(host: seq<byte>, key: seq<byte>)
    requires Value(host) && Value(key)
    ensures var ls := BrowserLines(host, key);
      && (forall i | 0 <= i < 5 :: H.Plain(ls[i]) && !H.Stopper(ls[i]) && H.ValueFits(ls[i]))
      && H.TagOf(ls[0]) == H.Of(H.Field.Host)
      && H.TagOf(ls[1]) == H.Of(H.Field.Upgrade) && H.FullValue(ls[1], H.Field.Upgrade) == H.WEBSOCKET_VALUE
      && H.TagOf(ls[2]) == H.Of(H.Field.Connection) && H.FullValue(ls[2], H.Field.Connection) == CAPITAL_UPGRADE
      && H.TagOf(ls[3]) == H.Of(H.Field.Key) && H.FullValue(ls[3], H.Field.Key) == key
      && H.TagOf(ls[4]) == H.Of(H.Field.Version) && H.FullValue(ls[4], H.Field.Version) == H.VERSION_VALUE
  {
    hide H.Stopper, H.Plain, H.ValueFits, H.TagOf, H.FullValue, Value, Line;
    FixedValues();
    FieldLine(H.Field.Host, host);
    FieldLine(H.Field.Upgrade, H.WEBSOCKET_VALUE);
    FieldLine(H.Field.Connection, CAPITAL_UPGRADE);
    FieldLine(H.Field.Key, key);
    FieldLine(H.Field.Version, H.VERSION_VALUE);
  }

  lemma LinesFit(host: seq<byte>, key: seq<byte>)
    requires Value(host) && Value(key)
    ensures var ls := BrowserLines(host, key); H.AllPlain(ls) && H.Seen(ls) == ls && H.ValuesFit(ls)
  {
    hide Line, H.Stopper, H.Plain, H.ValueFits, H.TagOf, H.FullValue, H.Seen;
    BrowserFields(host, key);
    H.SeenIsAll(BrowserLines(host, key));
  }

  lemma LinesAccepted(host: seq<byte>, key: seq<byte>)
    requires Value(host) && Value(key)
    ensures var ls := BrowserLines(host, key);
      H.Acceptable(ls) && H.LastKeyLine(ls, 3) && H.KeyLine(ls[3]) && H.FullValue(ls[3], H.Field.Key) == key
  {
    hide Line, H.TagOf, H.FullValue, H.Contains, Lower, H.Stopper, H.Plain, H.ValueFits;
    hide H.HostLine, H.KeyLine, H.ProtocolLine, H.BadVersionLine, H.ConnectionUpgradeLine, H.UpgradeWebsocketLine;
    var ls := BrowserLines(host, key);
    BrowserFields(host, key);
    ConnectionValue();
    WebsocketValue();
    H.LineTags(ls[0]);
    H.LineTags(ls[1]);
    H.LineTags(ls[2]);
    H.LineTags(ls[3]);
    H.LineTags(ls[4]);
    assert H.HostLine(ls[0]) && H.UpgradeWebsocketLine(ls[1]) && H.ConnectionUpgradeLine(ls[2]);
  }

  /** Every browser's request is accepted, with its key. */
  lemma BrowserRequestOpens(token: seq<byte>, host: seq<byte>, key: seq<byte>)
    requires H.Token(token) && Value(host) && Value(key)
    ensures var r := H.Request(token, BrowserLines(host, key)); H.ParseHandshake(r) == H.Opening(key, |r|)
  {
    hide H.Token, Value, BrowserLines, H.ParseHandshake, H.Request, H.AllPlain, H.ValuesFit, H.Acceptable;
    var ls := BrowserLines(host, key);
    LinesFit(host, key);
    LinesAccepted(host, key);
    H.OpeningIff(token, ls, []);
    assert H.Request(token, ls) + [] == H.Request(token, ls);
  }

  // ----- requests as text -----

  /** What a browser writes that asks for extensions, keeps the connection, and spells WebSocket with capitals. */
  function TextLines(host: seq<byte>, key: seq<byte>, extensions: seq<byte>): seq<seq<byte>> {
    [Ascii("Host: ") + host,
     Ascii("Upgrade: ") + Ascii("WebSocket"),
     Ascii("Connection: ") + Ascii("keep-alive, Upgrade"),
     Ascii("Sec-WebSocket-Key: ") + key,
     Ascii("Sec-WebSocket-Version: ") + Ascii("13"),
     Ascii("Sec-WebSocket-Extensions: ") + extensions]
  }

  const MIXED_WEBSOCKET: seq<byte> := [0x57, 0x65, 0x62, 0x53, 0x6F, 0x63, 0x6B, 0x65, 0x74] // "WebSocket"
  const KEEP_ALIVE: seq<byte> := // "keep-alive, "
    [0x6B, 0x65, 0x65, 0x70, 0x2D, 0x61, 0x6C, 0x69, 0x76, 0x65, 0x2C, 0x20]
  const EXTENSIONS: seq<byte> := // "Extensions: "
    [0x45, 0x78, 0x74, 0x65, 0x6E, 0x73, 0x69, 0x6F, 0x6E, 0x73, 0x3A, 0x20]

  lemma ValueTexts()
    ensures Ascii("WebSocket") == MIXED_WEBSOCKET && Ascii("keep-alive, Upgrade") == KEEP_ALIVE + CAPITAL_UPGRADE
  {
    hide Octet;
    Iso646();
  }

  lemma ExtensionsText()
    ensures Ascii("Sec-WebSocket-Extensions: ") == H.SEC + EXTENSIONS
  {
    hide Octet;
    Iso646();
  }

  lemma MixedIsWebsocket()
    ensures H.WEBSOCKET_VALUE <= Lower(MIXED_WEBSOCKET)
  {
    assert Lower(MIXED_WEBSOCKET) == H.WEBSOCKET_VALUE;
  }

  lemma KeepAliveContainsUpgrade()
    ensures H.Contains(Lower(KEEP_ALIVE + CAPITAL_UPGRADE), H.UPGRADE_VALUE)
  {
    hide IndexOf;
    var v := Lower(KEEP_ALIVE + CAPITAL_UPGRADE);
    assert Lower(CAPITAL_UPGRADE) == H.UPGRADE_VALUE;
    assert v[12..19] == Lower(CAPITAL_UPGRADE);
    assert MatchAt(v, 12, H.UPGRADE_VALUE);
  }

  /** A line that no field name starts. */
  lemma ExtensionsLine(v: seq<byte>)
    requires Value(v)
    ensures var l := H.SEC + EXTENSIONS + v; H.Plain(l) && !H.Stopper(l) && H.ValueFits(l) && H.TagOf(l) == H.NoField
  {
    var l := H.SEC + EXTENSIONS + v;
    ExtensionsOctets();
    forall f: H.Field
      ensures !(f.Name() <= l)
    {
      OtherName(f, l);
    }
  }

  lemma ExtensionsOctets()
    ensures H.LineOctets(H.SEC + EXTENSIONS)
  {
  }

  lemma OtherName(f: H.Field, l: seq<byte>)
    requires |l| > 14 && l[0] == 0x53 && l[14] == 0x45
    ensures !(f.Name() <= l)
  {
    match f
    case Host => assert f.Name()[0] == 0x48;
    case Origin => assert f.Name()[0] == 0x4F;
    case Protocol => assert f.Name()[14] == 0x50;
    case Key => assert f.Name()[14] == 0x4B;
    case Version => assert f.Name()[14] == 0x56;
    case Connection => assert f.Name()[0] == 0x43;
    case Upgrade => assert f.Name()[0] == 0x55;
  }

  /** The same lines by their fields. */
  function FieldLines(host: seq<byte>, key: seq<byte>, extensions: seq<byte>): seq<seq<byte>> {
    [Line(H.Field.Host, host), Line(H.Field.Upgrade, MIXED_WEBSOCKET),
     Line(H.Field.Connection, KEEP_ALIVE + CAPITAL_UPGRADE), Line(H.Field.Key, key),
     Line(H.Field.Version, H.VERSION_VALUE), H.SEC + EXTENSIONS + extensions]
  }

  lemma TextLinesAre(host: seq<byte>, key: seq<byte>, extensions: seq<byte>)
    ensures TextLines(host, key, extensions) == FieldLines(host, key, extensions)
  {
    hide Ascii, H.Field.Name;
    Texts.ShortNames();
    Texts.KeyName();
    Texts.VersionName();
    Texts.Values();
    ValueTexts();
    ExtensionsText();
  }

  lemma TextFields(host: seq<byte>, key: seq<byte>, extensions: seq<byte>)
    requires Value(host) && Value(key) && Value(extensions)
    ensures var ls := FieldLines(host, key, extensions);
      && (forall i | 0 <= i < 6 :: H.Plain(ls[i]) && !H.Stopper(ls[i]) && H.ValueFits(ls[i]))
      && H.TagOf(ls[0]) == H.Of(H.Field.Host)
      && H.TagOf(ls[1]) == H.Of(H.Field.Upgrade) && H.FullValue(ls[1], H.Field.Upgrade) == MIXED_WEBSOCKET
      && H.TagOf(ls[2]) == H.Of(H.Field.Connection)
      && H.FullValue(ls[2], H.Field.Connection) == KEEP_ALIVE + CAPITAL_UPGRADE
      && H.TagOf(ls[3]) == H.Of(H.Field.Key) && H.FullValue(ls[3], H.Field.Key) == key
      && H.TagOf(ls[4]) == H.Of(H.Field.Version) && H.FullValue(ls[4], H.Field.Version) == H.VERSION_VALUE
      && H.TagOf(ls[5]) == H.NoField
  {
    hide H.Stopper, H.Plain, H.ValueFits, H.TagOf, H.FullValue, Value, Line;
    FixedValues();
    FieldLine(H.Field.Host, host);
    FieldLine(H.Field.Upgrade, MIXED_WEBSOCKET);
    FieldLine(H.Field.Connection, KEEP_ALIVE + CAPITAL_UPGRADE);
    FieldLine(H.Field.Key, key);
    FieldLine(H.Field.Version, H.VERSION_VALUE);
    ExtensionsLine(extensions);
  }

  lemma FieldLinesFit(host: seq<byte>, key: seq<byte>, extensions: seq<byte>)
    requires Value(host) && Value(key) && Value(extensions)
    ensures var ls := FieldLines(host, key, extensions); H.AllPlain(ls) && H.Seen(ls) == ls && H.ValuesFit(ls)
  {
    hide H.Stopper, H.Plain, H.ValueFits, H.TagOf, H.FullValue, H.Seen;
    TextFields(host, key, extensions);
    H.SeenIsAll(FieldLines(host, key, extensions));
  }

  lemma FieldLinesAccepted(host: seq<byte>, key: seq<byte>, extensions: seq<byte>)
    requires Value(host) && Value(key) && Value(extensions)
    ensures var ls := FieldLines(host, key, extensions);
      H.Acceptable(ls) && H.LastKeyLine(ls, 3) && H.KeyLine(ls[3]) && H.FullValue(ls[3], H.Field.Key) == key
  {
    hide H.TagOf, H.FullValue, H.Contains, Lower, H.Stopper, H.Plain, H.ValueFits, Value, Line;
    hide H.HostLine, H.KeyLine, H.ProtocolLine, H.BadVersionLine, H.ConnectionUpgradeLine, H.UpgradeWebsocketLine;
    var ls := FieldLines(host, key, extensions);
    TextFields(host, key, extensions);
    KeepAliveContainsUpgrade();
    MixedIsWebsocket();
    H.LineTags(ls[0]);
    H.LineTags(ls[1]);
    H.LineTags(ls[2]);
    H.LineTags(ls[3]);
    H.LineTags(ls[4]);
    H.LineTags(ls[5]);
    assert H.HostLine(ls[0]) && H.UpgradeWebsocketLine(ls[1]) && H.ConnectionUpgradeLine(ls[2]);
  }

  /** A request as text: the request line, the header lines, and the blank line. */
  function TextRequest(token: seq<byte>, lines: seq<seq<byte>>): seq<byte> {
    Ascii("GET ") + token + Ascii(" HTTP/1.1") + Ascii("\r\n") + H.Body(lines)
  }

  lemma TextRequestIs(token: seq<byte>, lines: seq<seq<byte>>)
    ensures TextRequest(token, lines) == H.Request(token, lines)
  {
    hide Ascii, H.Body;
    Texts.RequestTexts();
    Texts.LineEnds();
  }

  /** Such a request is accepted with its key, whatever the resource, the host and the extensions. */
  lemma TextRequestOpens(token: seq<byte>, host: seq<byte>, key: seq<byte>, extensions: seq<byte>)
    requires H.Token(token) && Value(host) && Value(key) && Value(extensions)
    ensures var r := TextRequest(token, TextLines(host, key, extensions));
      H.ParseHandshake(r) == H.Opening(key, |r|)
  {
    hide H.Token, Value, TextLines, FieldLines, TextRequest, H.ParseHandshake, H.Request;
    hide H.AllPlain, H.ValuesFit, H.Acceptable;
    var ls := TextLines(host, key, extensions);
    TextLinesAre(host, key, extensions);
    FieldLinesFit(host, key, extensions);
    FieldLinesAccepted(host, key, extensions);
    TextRequestIs(token, ls);
    H.OpeningIff(token, ls, []);
    assert H.Request(token, ls) + [] == H.Request(token, ls);
  }

  /** Any request with a subprotocol line is refused. */
  lemma ProtocolIsRefused(token: seq<byte>, lines: seq<seq<byte>>, i: nat, protocol: seq<byte>)
    requires H.Token(token) && H.AllPlain(lines) && H.ValuesFit(H.Seen(lines)) && i < |H.Seen(lines)|
    requires H.Seen(lines)[i] == Ascii("Sec-WebSocket-Protocol: ") + protocol
    ensures H.ParseHandshake(TextRequest(token, lines)) == H.Error
  {
    hide H.Token, H.ParseHandshake, H.Request, H.AllPlain, H.ValuesFit, H.Seen, TextRequest, Ascii, H.Field.Name;
    Texts.ProtocolName();
    var l := H.Seen(lines)[i];
    assert H.ProtocolLine(l);
    TextRequestIs(token, lines);
    H.OpeningIff(token, lines, []);
    assert H.Request(token, lines) + [] == H.Request(token, lines);
  }

  // ----- refused requests -----

  /** A bad request, cut anyhow, is answered once and the connection given up. */
  lemma {:induction false} RefusedOnce(c: Conn, ios: seq<Io>, token: seq<byte>, lines: seq<seq<byte>>, after: seq<byte>)
    requires H.Token(token) && H.AllPlain(lines) && H.ValuesFit(H.Seen(lines)) && !H.Acceptable(H.Seen(lines))
    requires var r := H.Request(token, lines);
      !c.handshaked && |c.buf| < |r| <= BUF_LEN && WholeRun(c, ios) && c.buf + AllOctets(ios) <= r + after
    requires AllFriendly(ios)
    ensures var complete := |c.buf + AllOctets(ios)| >= |H.Request(token, lines)|;
      && Replies(c, ios) == (if complete then BAD_REQUEST else [])
      && Run(c, ios).messages == [] && (complete <==> Run(c, ios).code == HANDSHAKE_FAILED)
    decreases |ios|
  {
    hide H.Token, H.AllPlain, H.ValuesFit, H.Acceptable, H.Seen, H.Request, H.ParseHandshake, Frames.HeaderWhole;
    hide ReceiveFrame, A.Response;
    var r := H.Request(token, lines);
    if ios != [] {
      var octets, later := ReadOctets(ios[0].read), AllOctets(ios[1..]);
      var b := c.buf + octets;
      assert c.buf + AllOctets(ios) == b + later;
      PrefixOfPrefix(b, later, r + after);
      BadPrefix(token, lines, after, b);
      var o := Streams.Receive(c, ios[0]);
      if o.code >= 0 {
        assert ios[0].read.WantRead? ==> b == c.buf;
        RefusedOnce(o.conn, ios[1..], token, lines, after);
      }
    }
  }

  lemma BadPrefix(token: seq<byte>, lines: seq<seq<byte>>, after: seq<byte>, b: seq<byte>)
    requires H.Token(token) && H.AllPlain(lines) && H.ValuesFit(H.Seen(lines)) && !H.Acceptable(H.Seen(lines))
    requires b <= H.Request(token, lines) + after
    ensures H.ParseHandshake(b) == if |b| < |H.Request(token, lines)| then H.Incomplete else H.Error
  {
    hide H.Token, H.AllPlain, H.ValuesFit, H.Acceptable, H.Seen, H.Request, H.ParseHandshake;
    var r := H.Request(token, lines);
    if |b| < |r| {
      H.PrintedPrefixIncomplete(token, lines, |b|);
      assert b == r[..|b|];
    } else {
      H.OpeningIff(token, lines, b[|r|..]);
      assert b[..|r|] == r && r + b[|r|..] == b;
    }
  }

  /** A connection that has sent 8192 octets without a blank line is answered and given up in the same way. */
  lemma FullBufferIsRefused(c: Conn, octets: seq<byte>)
    requires !c.handshaked && |c.buf + octets| == 8192 && H.ParseHandshake(c.buf + octets) == H.Incomplete
    ensures var io := Io(Data(octets), true);
      Reply(c, io) == BAD_REQUEST && Streams.Receive(c, io).code == HANDSHAKE_FAILED
  {
    hide H.ParseHandshake;
  }

  lemma {:induction false} NoMoreReplies(c: Conn, ios: seq<Io>)
    requires c.handshaked
    ensures Replies(c, ios) == []
    decreases |ios|
  {
    hide TakeFrame;
    if ios != [] {
      var o := Streams.Receive(c, ios[0]);
      StaysOpen(c, ios[0]);
      NoReply(c, ios[0]);
      NoMoreReplies(o.conn, ios[1..]);
    }
  }

  lemma StaysOpen(c: Conn, io: Io)
    requires c.handshaked
    ensures Streams.Receive(c, io).conn.handshaked
  {
  }

  /** The answer is written once, by the call that opens the connection, and nothing else. */
  lemma {:induction false} RepliesOnce(c: Conn, ios: seq<Io>, r: seq<byte>, frames: seq<byte>)
    requires !c.handshaked && GoodRequest(r) && |c.buf| < |r| && WholeRun(c, ios)
    requires c.buf + AllOctets(ios) <= r + frames
    ensures Replies(c, ios) == if Run(c, ios).conn.handshaked then A.Response(H.ParseHandshake(r).key) else []
    ensures Run(c, ios).conn.handshaked ==> |c.buf + AllOctets(ios)| >= |r|
    ensures AllFriendly(ios) && |c.buf + AllOctets(ios)| >= |r| ==> Run(c, ios).conn.handshaked
    decreases |ios|
  {
    hide H.ParseHandshake, A.Response, Frames.HeaderWhole, ReceiveFrame;
    if ios != [] {
      var octets, later := ReadOctets(ios[0].read), AllOctets(ios[1..]);
      var b := c.buf + octets;
      assert c.buf + AllOctets(ios) == b + later;
      PrefixOfPrefix(b, later, r + frames);
      RequestPrefix(r, frames, b);
      var o := Streams.Receive(c, ios[0]);
      if o.code >= 0 {
        if o.conn.handshaked {
          NoMoreReplies(o.conn, ios[1..]);
          StayOpen(o.conn, ios[1..]);
        } else {
          assert ios[0].read.WantRead? ==> b == c.buf;
          RepliesOnce(o.conn, ios[1..], r, frames);
        }
      }
    }
  }

  lemma {:induction false} StayOpen(c: Conn, ios: seq<Io>)
    requires c.handshaked
    ensures Run(c, ios).conn.handshaked
    decreases |ios|
  {
    hide Streams.Receive;
    if ios != [] {
      StaysOpen(c, ios[0]);
      StayOpen(Streams.Receive(c, ios[0]).conn, ios[1..]);
    }
  }

  /**
   The connection of a browser, from its request on, cut anyhow under the header hypothesis, whatever the
   peer, the socket and the writes do: the server writes exactly the response for the browser's own key
   when it opens the connection, and nothing before; it hands on the payloads that have arrived, in order,
   none missing after a drain; and without failures of the environment the complete request opens the
   connection and no call fails.
   */
  lemma BrowserConnection(token: seq<byte>, host: seq<byte>, key: seq<byte>, items: seq<TextItem>, ios: seq<Io>)
    requires H.Token(token) && Value(host) && Value(key) && |key| <= 219 && AllShort(items)
    requires var r := H.Request(token, BrowserLines(host, key));
      |r| <= BUF_LEN && AllOctets(ios) <= r + TextStream(items)
    requires WholeRun(FRESH, ios)
    ensures var r, n := H.Request(token, BrowserLines(host, key)), |AllOctets(ios)|;
      var run, arrived := Run(FRESH, ios), Arrived(r, items, n);
      && Replies(FRESH, ios) == (if run.conn.handshaked then A.Response(key) else [])
      && (run.conn.handshaked ==> n >= |r|)
      && run.messages <= arrived <= Payloads(items)
      && (ios != [] && run.code in {READ_SUCCEED, WAITING_FOR_MORE_DATA} ==> run.messages == arrived)
      && (AllFriendly(ios) ==> run.code >= 0 && (run.conn.handshaked <==> n >= |r|))
  {
    hide H.Token, BrowserLines, H.ParseHandshake, H.Request, AllShort, AllOctets, TextStream, WholeRun, AllFriendly;
    hide Replies, Run, Arrived, Payloads, A.Response;
    var r := H.Request(token, BrowserLines(host, key));
    BrowserRequestOpens(token, host, key);
    RequestIsNotEmpty(r);
    assert FRESH.buf + AllOctets(ios) == AllOctets(ios);
    RepliesOnce(FRESH, ios, r, TextStream(items));
    TextConnection(r, items, ios);
  }

  lemma RequestIsNotEmpty(r: seq<byte>)
    requires H.ParseHandshake(r).Opening?
    ensures |r| > 0
  {
    hide H.ParseHandshake;
    H.OpeningLength(r);
  }
}
