/** `Client` (log-server/client.cpp): the reassembly buffer, the handshake state and the send buffer. */
module Clients {
  import opened Bytes
  import opened Options
  import opened Frames
  import opened Streams
  import R = Rfc6455
  import H = Handshake
  import A = Accept

  const SEND_BUF_LEN := 16000

  /** The refusal code of `Send`. */
  const MESSAGE_TOO_LONG := -10

  /** The answer to a bad request. */
  const BAD_REQUEST: seq<byte> :=
    Ascii("HTTP/1.1 400 Bad Request\r\n") + H.Field.Version.Name() + H.VERSION_VALUE + Ascii("\r\n\r\n")

  /** What is written when the buffer of a connection that waits for its request has become `b`. */
  function ReplyTo(b: seq<byte>, sendOk: bool): seq<byte> {
    if !sendOk then []
    else
      match H.ParseHandshake(b)
      case Opening(key, _) => A.Response(key)
      case Error => BAD_REQUEST
      case Incomplete => if |b| >= BUF_LEN then BAD_REQUEST else []
      case Aborted => []
  }

  /** What a `Receive` call writes. */
  function Reply(c: Conn, io: Io): seq<byte> {
    if !c.handshaked && io.read.Data? then ReplyTo(c.buf + io.read.octets, io.sendOk) else []
  }

  lemma NoReply(c: Conn, io: Io)
    ensures c.handshaked || !io.read.Data? ==> Reply(c, io) == []
  {
  }

  /** What the calls of a run write. */
  function Replies(c: Conn, ios: seq<Io>): seq<byte>
    decreases |ios|
  {
    if ios == [] then []
    else
      var o := Streams.Receive(c, ios[0]);
      Reply(c, ios[0]) + if o.code < 0 then [] else Replies(o.conn, ios[1..])
  }

  /** One more call after a run. */
  lemma {:induction false} RepliesSnoc(c: Conn, ios: seq<Io>, io: Io)
    requires Run(c, ios).code >= 0
    ensures Replies(c, ios + [io]) == Replies(c, ios) + Reply(Run(c, ios).conn, io)
    decreases |ios|
  {
    hide Streams.Receive, Reply;
    if ios == [] {
      assert [] + [io] == [io];
    } else {
      var o, rest := Streams.Receive(c, ios[0]), ios[1..];
      assert (ios + [io])[1..] == rest + [io];
      assert |ios| == 1 ==> rest == [];
      RepliesSnoc(o.conn, rest, io);
    }
  }

  lemma HandshakeCodes(c: Conn, io: Io)
    ensures var o := ReceiveHandshake(c, io);
      o.message == None && o.code in {HANDSHAKE_FAILED, HANDSHAKE_SUCCEED, WAITING_FOR_MORE_DATA}
  {
    hide H.ParseHandshake;
  }

  lemma SameRequest(c: Conn, octets: seq<byte>, sendOk: bool)
    ensures ReceiveHandshake(c, Io(Data(octets), sendOk))
         == ReceiveHandshake(Conn([], false), Io(Data(c.buf + octets), sendOk))
  {
    hide H.ParseHandshake;
    assert [] + (c.buf + octets) == c.buf + octets;
  }

  /** The longest message that `Send` accepts. */
  const MESSAGE_MAX := 15996

  /** The messages of successive `Send` calls that get through: not too long, and the write succeeds. */
  function Accepted(messages: seq<seq<byte>>, sendOks: seq<bool>): seq<seq<byte>>
    requires |messages| == |sendOks|
    decreases |messages|
  {
    if messages == [] then []
    else
      var last := |messages| - 1;
      Accepted(messages[..last], sendOks[..last])
        + if |messages[last]| <= MESSAGE_MAX && sendOks[last] then [messages[last]] else []
  }

  lemma AcceptedSnoc(messages: seq<seq<byte>>, sendOks: seq<bool>, n: nat)
    requires n < |messages| == |sendOks|
    ensures Accepted(messages[..n + 1], sendOks[..n + 1])
         == Accepted(messages[..n], sendOks[..n])
          + if |messages[n]| <= MESSAGE_MAX && sendOks[n] then [messages[n]] else []
  {
    assert messages[..n + 1][..n] == messages[..n] && sendOks[..n + 1][..n] == sendOks[..n];
  }

  lemma {:induction false} AcceptedAreShort(messages: seq<seq<byte>>, sendOks: seq<bool>)
    requires |messages| == |sendOks|
    ensures forall m | m in Accepted(messages, sendOks) :: m in messages && |m| <= MESSAGE_MAX
    decreases |messages|
  {
    if messages != [] {
      var last := |messages| - 1;
      AcceptedAreShort(messages[..last], sendOks[..last]);
      assert messages == messages[..last] + [messages[last]];
    }
  }

  /** Messages as the text frames of a stream. */
  function Texts(messages: seq<seq<byte>>): (list: seq<(R.Opcode, seq<byte>)>)
    ensures |list| == |messages|
  {
    seq(|messages|, i requires 0 <= i < |messages| => (R.Text, messages[i]))
  }

  lemma TextsSnoc(messages: seq<seq<byte>>, m: seq<byte>)
    ensures Texts(messages + [m]) == Texts(messages) + [(R.Text, m)]
    ensures R.ServerStream(Texts(messages + [m])) == R.ServerStream(Texts(messages)) + R.ServerFrame(R.Text, m)
  {
    hide R.ServerStream, R.ServerFrame;
    R.ServerStreamSnoc(Texts(messages), R.Text, m);
    assert Texts(messages + [m]) == Texts(messages) + [(R.Text, m)];
  }

  /** A client that reads the frames of accepted messages gets exactly those messages. */
  lemma AcceptedDecode(messages: seq<seq<byte>>, sendOks: seq<bool>)
    requires |messages| == |sendOks|
    ensures var texts := Texts(Accepted(messages, sendOks));
      R.DecodeServer(R.ServerStream(texts)) == R.Messages(texts)
  {
    hide R.DecodeServer, R.ServerStream, Accepted;
    var accepted := Accepted(messages, sendOks);
    AcceptedAreShort(messages, sendOks);
    forall i | 0 <= i < |Texts(accepted)|
      ensures |Texts(accepted)[i].1| < 0x8000_0000_0000_0000
    {
      assert accepted[i] in accepted;
    }
    R.DecodeServerStream(Texts(accepted));
  }

  lemma NothingAccepted()
    ensures Accepted([], []) == [] && R.ServerStream(Texts([])) == []
  {
  }

  /** Whether a call runs the frame parser, and on what. */
  predicate Parses(c: Conn, r: Read) {
    c.handshaked && (r.Data? || (r.WantRead? && c.buf != []))
  }

  /** The call gets to `assert(frame_size <= frame_buf_pos)`, and it fails: the process ends. */
  predicate SizeAssertFails(c: Conn, r: Read, room: nat) {
    Parses(c, r)
    && var b := c.buf + ReadOctets(r);
      var p := ParseHeader(b);
      p.frameType == TextFrame && p.dataLength < room && p.frameLength > |b|
  }

  /** With short frames, exactly two to five octets of a good text header end the process. */
  lemma SizeAssertFailsIff(c: Conn, r: Read)
    requires Fits(c, r) && |c.buf| <= BUF_LEN && ShortForm(c.buf + ReadOctets(r))
    ensures var b := c.buf + ReadOctets(r);
      SizeAssertFails(c, r, MESSAGE_BUF_LEN)
      <==> Parses(c, r) && 2 <= |b| < 6 && GoodHeader(b) && R.OpcodeOf(b[0] & 0x0F) == R.Found(R.Text)
  {
    hide ParseHeader, ShortForm, R.GoodFirstOctet, R.MaskBitSet, R.OpcodeOf;
    var b := c.buf + ReadOctets(r);
    if GoodHeader(b) {
      ShortGood(b);
      ShortAnswer(b);
      if ParseHeader(b).frameType == TextFrame {
        FrameArrivedIff(b);
      } else if |b| < 6 {
        ShortHeaderCauses(b);
      }
    } else if ParseHeader(b).frameType == TextFrame {
      FrameArrivedIff(b);
    }
  }

  lemma ShortGood(b: seq<byte>)
    requires ShortForm(b) && GoodHeader(b)
    ensures R.Len7Of(b[1]) <= 125
  {
  }

  class Client {
    const frameBuf: array<byte>
    const sendBuf: array<byte>
    var frameBufPos: nat
    var handshaked: bool
    /** Every octet that a successful `SSL_write` has taken. */
    ghost var wire: seq<byte>

    ghost predicate Valid()
      reads this
    {
      && frameBuf.Length == BUF_LEN + 1 && sendBuf.Length == SEND_BUF_LEN + 1 && frameBuf != sendBuf
      && frameBufPos <= BUF_LEN
    }

    /** What `Streams` says the state is. */
    ghost function View(): Conn
      requires Valid()
      reads this, frameBuf
    {
      Conn(frameBuf[..frameBufPos], handshaked)
    }

    constructor ()
      ensures Valid() && View() == FRESH && wire == []
      ensures fresh(frameBuf) && fresh(sendBuf)
    {
      frameBuf := new byte[BUF_LEN + 1](_ => 0);
      sendBuf := new byte[SEND_BUF_LEN + 1](_ => 0);
      frameBufPos := 0;
      handshaked := false;
      wire := [];
    }

    /** `SendFrame`: the environment decides whether the write succeeds. */
    method SendFrame(size: nat, sendOk: bool) returns (code: int)
      requires Valid() && size <= sendBuf.Length
      modifies this`wire
      ensures code == if sendOk then 0 else -1
      ensures wire == if sendOk then old(wire) + sendBuf[..size] else old(wire)
    {
      if sendOk {
        wire := wire + sendBuf[..size];
        return 0;
      }
      return -1;
    }

    /** Appends what `SSL_read` has put behind `frame_buf_pos`. */
    method Append(octets: seq<byte>)
      requires Valid() && |octets| <= BUF_LEN - frameBufPos
      modifies this`frameBufPos, frameBuf
      ensures Valid()
      ensures View() == Conn(old(View()).buf + octets, handshaked)
    {
      forall i | 0 <= i < |octets| { frameBuf[frameBufPos + i] := octets[i]; }
      assert frameBuf[..frameBufPos] == old(frameBuf[..frameBufPos]);
      assert frameBuf[frameBufPos..frameBufPos + |octets|] == octets;
      frameBufPos := frameBufPos + |octets|;
    }

    /** Drops the first `size` octets: what is behind them moves to the front. */
    method Shift(size: nat)
      requires Valid() && size <= frameBufPos
      modifies this`frameBufPos, frameBuf
      ensures Valid()
      ensures View() == Conn(old(View()).buf[size..], handshaked)
    {
      frameBufPos := frameBufPos - size;
      forall i | 0 <= i < frameBufPos { frameBuf[i] := frameBuf[size + i]; }
      assert frameBuf[..frameBufPos] == old(frameBuf[..frameBufPos])[size..];
    }

    /**
     `Receive`: one read, and at most one message. Under the hypotheses on the octets it does what the
     standard says (`Streams.ReceiveInto`); after a call that fails the connection is given up, and its
     buffer is then not described.
     */
    method Receive(io: Io, room: nat) returns (code: int, message: Option<seq<byte>>)
      requires Valid() && Settled(View()) && Fits(View(), io.read) && Tame(View(), io.read)
      modifies this, frameBuf, sendBuf
      ensures Valid()
      ensures var o := ReceiveInto(old(View()), io, room);
        && code == o.code && message == o.message
        && (code >= 0 ==> View() == o.conn)
      ensures wire == old(wire) + Reply(old(View()), io)
    {
      hide ReceiveHandshake, TakeFrame, ShortForm, HeaderWhole, GoodHeader, Reply;
      NoReply(View(), io);
      HandshakeCodes(View(), io);
      if !handshaked {
        var ret := Handshake(io);
        if ret < 0 {
          return HANDSHAKE_FAILED, None;
        }
        return if handshaked then HANDSHAKE_SUCCEED else WAITING_FOR_MORE_DATA, None;
      }
      match io.read {
        case Closed => return CLIENT_DISCONNECTED, None;
        case ReadError => return NETWORK_ERROR, None;
        case WantRead =>
          if frameBufPos == 0 {
            return WAITING_FOR_MORE_DATA, None;
          }
          assert View().buf + [] == View().buf;
        case Data(octets) =>
          Append(octets);
      }
      code, message := ReceiveFront(room);
    }

    /**
     `Handshake`: the answer 101 with the accept value for an acceptable request, 400 for a bad one or one
     that does not fit the buffer.
     */
    method Handshake(io: Io) returns (code: int)
      requires Valid() && !handshaked && Settled(View()) && Fits(View(), io.read) && Tame(View(), io.read)
      modifies this, frameBuf, sendBuf
      ensures Valid()
      ensures var o := ReceiveHandshake(old(View()), io);
        && (code < 0 <==> o.code < 0)
        && (code >= 0 ==> View() == o.conn)
        && (code >= 0 ==> o.code == if handshaked then HANDSHAKE_SUCCEED else WAITING_FOR_MORE_DATA)
      ensures wire == old(wire) + Reply(old(View()), io)
    {
      hide A.Response, H.ParseHandshake;
      match io.read
      case WantRead => return WAITING_FOR_MORE_DATA;
      case Closed => return CLIENT_DISCONNECTED;
      case ReadError => return NETWORK_ERROR;
      case Data(octets) =>
        SameRequest(View(), octets, io.sendOk);
        Append(octets);
        code := AnswerRequest(io.sendOk);
    }

    /** The part of `Handshake` that looks at the buffer, after a read that gave data. */
    method AnswerRequest(sendOk: bool) returns (code: int)
      requires Valid() && !handshaked
      requires var a := H.ParseHandshake(View().buf); a != H.Aborted && (a.Opening? ==> 1 <= |a.key| <= 219)
      modifies this, frameBuf, sendBuf
      ensures Valid()
      ensures var o := ReceiveHandshake(Conn([], false), Io(Data(old(View()).buf), sendOk));
        && (code < 0 <==> o.code < 0)
        && (code >= 0 ==> View() == o.conn)
        && (code >= 0 ==> o.code == if handshaked then HANDSHAKE_SUCCEED else WAITING_FOR_MORE_DATA)
      ensures wire == old(wire) + ReplyTo(old(View()).buf, sendOk)
    {
      hide A.Response, H.ParseHandshake;
      ghost var b := View().buf;
      assert [] + b == b;
      frameBuf[frameBufPos] := 0;
      assert View().buf == b;
      var a := H.WsParseHandshake(frameBuf, frameBufPos);
      if a.Error? || (a.Incomplete? && frameBufPos >= BUF_LEN) {
        PutAt(sendBuf, 0, BAD_REQUEST);
        assert sendBuf[0..|BAD_REQUEST|] == sendBuf[..|BAD_REQUEST|];
        var _ := SendFrame(|BAD_REQUEST|, sendOk);
        return INVALID_FRAME;
      }
      if a.Incomplete? {
        return WAITING_FOR_MORE_DATA;
      }
      H.OpeningLength(b);
      var sendSize := A.GetHandshakeAnswer(a.key, sendBuf);
      Shift(a.frameLength);
      var sent := SendFrame(sendSize, sendOk);
      if sent == -1 {
        return NETWORK_ERROR;
      }
      handshaked := true;
      return if frameBufPos == 0 then READ_SUCCEED else READ_SUCCEED_DATA_AVAILABLE;
    }

    /** The part of `Receive` that looks at the buffer, after the read. */
    method ReceiveFront(room: nat) returns (code: int, message: Option<seq<byte>>)
      requires Valid() && handshaked && 0 < frameBufPos
      requires var b := View().buf; ShortForm(b) && (HeaderWhole(b) || !GoodHeader(b))
      modifies this`frameBufPos, frameBuf
      ensures Valid()
      ensures var o := TakeFrame(old(View()).buf, room);
        && code == o.code && message == o.message
        && (code >= 0 ==> View() == o.conn)
    {
      hide ParseHeader, Unmasked, R.ClientFront, R.Mask, ShortForm, HeaderWhole, GoodHeader;
      ghost var b := View().buf;
      ParserAgreesIff(b);
      ShortFrameSize(b);
      ghost var raw, n := frameBuf[..], frameBufPos;
      assert raw[..n] == b;
      var p := ParseInputFrame(frameBuf, frameBufPos);
      if R.ClientFront(b).Frame? {
        UnmaskedParts(raw, n, p);
      } else {
        NothingUnmasked(raw, p);
      }
      assert frameBuf[..n] == frameBuf[..][..n];
      if (p.frameType == IncompleteFrame && frameBufPos >= BUF_LEN) || p.frameType == ErrorFrame {
        return INVALID_FRAME, None;
      }
      if p.frameType == IncompleteFrame {
        return WAITING_FOR_MORE_DATA, None;
      }
      if p.frameType == TextFrame {
        if p.dataLength >= room {
          Shift(p.frameLength);
          return BUFFER_TOO_SMALL, None;
        }
        message := Some(frameBuf[p.dataAt..p.dataAt + p.dataLength]);
        assert message == Some(R.ClientFront(b).payload);
        Shift(p.frameLength);
        return if frameBufPos == 0 then READ_SUCCEED else READ_SUCCEED_DATA_AVAILABLE, message;
      }
      if p.frameType == ClosingFrame {
        return CLIENT_DISCONNECTED, None;
      }
      return INVALID_FRAME, None;
    }

    /** One turn of the inner loop of `ListenMessages`. */
    method Turn(io: Io, ghost ios: seq<Io>) returns (code: int, message: Option<seq<byte>>)
      requires Valid() && Settled(View()) && GoodRun(View(), ios) && ios != [] && ios[0] == io
      modifies this, frameBuf, sendBuf
      ensures Valid()
      ensures var o := Streams.Receive(old(View()), io);
        code == o.code && message == o.message && (code >= 0 ==> View() == o.conn)
      ensures wire == old(wire) + Reply(old(View()), io)
      ensures code >= 0 ==> Settled(View()) && GoodRun(View(), ios[1..])
      ensures Repeats(code) ==> |View().buf| + |AllOctets(ios[1..])| + 4 <= |old(View()).buf| + |AllOctets(ios)|
      ensures code >= 0 && !Repeats(code) ==> Remaining(View(), []) == Decoding([], Open)
    {
      hide ReceiveInto, Streams.Receive, Settled, Tame, Fits, GoodRun, Remaining, AllOctets, Reply;
      CallFacts(View(), ios);
      code, message := Receive(io, MESSAGE_BUF_LEN);
    }

    /**
     The inner loop of `ListenMessages` for one client: calls until one does not ask to be repeated. The
     loop ends before the environment's answers do, as a call that asks to be repeated has used up at
     least four octets. At a non-negative end no complete frame is left behind.
     */
    method Drain(ios: seq<Io>) returns (messages: seq<seq<byte>>, code: int, used: nat)
      requires Valid() && Settled(View()) && GoodRun(View(), ios)
      requires |ios| > (|View().buf| + |AllOctets(ios)|) / 4
      modifies this, frameBuf, sendBuf
      ensures Valid() && 1 <= used <= |ios|
      ensures code !in {READ_SUCCEED_DATA_AVAILABLE, HANDSHAKE_SUCCEED}
      ensures var r := Run(old(View()), ios[..used]);
        messages == r.messages && code == r.code && (code >= 0 ==> View() == r.conn)
      ensures wire == old(wire) + Replies(old(View()), ios[..used])
      ensures code >= 0 ==> Settled(View()) && Remaining(View(), []) == Decoding([], Open)
    {
      hide Streams.Receive, Settled, GoodRun, Remaining, Run, AllOctets, Reply, Replies;
      ghost var c0, total := View(), |View().buf| + |AllOctets(ios)|;
      messages, code, used := [], READ_SUCCEED_DATA_AVAILABLE, 0;
      RunNothing(c0);
      assert ios[..0] == [] && ios[0..] == ios;
      while code == READ_SUCCEED_DATA_AVAILABLE || code == HANDSHAKE_SUCCEED
        invariant Valid() && used <= |ios|
        invariant used == 0 ==> code == READ_SUCCEED_DATA_AVAILABLE
        invariant var r := Run(c0, ios[..used]);
          && messages == r.messages && (used > 0 ==> code == r.code)
          && (code >= 0 ==> r.code >= 0 && View() == r.conn)
        invariant wire == old(wire) + Replies(c0, ios[..used])
        invariant code >= 0 ==> Settled(View()) && GoodRun(View(), ios[used..])
        invariant Repeats(code) ==> |View().buf| + |AllOctets(ios[used..])| + 4 * used <= total
        invariant code >= 0 && !Repeats(code) ==> Remaining(View(), []) == Decoding([], Open)
        decreases |ios| - used
      {
        OneMore(c0, ios, used);
        var message;
        code, message := Turn(ios[used], ios[used..]);
        if message.Some? {
          messages := messages + [message.value]; // OnMessage
        }
        used := used + 1;
      }
    }

    /** `Send`: one text frame, or a refusal for exactly the messages that do not fit the send buffer. */
    method Send(message: seq<byte>, sendOk: bool) returns (code: int)
      requires Valid() && |message| < 0x8000_0000
      modifies this`wire, sendBuf
      ensures Valid()
      ensures code == MESSAGE_TOO_LONG <==> |message| > MESSAGE_MAX
      ensures code != MESSAGE_TOO_LONG ==> code == if sendOk then 0 else -1
      ensures wire == if code == 0 then old(wire) + R.ServerFrame(R.Text, message) else old(wire)
    {
      hide R.ServerFrame;
      MadeSize(R.Text, |message|);
      var frameLen := MakeFrame(message, sendBuf, SEND_BUF_LEN, R.Text);
      if frameLen < 0 {
        return MESSAGE_TOO_LONG;
      }
      MadeFrameIsServerFrame(R.Text, message);
      code := SendFrame(frameLen, sendOk);
    }

    /**
     Successive `Send` calls, each with its own outcome of the write. What they add to the wire, read by a
     client that insists on minimal length forms, is exactly the messages that got through: on a connection
     just opened, that is everything after the response.
     */
    method SendAll(messages: seq<seq<byte>>, sendOks: seq<bool>)
      requires Valid() && |messages| == |sendOks| && forall m | m in messages :: |m| < 0x8000_0000
      modifies this`wire, sendBuf
      ensures Valid()
      ensures old(wire) <= wire
      ensures R.DecodeServer(wire[|old(wire)|..]) == R.Messages(Texts(Accepted(messages, sendOks)))
      ensures wire == old(wire) + R.ServerStream(Texts(Accepted(messages, sendOks)))
    {
      hide R.ServerFrame, R.ServerStream, R.DecodeServer, Accepted, Texts;
      ghost var before := wire;
      var n := 0;
      NothingAccepted();
      while n < |messages|
        invariant 0 <= n <= |messages| && Valid()
        invariant wire == before + R.ServerStream(Texts(Accepted(messages[..n], sendOks[..n])))
      {
        AcceptedSnoc(messages, sendOks, n);
        ghost var accepted := Accepted(messages[..n], sendOks[..n]);
        TextsSnoc(accepted, messages[n]);
        assert accepted + [] == accepted;
        assert messages[n] in messages;
        var code := Send(messages[n], sendOks[n]);
        assert code == 0 <==> |messages[n]| <= MESSAGE_MAX && sendOks[n];
        n := n + 1;
      }
      assert messages[..n] == messages && sendOks[..n] == sendOks;
      AcceptedDecode(messages, sendOks);
    }

    /** `Disconnect`: an empty closing frame; closing the socket is not modelled. */
    method Disconnect(sendOk: bool)
      requires Valid()
      modifies this`wire, sendBuf
      ensures Valid()
      ensures wire == if sendOk then old(wire) + R.ServerFrame(R.Close, []) else old(wire)
    {
      hide R.ServerFrame;
      MadeSize(R.Close, 0);
      var frameSize := MakeFrame([], sendBuf, SEND_BUF_LEN, R.Close);
      MadeFrameIsServerFrame(R.Close, []);
      if frameSize > 0 {
        var _ := SendFrame(frameSize, sendOk);
      }
    }
  }

  /** The codes that make `ListenMessages` call again. */
  predicate Repeats(code: int) {
    code == READ_SUCCEED_DATA_AVAILABLE || code == HANDSHAKE_SUCCEED
  }

  /** What one more call makes of a run. */
  lemma OneMore(c: Conn, ios: seq<Io>, used: nat)
    requires used < |ios| && Run(c, ios[..used]).code >= 0
    ensures var r, io := Run(c, ios[..used]), ios[used];
      var o := Streams.Receive(r.conn, io);
      && Run(c, ios[..used + 1])
         == Result(o.conn, if o.message.Some? then r.messages + [o.message.value] else r.messages, o.code)
      && Replies(c, ios[..used + 1]) == Replies(c, ios[..used]) + Reply(r.conn, io)
    ensures ios[used..] != [] && ios[used..][0] == ios[used] && ios[used..][1..] == ios[used + 1..]
  {
    hide Streams.Receive, Run, Reply, Replies;
    var r := Run(c, ios[..used]);
    assert ios[..used + 1] == ios[..used] + [ios[used]];
    RunSnoc(c, ios[..used], ios[used]);
    RepliesSnoc(c, ios[..used], ios[used]);
    assert r.messages + [] == r.messages;
  }

  lemma RunNothing(c: Conn)
    ensures Run(c, []) == Result(c, [], WAITING_FOR_MORE_DATA) && Replies(c, []) == []
  {
  }

  /** What one turn of the drain loop needs to know about the next call. */
  lemma CallFacts(c: Conn, ios: seq<Io>)
    requires Settled(c) && GoodRun(c, ios) && ios != []
    ensures Fits(c, ios[0].read) && Tame(c, ios[0].read)
    ensures ReceiveInto(c, ios[0], MESSAGE_BUF_LEN) == Streams.Receive(c, ios[0])
    ensures var o := Streams.Receive(c, ios[0]);
      && (o.code >= 0 ==> Settled(o.conn) && GoodRun(o.conn, ios[1..]))
      && (o.code in {READ_SUCCEED_DATA_AVAILABLE, HANDSHAKE_SUCCEED} ==>
        |o.conn.buf| + |AllOctets(ios[1..])| + 4 <= |c.buf| + |AllOctets(ios)|)
      && (o.code >= 0 && o.code !in {READ_SUCCEED_DATA_AVAILABLE, HANDSHAKE_SUCCEED} ==>
        Remaining(o.conn, []) == Decoding([], Open))
  {
    hide ReceiveInto, Tame, Fits, Friendly, Settled, Remaining;
    var o := Streams.Receive(c, ios[0]);
    ReceiveRefines(c, ios[0], []);
    ReceiveCodes(c, ios[0]);
    if o.code in {READ_SUCCEED_DATA_AVAILABLE, HANDSHAKE_SUCCEED} {
      RepeatUsesOctets(c, ios[0]);
    } else if o.code >= 0 {
      NothingLeft(c, ios[0]);
    }
  }

  lemma ReceiveCodes(c: Conn, io: Io)
    ensures Streams.Receive(c, io).code <= HANDSHAKE_SUCCEED
  {
    hide R.ClientFront, H.ParseHandshake;
  }

  lemma MadeSize(op: R.Opcode, n: nat)
    requires n < 0x8000_0000
    ensures |MadeHeader(op, n)| + n > SEND_BUF_LEN <==> n > MESSAGE_MAX
    ensures n <= MESSAGE_MAX ==> |MadeHeader(op, n)| >= 2
  {
    hide Memory, BigEndianOctets;
  }
}
