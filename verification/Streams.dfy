/**
 What a connection makes of its octets, whatever way the reads cut them: one `Receive` call and runs of
 calls (log-server/client.cpp:122-324) against a decoder of the whole stream.
 */
module Streams {
  import opened Bytes
  import opened Options
  import opened Rfc6455
  import opened Frames
  import H = Handshake

  const BUF_LEN := 8192
  /** `data_buf` of `ListenMessages` (web_socket_server.cpp defines `BUF_LEN` anew). */
  const MESSAGE_BUF_LEN := 2048

  const READ_SUCCEED := 0
  const READ_SUCCEED_DATA_AVAILABLE := 1
  const WAITING_FOR_MORE_DATA := 2
  const HANDSHAKE_SUCCEED := 3
  const NETWORK_ERROR := -1
  const BUFFER_TOO_SMALL := -3
  const CLIENT_DISCONNECTED := -4
  const INVALID_FRAME := -5
  const HANDSHAKE_FAILED := -6

  /** What `SSL_read` gives. */
  datatype Read = Data(octets: seq<byte>) | WantRead | Closed | ReadError

  /** The environment's part in one `Receive` call: the read, and whether a send would succeed. */
  datatype Io = Io(read: Read, sendOk: bool)

  /** `frame_buf[..frame_buf_pos]` and `handshaked`. */
  datatype Conn = Conn(buf: seq<byte>, handshaked: bool)

  /** The state after a call, the code it returns, and the message it delivers. */
  datatype Outcome = Outcome(conn: Conn, code: int, message: Option<seq<byte>>)

  function ReadOctets(r: Read): seq<byte> {
    if r.Data? then r.octets else []
  }

  // ----- one call -----

  /** One `Receive` call with room for messages of less than `room` octets. */
  function ReceiveInto(c: Conn, io: Io, room: nat): Outcome {
    if c.handshaked then ReceiveFrame(c, io.read, room) else ReceiveHandshake(c, io)
  }

  /** One `Receive` call, as `ListenMessages` makes it. */
  function Receive(c: Conn, io: Io): Outcome {
    ReceiveInto(c, io, MESSAGE_BUF_LEN)
  }

  function ReceiveHandshake(c: Conn, io: Io): Outcome {
    match io.read
    case WantRead => Outcome(c, WAITING_FOR_MORE_DATA, None)
    case Closed => Outcome(c, HANDSHAKE_FAILED, None)
    case ReadError => Outcome(c, HANDSHAKE_FAILED, None)
    case Data(octets) =>
      var b := c.buf + octets;
      match H.ParseHandshake(b)
      case Incomplete =>
        Outcome(Conn(b, false), if |b| >= BUF_LEN then HANDSHAKE_FAILED else WAITING_FOR_MORE_DATA, None)
      case Error => Outcome(Conn(b, false), HANDSHAKE_FAILED, None)
      case Aborted => Outcome(Conn(b, false), HANDSHAKE_FAILED, None)
      case Opening(_, size) =>
        if size > |b| then Outcome(Conn(b, false), HANDSHAKE_FAILED, None)
        else if !io.sendOk then Outcome(Conn(b[size..], false), HANDSHAKE_FAILED, None)
        else Outcome(Conn(b[size..], true), HANDSHAKE_SUCCEED, None)
  }

  function ReceiveFrame(c: Conn, r: Read, room: nat): Outcome {
    match r
    case Closed => Outcome(c, CLIENT_DISCONNECTED, None)
    case ReadError => Outcome(c, NETWORK_ERROR, None)
    case WantRead => if c.buf == [] then Outcome(c, WAITING_FOR_MORE_DATA, None) else TakeFrame(c.buf, room)
    case Data(octets) => TakeFrame(c.buf + octets, room)
  }

  /** What is made of the front of the buffer `b`, by the standard. */
  function TakeFrame(b: seq<byte>, room: nat): Outcome {
    match ClientFront(b)
    case Partial => Outcome(Conn(b, true), if |b| >= BUF_LEN then INVALID_FRAME else WAITING_FOR_MORE_DATA, None)
    case Malformed => Outcome(Conn(b, true), INVALID_FRAME, None)
    case Frame(op, payload, size) =>
      if size > |b| then Outcome(Conn(b, true), INVALID_FRAME, None)
      else if op == Text then
        if |payload| >= room then Outcome(Conn(b[size..], true), BUFFER_TOO_SMALL, None)
        else
          var left := b[size..];
          Outcome(Conn(left, true), if left == [] then READ_SUCCEED else READ_SUCCEED_DATA_AVAILABLE, Some(payload))
      else Outcome(Conn(b, true), if op == Close then CLIENT_DISCONNECTED else INVALID_FRAME, None)
  }

  // ----- runs of calls -----

  datatype Result = Result(conn: Conn, messages: seq<seq<byte>>, code: int)

  function MessageList(m: Option<seq<byte>>): seq<seq<byte>> {
    if m.Some? then [m.value] else []
  }

  /** Calls until the environment's list ends or a call fails. */
  function Run(c: Conn, ios: seq<Io>): Result
    decreases |ios|
  {
    if ios == [] then Result(c, [], WAITING_FOR_MORE_DATA)
    else
      var o := Receive(c, ios[0]);
      if o.code < 0 || |ios| == 1 then Result(o.conn, MessageList(o.message), o.code)
      else
        var r := Run(o.conn, ios[1..]);
        r.(messages := MessageList(o.message) + r.messages)
  }

  /** The octets of the reads. */
  function AllOctets(ios: seq<Io>): seq<byte>
    decreases |ios|
  {
    if ios == [] then [] else ReadOctets(ios[0].read) + AllOctets(ios[1..])
  }

  /** A read the socket can give: nonempty, and no longer than the space the call offers. */
  predicate Fits(c: Conn, r: Read) {
    r.Data? ==> 0 < |r.octets| <= BUF_LEN - |c.buf|
  }

  /**
   What the source needs of the octets. In the handshake, no recognised header value has a length that
   fails the assertion, and the key leaves room for the GUID. Afterwards the parser is run on a short
   header that is whole, or not good.
   */
  predicate Tame(c: Conn, r: Read) {
    var b := c.buf + ReadOctets(r);
    if !c.handshaked then
      r.Data? ==>
        var a := H.ParseHandshake(b);
        a != H.Aborted && (a.Opening? ==> 1 <= |a.key| <= 219)
    else r.Data? || (r.WantRead? && b != []) ==> ShortForm(b) && (HeaderWhole(b) || !GoodHeader(b))
  }

  /** The read carries data or makes the server wait, and the send succeeds. */
  predicate Friendly(io: Io) {
    (io.read.Data? || io.read.WantRead?) && io.sendOk
  }

  predicate AllFriendly(ios: seq<Io>)
    decreases |ios|
  {
    ios == [] || (Friendly(ios[0]) && AllFriendly(ios[1..]))
  }

  /** Runs of calls on octets the source can work on. The peer may close, and reads and sends may fail. */
  ghost predicate GoodRun(c: Conn, ios: seq<Io>)
    decreases |ios|
  {
    ios != [] ==>
      && Fits(c, ios[0].read) && Tame(c, ios[0].read)
      && var o := Receive(c, ios[0]);
        o.code >= 0 ==> GoodRun(o.conn, ios[1..])
  }

  /** Between calls the buffer has room, and a connection that waits for its request has not got it. */
  predicate Settled(c: Conn) {
    |c.buf| < BUF_LEN && (!c.handshaked ==> H.ParseHandshake(c.buf) == H.Incomplete)
  }

  lemma FreshIsSettled()
    ensures Settled(Conn([], false))
  {
    assert H.ParseHandshake([]) == H.Incomplete;
  }

  // ----- the whole stream at once -----

  datatype Verdict = Open | Ended(code: int)

  /** The messages of a stream, and how it ends. */
  datatype Decoding = Decoding(messages: seq<seq<byte>>, verdict: Verdict)

  /** The frames of a stream by the standard; only text frames carry on. */
  function DecodeFrames(s: seq<byte>): Decoding
    decreases |s|
  {
    match ClientFront(s)
    case Partial => Decoding([], Open)
    case Malformed => Decoding([], Ended(INVALID_FRAME))
    case Frame(op, payload, size) =>
      if op == Text && 0 < size <= |s| then Prepend([payload], DecodeFrames(s[size..]))
      else Decoding([], Ended(if op == Close then CLIENT_DISCONNECTED else INVALID_FRAME))
  }

  function Prepend(m: seq<seq<byte>>, d: Decoding): Decoding {
    d.(messages := m + d.messages)
  }

  /** A whole connection: the request, which must end within 8192 octets, and then frames. */
  function DecodeConnection(s: seq<byte>): Decoding {
    if |s| >= BUF_LEN && H.ParseHandshake(s[..BUF_LEN]) == H.Incomplete then Decoding([], Ended(HANDSHAKE_FAILED))
    else
      match H.ParseHandshake(s)
      case Incomplete => Decoding([], Open)
      case Opening(_, size) => if size <= |s| then DecodeFrames(s[size..]) else Decoding([], Ended(HANDSHAKE_FAILED))
      case Error => Decoding([], Ended(HANDSHAKE_FAILED))
      case Aborted => Decoding([], Ended(HANDSHAKE_FAILED))
  }

  /** What is still to come from a connection in state `c` when the octets `t` follow. */
  function Remaining(c: Conn, t: seq<byte>): Decoding {
    if c.handshaked then DecodeFrames(c.buf + t) else DecodeConnection(c.buf + t)
  }

  // ----- refinement -----

  /** A short frame, and so its partial front, is far smaller than the buffer. */
  lemma ShortFrameSize(b: seq<byte>)
    requires ShortForm(b)
    ensures ClientFront(b) == Partial ==> |b| < 131
    ensures ClientFront(b).Frame? ==> 6 <= ClientFront(b).size <= |b| && |ClientFront(b).payload| <= 125
  {
    hide GoodFirstOctet, MaskBitSet, Len7Of, OpcodeOf, Mask, BigEndian;
  }

  /** Taking a frame from the buffer takes exactly the front of the stream. */
  lemma TakeFrameRefines(b: seq<byte>, t: seq<byte>)
    requires ShortForm(b)
    ensures var o := TakeFrame(b, MESSAGE_BUF_LEN);
      if o.code >= 0 then DecodeFrames(b + t) == Prepend(MessageList(o.message), DecodeFrames(o.conn.buf + t))
      else o.message == None && DecodeFrames(b + t) == Decoding([], Ended(o.code))
  {
    hide ClientFront, ShortForm;
    ShortFrameSize(b);
    match ClientFront(b)
    case Partial =>
      assert [] + DecodeFrames(b + t).messages == DecodeFrames(b + t).messages;
    case Malformed =>
      ClientFrontStable(b, t);
    case Frame(op, payload, size) =>
      ClientFrontStable(b, t);
      assert (b + t)[size..] == b[size..] + t;
  }

  lemma HandshakeRefines(c: Conn, octets: seq<byte>, t: seq<byte>)
    requires !c.handshaked && Settled(c) && Fits(c, Data(octets)) && Tame(c, Data(octets))
    ensures var o := ReceiveHandshake(c, Io(Data(octets), true));
      && o.message == None
      && (if o.code >= 0 then DecodeConnection(c.buf + octets + t) == Remaining(o.conn, t)
          else DecodeConnection(c.buf + octets + t) == Decoding([], Ended(o.code)))
  {
    hide H.ParseHandshake;
    var b := c.buf + octets;
    var s := b + t;
    var a := H.ParseHandshake(b);
    if a == H.Incomplete {
      if |b| >= BUF_LEN {
        assert s[..BUF_LEN] == b;
      }
    } else {
      H.ParseStable(b, t);
      if |s| >= BUF_LEN {
        assert s[..BUF_LEN] == b + t[..BUF_LEN - |b|];
        H.ParseStable(b, t[..BUF_LEN - |b|]);
      }
      if a.Opening? {
        H.OpeningLength(b);
        assert s[a.frameLength..] == b[a.frameLength..] + t;
      }
    }
  }

  /** A handshake call that does not fail has not needed a send, or the send has succeeded. */
  lemma SendSucceeds(c: Conn, io: Io)
    requires ReceiveHandshake(c, io).code >= 0
    ensures (io.read.Data? || io.read.WantRead?) && ReceiveHandshake(c, io) == ReceiveHandshake(c, Io(io.read, true))
  {
    hide H.ParseHandshake;
  }

  /** One call, for whatever follows: its message comes first, and the rest is left to later calls. */
  lemma ReceiveRefines(c: Conn, io: Io, t: seq<byte>)
    requires Settled(c) && Fits(c, io.read) && Tame(c, io.read)
    ensures var o := Receive(c, io); var octets := ReadOctets(io.read);
      if o.code >= 0 then
        Settled(o.conn) && Remaining(c, octets + t) == Prepend(MessageList(o.message), Remaining(o.conn, t))
      else o.message == None && (Friendly(io) ==> Remaining(c, octets + t) == Decoding([], Ended(o.code)))
  {
    hide TakeFrame, DecodeFrames, DecodeConnection, ReceiveHandshake;
    var octets := ReadOctets(io.read);
    assert c.buf + (octets + t) == c.buf + octets + t;
    assert [] + Remaining(c, octets + t).messages == Remaining(c, octets + t).messages;
    if !c.handshaked {
      ReceiveHandshakeSettles(c, io);
      if Receive(c, io).code >= 0 {
        SendSucceeds(c, io);
      }
      if io.read.Data? {
        HandshakeRefines(c, octets, t);
      } else {
        assert c.buf + octets == c.buf;
      }
    } else if io.read.Data? || (io.read.WantRead? && c.buf != []) {
      assert io.read.WantRead? ==> c.buf + octets == c.buf;
      TakeFrameRefines(c.buf + octets, t);
      TakeFrameSettles(c.buf + octets);
    }
  }

  lemma ReceiveHandshakeSettles(c: Conn, io: Io)
    requires !c.handshaked && Settled(c) && Fits(c, io.read)
    ensures var o := ReceiveHandshake(c, io);
      && (o.code >= 0 ==> Settled(o.conn))
      && o.message == None
      && (io.read.WantRead? ==> o == Outcome(c, WAITING_FOR_MORE_DATA, None))
  {
    hide H.ParseHandshake;
    if io.read.Data? && H.ParseHandshake(c.buf + io.read.octets).Opening? {
      H.OpeningLength(c.buf + io.read.octets);
    }
  }

  lemma TakeFrameSettles(b: seq<byte>)
    requires ShortForm(b) && |b| <= BUF_LEN
    ensures var o := TakeFrame(b, MESSAGE_BUF_LEN); o.conn.handshaked && (o.code >= 0 ==> Settled(o.conn))
  {
    hide ClientFront, ShortForm;
    ShortFrameSize(b);
  }

  /**
   Runs refine the whole-stream decoder, for whatever octets follow. A run that fails has delivered a prefix
   of its messages, and all of them when neither the socket nor a send is to blame.
   */
  lemma {:induction false} RunRefines(c: Conn, ios: seq<Io>, t: seq<byte>)
    requires Settled(c) && GoodRun(c, ios)
    ensures var r, s := Run(c, ios), AllOctets(ios);
      if r.code >= 0 then Settled(r.conn) && Remaining(c, s + t) == Prepend(r.messages, Remaining(r.conn, t))
      else
        && r.messages <= Remaining(c, s + t).messages
        && (AllFriendly(ios) ==> Remaining(c, s + t) == Decoding(r.messages, Ended(r.code)))
    decreases |ios|
  {
    hide Remaining, Receive, Tame, Settled, Friendly;
    if ios == [] {
      assert AllOctets(ios) + t == t;
      assert [] + Remaining(c, t).messages == Remaining(c, t).messages;
    } else {
      var octets, later := ReadOctets(ios[0].read), AllOctets(ios[1..]);
      var o := Receive(c, ios[0]);
      ReceiveRefines(c, ios[0], later + t);
      assert AllOctets(ios) + t == octets + (later + t);
      if o.code >= 0 {
        RunRefines(o.conn, ios[1..], t);
        if |ios| == 1 {
          assert later + t == t;
        } else {
          var r := Run(o.conn, ios[1..]);
          assert MessageList(o.message) + (r.messages + Remaining(r.conn, t).messages)
              == MessageList(o.message) + r.messages + Remaining(r.conn, t).messages;
        }
      }
    }
  }

  /** A call that does not ask to be repeated leaves no complete frame and no complete request. */
  lemma NothingLeft(c: Conn, io: Io)
    requires Settled(c) && Fits(c, io.read) && Tame(c, io.read)
    requires Receive(c, io).code in {READ_SUCCEED, WAITING_FOR_MORE_DATA}
    ensures Remaining(Receive(c, io).conn, []) == Decoding([], Open)
  {
    hide ClientFront, H.ParseHandshake, ShortForm;
    var o := Receive(c, io);
    assert o.conn.buf + [] == o.conn.buf;
    EmptyIsPartial();
    if !c.handshaked {
      ReceiveHandshakeSettles(c, io);
    } else if io.read.Data? || c.buf != [] {
      var b := if io.read.Data? then c.buf + io.read.octets else c.buf;
      assert io.read.WantRead? ==> c.buf + [] == c.buf;
      ShortFrameSize(b);
    }
  }

  lemma EmptyIsPartial()
    ensures ClientFront([]) == Partial
  {
  }

  lemma {:induction false} RunLeavesNothing(c: Conn, ios: seq<Io>)
    requires Settled(c) && GoodRun(c, ios) && ios != []
    requires Run(c, ios).code in {READ_SUCCEED, WAITING_FOR_MORE_DATA}
    ensures Remaining(Run(c, ios).conn, []) == Decoding([], Open)
    decreases |ios|
  {
    hide Remaining, Receive, Tame, Settled;
    var o := Receive(c, ios[0]);
    ReceiveRefines(c, ios[0], []);
    if |ios| == 1 {
      NothingLeft(c, ios[0]);
    } else {
      RunLeavesNothing(o.conn, ios[1..]);
    }
  }

  const FRESH := Conn([], false)

  lemma RemainingFresh(s: seq<byte>)
    ensures Remaining(FRESH, s) == DecodeConnection(s)
  {
    hide DecodeConnection;
    assert [] + s == s;
  }

  lemma PrependToEmpty(m: seq<seq<byte>>)
    ensures Prepend(m, Decoding([], Open)) == Decoding(m, Open)
  {
    assert m + [] == m;
  }

  lemma CutAtRest(ios: seq<Io>)
    requires GoodRun(FRESH, ios) && ios != [] && Run(FRESH, ios).code in {READ_SUCCEED, WAITING_FOR_MORE_DATA}
    ensures DecodeConnection(AllOctets(ios)) == Decoding(Run(FRESH, ios).messages, Open)
  {
    hide DecodeConnection, Remaining, GoodRun, Run, Settled, AllOctets, AllFriendly, Prepend;
    var s := AllOctets(ios);
    FreshIsSettled();
    RunRefines(FRESH, ios, []);
    RunLeavesNothing(FRESH, ios);
    PrependToEmpty(Run(FRESH, ios).messages);
    assert s + [] == s;
    RemainingFresh(s);
  }

  /**
   Cutting independence. Whatever way the octets of a connection are cut into reads, and whatever fails: the
   messages of a run are a prefix of those of the whole-stream decoder, for whatever follows; after a call
   that does not ask to be repeated they are all the messages of the octets read; and when a call fails
   on what it has read, the stream ends there with the same code.
   */
  lemma CutIndependence(ios: seq<Io>, t: seq<byte>)
    requires GoodRun(FRESH, ios)
    ensures var r, s := Run(FRESH, ios), AllOctets(ios);
      && r.messages <= DecodeConnection(s + t).messages
      && (r.code < 0 && AllFriendly(ios) ==> DecodeConnection(s + t) == Decoding(r.messages, Ended(r.code)))
      && (ios != [] && r.code in {READ_SUCCEED, WAITING_FOR_MORE_DATA} ==>
        DecodeConnection(s) == Decoding(r.messages, Open))
  {
    hide DecodeConnection, Remaining, GoodRun, Run, Settled, AllOctets, AllFriendly;
    FreshIsSettled();
    RunRefines(FRESH, ios, t);
    RemainingFresh(AllOctets(ios) + t);
    if ios != [] && Run(FRESH, ios).code in {READ_SUCCEED, WAITING_FOR_MORE_DATA} {
      CutAtRest(ios);
    }
  }

  /** The run has come to rest: nothing to repeat, or a failure that is due to the octets. */
  ghost predicate AtRest(ios: seq<Io>) {
    ios != []
    && var code := Run(FRESH, ios).code;
      code in {READ_SUCCEED, WAITING_FOR_MORE_DATA} || (code < 0 && AllFriendly(ios))
  }

  /** Two cuttings of the same octets that have both come to rest have delivered the same messages. */
  lemma CuttingsAgree(ios: seq<Io>, ios': seq<Io>)
    requires GoodRun(FRESH, ios) && GoodRun(FRESH, ios') && AtRest(ios) && AtRest(ios')
    requires AllOctets(ios) == AllOctets(ios')
    ensures Run(FRESH, ios).messages == Run(FRESH, ios').messages
    ensures Run(FRESH, ios).code < 0 || Run(FRESH, ios').code < 0 ==> Run(FRESH, ios).code == Run(FRESH, ios').code
  {
    hide DecodeConnection, GoodRun, Run, AllOctets, AllFriendly;
    CutIndependence(ios, []);
    CutIndependence(ios', []);
    assert AllOctets(ios) + [] == AllOctets(ios);
  }

  // ----- streams of text frames -----

  datatype TextItem = TextItem(key: Key, payload: seq<byte>)

  function ItemFrame(i: TextItem): seq<byte> { ClientFrame(Text, i.key, i.payload) }

  function TextStream(items: seq<TextItem>): seq<byte>
    decreases |items|
  {
    if items == [] then [] else ItemFrame(items[0]) + TextStream(items[1..])
  }

  function Payloads(items: seq<TextItem>): (p: seq<seq<byte>>)
    ensures |p| == |items|
  {
    seq(|items|, i requires 0 <= i < |items| => items[i].payload)
  }

  ghost predicate AllShort(items: seq<TextItem>) {
    forall i | 0 <= i < |items| :: |items[i].payload| <= 125
  }

  /** How many frames lie wholly within the first `n` octets. */
  function Contained(items: seq<TextItem>, n: nat): (k: nat)
    ensures k <= |items|
    decreases |items|
  {
    if items == [] || n < |ItemFrame(items[0])| then 0
    else 1 + Contained(items[1..], n - |ItemFrame(items[0])|)
  }

  /** The decoder finds exactly the payloads of the frames contained in a prefix of the stream. */
  lemma {:induction false} DecodeTextPrefix(items: seq<TextItem>, n: nat)
    requires AllShort(items) && n <= |TextStream(items)|
    ensures DecodeFrames(TextStream(items)[..n]) == Decoding(Payloads(items[..Contained(items, n)]), Open)
    decreases |items|
  {
    hide ClientFront, ItemFrame;
    EmptyIsPartial();
    if items != [] {
      var i, f, rest := items[0], ItemFrame(items[0]), TextStream(items[1..]);
      assert |i.payload| <= 125;
      var s := TextStream(items)[..n];
      if n < |f| {
        assert s == f[..n];
        ItemPrefix(i, n);
      } else {
        assert s == f + rest[..n - |f|];
        ItemFront(i, rest[..n - |f|]);
        DecodeTextPrefix(items[1..], n - |f|);
        assert s[|f|..] == rest[..n - |f|];
        var k := Contained(items[1..], n - |f|);
        assert items[..k + 1] == [i] + items[1..][..k];
        assert Payloads(items[..k + 1]) == [i.payload] + Payloads(items[1..][..k]);
      }
    }
  }

  lemma ItemFront(i: TextItem, t: seq<byte>)
    requires |i.payload| <= 125
    ensures ClientFront(ItemFrame(i) + t) == Frame(Text, i.payload, |ItemFrame(i)|) && |ItemFrame(i)| == |i.payload| + 6
    ensures ShortForm(ItemFrame(i) + t)
  {
    hide ClientFront, ClientFrame, ShortForm;
    ClientFrameFront(Text, i.key, i.payload, t);
    ShortClientFrame(Text, i.key, i.payload, t);
  }

  lemma ItemPrefix(i: TextItem, n: nat)
    requires |i.payload| <= 125 && n < |ItemFrame(i)|
    ensures ClientFront(ItemFrame(i)[..n]) == Partial && ShortForm(ItemFrame(i)[..n])
  {
    hide ClientFront, ClientFrame;
    ClientFramePrefix(Text, i.key, i.payload, n);
    ShortClientFrame(Text, i.key, i.payload, []);
    assert ItemFrame(i) + [] == ItemFrame(i);
  }

  /** What stands at the front of a prefix of a text stream. */
  lemma TextPrefixFront(items: seq<TextItem>, b: seq<byte>)
    requires AllShort(items) && b <= TextStream(items)
    ensures ShortForm(b)
    ensures ClientFront(b) == Partial
      || (items != [] && |ItemFrame(items[0])| <= |b|
        && ClientFront(b) == Frame(Text, items[0].payload, |ItemFrame(items[0])|)
        && b[|ItemFrame(items[0])|..] <= TextStream(items[1..]))
  {
    hide ClientFront, ItemFrame;
    EmptyIsPartial();
    if items != [] {
      var f, rest := ItemFrame(items[0]), TextStream(items[1..]);
      assert |items[0].payload| <= 125;
      if |b| < |f| {
        assert b == f[..|b|];
        ItemPrefix(items[0], |b|);
      } else {
        assert b[..|f|] == f && b == f + b[|f|..];
        ItemFront(items[0], b[|f|..]);
        assert b[|f|..] == rest[..|b| - |f|];
      }
    }
  }

  // ----- connections of one request and text frames -----

  /** The header hypothesis alone: the parser is never run on part of a masked header. */
  ghost predicate WholeRun(c: Conn, ios: seq<Io>)
    decreases |ios|
  {
    ios != [] ==>
      && Fits(c, ios[0].read)
      && (c.handshaked ==> HeaderWhole(c.buf + ReadOctets(ios[0].read)))
      && var o := Receive(c, ios[0]);
        o.code >= 0 ==> WholeRun(o.conn, ios[1..])
  }

  /** An acceptable request that fits the buffer, with a key the answer has room for. */
  predicate GoodRequest(r: seq<byte>) {
    var a := H.ParseHandshake(r);
    a.Opening? && a.frameLength == |r| <= BUF_LEN && 1 <= |a.key| <= 219
  }

  lemma {:induction false} WholeTextRunIsGood(c: Conn, ios: seq<Io>, items: seq<TextItem>)
    requires c.handshaked && AllShort(items) && WholeRun(c, ios)
    requires c.buf + AllOctets(ios) <= TextStream(items)
    ensures GoodRun(c, ios)
    decreases |ios|
  {
    hide ClientFront, ItemFrame, AllShort, HeaderWhole, TextStream, ShortForm;
    if ios != [] {
      var octets, later := ReadOctets(ios[0].read), AllOctets(ios[1..]);
      var b := c.buf + octets;
      assert c.buf + AllOctets(ios) == b + later;
      PrefixOfPrefix(b, later, TextStream(items));
      TextPrefixFront(items, b);
      var o := Receive(c, ios[0]);
      assert ios[0].read.WantRead? ==> b == c.buf;
      if o.code >= 0 {
        if ClientFront(b).Frame? && !(ios[0].read.WantRead? && c.buf == []) {
          var n := |ItemFrame(items[0])|;
          assert AllShort(items[1..]) by { ShortTail(items); }
          assert o.conn.buf + later <= TextStream(items[1..]) by { StreamTail(items, b, later); }
          WholeTextRunIsGood(o.conn, ios[1..], items[1..]);
        } else {
          assert o.conn.buf == b;
          WholeTextRunIsGood(o.conn, ios[1..], items);
        }
      }
    }
  }

  lemma PrefixOfPrefix(b: seq<byte>, later: seq<byte>, s: seq<byte>)
    requires b + later <= s
    ensures b <= s
  {
    assert s[..|b|] == s[..|b + later|][..|b|];
  }

  lemma ShortTail(items: seq<TextItem>)
    requires items != [] && AllShort(items)
    ensures AllShort(items[1..])
  {
  }

  lemma StreamTail(items: seq<TextItem>, b: seq<byte>, later: seq<byte>)
    requires items != [] && |ItemFrame(items[0])| <= |b| && b + later <= TextStream(items)
    ensures b[|ItemFrame(items[0])|..] + later <= TextStream(items[1..])
  {
    hide ItemFrame;
    var n, s := |ItemFrame(items[0])|, TextStream(items);
    assert (b + later)[n..] == b[n..] + later;
    assert (b + later)[n..] == s[n..|b + later|];
    assert s[n..] == TextStream(items[1..]);
    assert s[n..|b + later|] == s[n..][..|b + later| - n];
  }

  lemma {:induction false} WholeRunIsGood(c: Conn, ios: seq<Io>, r: seq<byte>, items: seq<TextItem>)
    requires !c.handshaked && Settled(c) && AllShort(items) && GoodRequest(r) && WholeRun(c, ios)
    requires c.buf + AllOctets(ios) <= r + TextStream(items)
    ensures GoodRun(c, ios)
    decreases |ios|
  {
    hide H.ParseHandshake, TextStream, AllShort, HeaderWhole, ReceiveFrame;
    if ios != [] {
      var octets, later := ReadOctets(ios[0].read), AllOctets(ios[1..]);
      var b, s := c.buf + octets, r + TextStream(items);
      assert c.buf + AllOctets(ios) == b + later;
      PrefixOfPrefix(b, later, s);
      RequestPrefix(r, TextStream(items), b);
      var o := Receive(c, ios[0]);
      if ios[0].read.WantRead? {
        assert o.conn.buf + later == b + later by { assert b == c.buf; }
        WholeRunIsGood(o.conn, ios[1..], r, items);
      } else if o.code >= 0 {
        if |b| < |r| {
          WholeRunIsGood(o.conn, ios[1..], r, items);
        } else {
          assert b[|r|..] + later <= TextStream(items) by { DropPrefix(r, TextStream(items), b, later); }
          WholeTextRunIsGood(o.conn, ios[1..], items);
        }
      }
    }
  }

  /** How far the request has come in a prefix of the connection's octets. */
  lemma RequestPrefix(r: seq<byte>, frames: seq<byte>, b: seq<byte>)
    requires GoodRequest(r) && b <= r + frames
    ensures H.ParseHandshake(b) == if |b| < |r| then H.Incomplete else H.ParseHandshake(r)
  {
    hide H.ParseHandshake;
    if |b| < |r| {
      H.PrefixIncomplete(r, |b|);
      assert b == r[..|b|];
    } else {
      H.ParseStable(r, b[|r|..]);
      assert b[..|r|] == r && r + b[|r|..] == b;
    }
  }

  lemma DropPrefix(r: seq<byte>, frames: seq<byte>, b: seq<byte>, later: seq<byte>)
    requires |r| <= |b| && b + later <= r + frames
    ensures b[|r|..] + later <= frames
  {
    assert (b + later)[|r|..] == b[|r|..] + later;
    assert (r + frames)[|r|..|b + later|] == frames[..|b + later| - |r|];
  }

  /** The decoder on the first `n` octets of a connection. */
  lemma DecodeConnectionPrefix(r: seq<byte>, items: seq<TextItem>, n: nat)
    requires GoodRequest(r) && AllShort(items) && n <= |r + TextStream(items)|
    ensures DecodeConnection((r + TextStream(items))[..n])
         == if n < |r| then Decoding([], Open) else Decoding(Payloads(items[..Contained(items, n - |r|)]), Open)
  {
    hide H.ParseHandshake, TextStream, AllShort, DecodeFrames, Payloads, Contained;
    var frames := TextStream(items);
    var b := (r + frames)[..n];
    RequestPrefix(r, frames, b);
    if n >= BUF_LEN {
      assert b[..BUF_LEN] == (r + frames)[..BUF_LEN];
      RequestPrefix(r, frames, b[..BUF_LEN]);
    }
    if n >= |r| {
      assert b[|r|..] == frames[..n - |r|];
      DecodeTextPrefix(items, n - |r|);
    }
  }

  lemma PayloadsOfPrefix(items: seq<TextItem>, k: nat)
    requires k <= |items|
    ensures Payloads(items[..k]) <= Payloads(items)
  {
  }

  lemma TextRunIsGood(r: seq<byte>, items: seq<TextItem>, ios: seq<Io>)
    requires GoodRequest(r) && AllShort(items) && WholeRun(FRESH, ios)
    requires AllOctets(ios) <= r + TextStream(items)
    ensures GoodRun(FRESH, ios)
  {
    hide GoodRun, WholeRun, TextStream, AllShort, GoodRequest, Settled, AllOctets;
    FreshIsSettled();
    assert FRESH.buf + AllOctets(ios) == AllOctets(ios);
    WholeRunIsGood(FRESH, ios, r, items);
  }

  /** The payloads of the frames contained in the first `n` octets of the connection. */
  function Arrived(r: seq<byte>, items: seq<TextItem>, n: nat): seq<seq<byte>> {
    if n < |r| then [] else Payloads(items[..Contained(items, n - |r|)])
  }

  lemma ArrivedPrefix(r: seq<byte>, items: seq<TextItem>, n: nat)
    ensures Arrived(r, items, n) <= Payloads(items)
  {
    hide Payloads, Contained;
    if n >= |r| {
      PayloadsOfPrefix(items, Contained(items, n - |r|));
    }
  }

  /**
   One acceptable request followed by masked text frames of up to 125 octets, cut into reads in any way
   that meets the header hypothesis, until the peer closes, or a read or a send fails, or without end: the
   messages delivered are always a prefix of the payloads that have arrived; after each drain they are
   exactly those; and no call fails unless the socket or a send is to blame.
   */
  lemma TextConnection(r: seq<byte>, items: seq<TextItem>, ios: seq<Io>)
    requires GoodRequest(r) && AllShort(items) && WholeRun(FRESH, ios)
    requires AllOctets(ios) <= r + TextStream(items)
    ensures var run, arrived := Run(FRESH, ios), Arrived(r, items, |AllOctets(ios)|);
      && run.messages <= arrived <= Payloads(items)
      && (ios != [] && run.code in {READ_SUCCEED, WAITING_FOR_MORE_DATA} ==> run.messages == arrived)
      && (AllFriendly(ios) ==> run.code >= 0)
  {
    hide DecodeConnection, GoodRun, WholeRun, Run, TextStream, AllShort, GoodRequest, AllOctets, AllFriendly;
    hide Payloads, Contained;
    var s := AllOctets(ios);
    TextRunIsGood(r, items, ios);
    CutIndependence(ios, []);
    assert s + [] == s == (r + TextStream(items))[..|s|];
    DecodeConnectionPrefix(r, items, |s|);
    ArrivedPrefix(r, items, |s|);
  }

  // ----- the drain loop ends -----

  /** A call that asks to be repeated has used up at least four octets. */
  lemma RepeatUsesOctets(c: Conn, io: Io)
    requires Settled(c) && Fits(c, io.read) && Tame(c, io.read)
    requires Receive(c, io).code in {READ_SUCCEED_DATA_AVAILABLE, HANDSHAKE_SUCCEED}
    ensures |Receive(c, io).conn.buf| + 4 <= |c.buf| + |ReadOctets(io.read)|
  {
    hide ClientFront, H.ParseHandshake, ShortForm;
    var b := c.buf + ReadOctets(io.read);
    if !c.handshaked {
      if io.read.Data? && H.ParseHandshake(b).Opening? {
        H.OpeningLength(b);
      }
    } else if io.read.Data? || c.buf != [] {
      assert io.read.WantRead? ==> b == c.buf;
      ShortFrameSize(b);
    }
  }

  /** One more call after a run. */
  lemma {:induction false} RunSnoc(c: Conn, ios: seq<Io>, io: Io)
    requires Run(c, ios).code >= 0
    ensures var r := Run(c, ios); var o := Receive(r.conn, io);
      Run(c, ios + [io]) == Result(o.conn, r.messages + MessageList(o.message), o.code)
    decreases |ios|
  {
    hide Receive;
    if ios == [] {
      assert [] + [io] == [io];
    } else {
      var o, rest := Receive(c, ios[0]), ios[1..];
      assert (ios + [io])[1..] == rest + [io];
      assert |ios| == 1 ==> rest == [];
      RunSnoc(o.conn, rest, io);
    }
  }
}
