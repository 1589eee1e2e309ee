/** From the text frames that a session sends to the text frames that it gets. */
module EndToEnd {
  import opened Bytes
  import opened Options
  import Rfc6455
  import Clients
  import Streams
  import Subscriptions
  import Server
  import ServerHistory
  import ServerRuns

  /** The messages of a session, in the order in which the message thread has taken them. */
  function Inbox(h: seq<Server.Event>, session: nat): seq<seq<byte>> {
    if h == [] then []
    else
      var last := h[|h| - 1];
      Inbox(h[..|h| - 1], session) + if last.Got? && last.session == session then [last.message] else []
  }

  predicate SentTo(e: Server.Event, session: nat) {
    e.Sent? && e.reached == Some(session)
  }

  /** The lines sent to a session, in order. */
  function Outbox(h: seq<Server.Event>, session: nat): seq<seq<byte>> {
    if h == [] then []
    else
      var last := h[|h| - 1];
      Outbox(h[..|h| - 1], session) + if SentTo(last, session) then [last.line] else []
  }

  lemma {:induction false} GotIsInInbox(h: seq<Server.Event>, session: nat, i: nat)
    requires i < |h| && h[i].Got? && h[i].session == session
    ensures h[i].message in Inbox(h, session)
    decreases |h|
  {
    var front := h[..|h| - 1];
    if i < |front| {
      assert front[i] == h[i];
      GotIsInInbox(front, session, i);
    }
  }

  lemma {:induction false} OutboxWasSent(h: seq<Server.Event>, session: nat, line: seq<byte>) returns (i: nat)
    requires line in Outbox(h, session)
    ensures i < |h| && SentTo(h[i], session) && h[i].line == line
    decreases |h|
  {
    var front, last := h[..|h| - 1], h[|h| - 1];
    if line in Outbox(front, session) {
      i := OutboxWasSent(front, session, line);
      assert front[i] == h[i];
    } else {
      i := |h| - 1;
    }
  }

  /** A line of a log that one of the payloads has asked for, sent to that session. */
  ghost predicate AskedLine(h: seq<Server.Event>, session: nat, payloads: seq<seq<byte>>, line: seq<byte>) {
    exists i, k | 0 <= i < |h| && 0 <= k < |payloads| ::
      && SentTo(h[i], session) && h[i].line == line
      && Subscriptions.ParseCommand(payloads[k]) == Subscriptions.Add(h[i].entry.name)
  }

  /** Every line in a session's outbox is of a log that a message in its inbox has asked for. */
  lemma OutboxIsAskedFor(run: seq<Server.Label>, session: nat, payloads: seq<seq<byte>>, line: seq<byte>)
    requires Server.IsRun(Server.INIT, run)
    requires var h := Server.Exec(Server.INIT, run).history;
      Inbox(h, session) <= payloads && line in Outbox(h, session)
    ensures AskedLine(Server.Exec(Server.INIT, run).history, session, payloads, line)
  {
    hide Inbox, Outbox, Server.IsRun, Server.Exec, Subscriptions.ParseCommand;
    var h := Server.Exec(Server.INIT, run).history;
    var i := OutboxWasSent(h, session, line);
    ServerRuns.LinesWereAskedFor(run, i, session);
    var name := h[i].entry.name;
    var m :| 0 <= m < i && h[..i][m].Got? && h[..i][m].session == session
          && Subscriptions.ParseCommand(h[..i][m].message) == Subscriptions.Add(name);
    GotIsInInbox(h, session, m);
    var k :| 0 <= k < |Inbox(h, session)| && Inbox(h, session)[k] == h[m].message;
    assert payloads[k] == h[m].message;
  }

  /** Text frames and, when the closing frame has been written, one more. */
  function Frames(texts: seq<(Rfc6455.Opcode, seq<byte>)>, closed: bool): seq<(Rfc6455.Opcode, seq<byte>)> {
    texts + if closed then [(Rfc6455.Close, [])] else []
  }

  /** What successive `Send` calls and then perhaps a `Disconnect` add to the wire is read back frame by frame. */
  lemma WireDecodes(messages: seq<seq<byte>>, sendOks: seq<bool>, closed: bool, wire: seq<byte>)
    requires |messages| == |sendOks|
    requires var texts := Clients.Texts(Clients.Accepted(messages, sendOks));
      wire == Rfc6455.ServerStream(texts) + if closed then Rfc6455.ServerFrame(Rfc6455.Close, []) else []
    ensures var texts := Clients.Texts(Clients.Accepted(messages, sendOks));
      Rfc6455.DecodeServer(wire) == Rfc6455.Messages(Frames(texts, closed))
  {
    hide Rfc6455.ServerStream, Rfc6455.ServerFrame, Rfc6455.DecodeServer, Clients.Accepted;
    var accepted := Clients.Accepted(messages, sendOks);
    var texts := Clients.Texts(accepted);
    Clients.AcceptedAreShort(messages, sendOks);
    Rfc6455.ServerStreamSnoc(texts, Rfc6455.Close, []);
    assert Rfc6455.ServerStream(texts) + [] == Rfc6455.ServerStream(texts) && texts + [] == texts;
    forall k | 0 <= k < |Frames(texts, closed)|
      ensures |Frames(texts, closed)[k].1| < 0x8000_0000_0000_0000
    {
      if k < |texts| {
        assert accepted[k] in accepted;
      }
    }
    Rfc6455.DecodeServerStream(Frames(texts, closed));
  }

  /**
   The server end to end, for one session and every run of the three threads. The session's octets are an
   acceptable request and text frames of up to 125 octets, cut anyhow under the header hypothesis; the
   message thread takes the messages its `Receive` calls deliver; the lines sent to it are written with any
   outcomes, and a closing frame may come after them. Then what the session reads after the response is a
   list of text frames, each with a line of a log that a text frame of this same session, already arrived,
   has asked for, and at most one closing frame, at the end.
   */
  lemma LinesAnswerTheSession(run: seq<Server.Label>, session: nat,
                              r: seq<byte>, items: seq<Streams.TextItem>, ios: seq<Streams.Io>,
                              sendOks: seq<bool>, closed: bool, wire: seq<byte>)
    requires Server.IsRun(Server.INIT, run)
    requires Streams.GoodRequest(r) && Streams.AllShort(items) && Streams.WholeRun(Streams.FRESH, ios)
    requires Streams.AllOctets(ios) <= r + Streams.TextStream(items)
    requires var h := Server.Exec(Server.INIT, run).history;
      && Inbox(h, session) <= Streams.Run(Streams.FRESH, ios).messages
      && |sendOks| == |Outbox(h, session)|
      && wire == Rfc6455.ServerStream(Clients.Texts(Clients.Accepted(Outbox(h, session), sendOks)))
               + if closed then Rfc6455.ServerFrame(Rfc6455.Close, []) else []
    ensures var h := Server.Exec(Server.INIT, run).history;
      var arrived := Streams.Arrived(r, items, |Streams.AllOctets(ios)|);
      && Rfc6455.DecodeServer(wire).Messages?
      && var frames := Rfc6455.DecodeServer(wire).list;
        forall k | 0 <= k < |frames| ::
          || (frames[k].0 == Rfc6455.Text && AskedLine(h, session, arrived, frames[k].1))
          || (closed && k == |frames| - 1 && frames[k] == (Rfc6455.Close, []))
  {
    hide Inbox, Outbox, Server.IsRun, Server.Exec, Streams.GoodRequest, Streams.AllShort, Streams.WholeRun, Streams.Run;
    hide Streams.AllOctets, Streams.TextStream, Streams.Arrived, Clients.Accepted, AskedLine;
    hide Rfc6455.ServerStream, Rfc6455.ServerFrame, Rfc6455.DecodeServer, Streams.Payloads, Streams.AllFriendly;
    var h, arrived := Server.Exec(Server.INIT, run).history, Streams.Arrived(r, items, |Streams.AllOctets(ios)|);
    Streams.TextConnection(r, items, ios);
    assert Inbox(h, session) <= arrived;
    var lines := Outbox(h, session);
    var accepted := Clients.Accepted(lines, sendOks);
    WireDecodes(lines, sendOks, closed, wire);
    Clients.AcceptedAreShort(lines, sendOks);
    var frames := Frames(Clients.Texts(accepted), closed);
    forall k | 0 <= k < |accepted|
      ensures frames[k].0 == Rfc6455.Text && AskedLine(h, session, arrived, frames[k].1)
    {
      assert accepted[k] in accepted && frames[k] == (Rfc6455.Text, accepted[k]);
      OutboxIsAskedFor(run, session, arrived, accepted[k]);
    }
  }
}
