/**
 Runs at the edges of the results about sessions: a line that is sent after its connection has been closed, and
 a line that is sent after the map has been cleared at shutdown.
 */
module ServerExamples {
  import opened Bytes
  import opened Options
  import opened Subscriptions
  import opened Server
  import Ids

  lemma Then(run: seq<Label>, l: Label) returns (longer: seq<Label>)
    requires IsRun(INIT, run) && Enabled(Exec(INIT, run), l)
    ensures longer == run + [l]
    ensures IsRun(INIT, longer) && Exec(INIT, longer) == Apply(Exec(INIT, run), l)
  {
    hide Enabled, Apply;
    longer := run + [l];
    assert longer[..|run|] == run;
  }

  const CLIENTS: map<int, Session> := map[0 := Session(0, 0)]

  /** The acceptor accepts the first connection and generates its id. */
  lemma Accepts() returns (run: seq<Label>)
    ensures IsRun(INIT, run)
    ensures Exec(INIT, run) == INIT.(a := AInserting(0), clientsOwner := Some(Acceptor))
  {
    var a := DoA(true);
    run := [];
    assert IsRun(INIT, run) && Exec(INIT, run) == INIT;
    hide Exec, IsRun, Ids.FirstFree, MStep, RStep, MCan, RCan;
    assert 0 !in INIT.clients.Keys;
    run := Then(run, a);
    run := Then(run, a);
    run := Then(run, a);
  }

  lemma Connects() returns (run: seq<Label>)
    ensures IsRun(INIT, run)
    ensures Exec(INIT, run) == INIT.(clients := CLIENTS, nextSession := 1)
  {
    hide Exec, IsRun, Ids.FirstFree, MStep, RStep, MCan, RCan;
    var a := DoA(true);
    run := Accepts();
    run := Then(run, a);
    run := Then(run, a);
    run := Then(run, a);
  }

  /** The message thread finds the map not empty. */
  lemma Selects(run: seq<Label>) returns (longer: seq<Label>)
    requires IsRun(INIT, run)
    requires var s := Exec(INIT, run); s.clients == CLIENTS && s.clientsOwner == None && s.m == MTop && !s.stop
    ensures IsRun(INIT, longer)
    ensures Exec(INIT, longer) == Exec(INIT, run).(m := MSelecting, clientsOwner := None)
  {
    hide Exec, IsRun, MVisit, MServe, MPush, MScan, MPurge, AStep, RStep, ACan, RCan;
    var m := DoM(MInput(true, Waits, true), 0);
    assert 0 in CLIENTS;
    longer := Then(run, m);
    longer := Then(longer, m);
    longer := Then(longer, m);
    longer := Then(longer, m);
  }

  /** The message thread goes on to the first `Receive` of client 0. */
  lemma ReachesTheClient(run: seq<Label>) returns (longer: seq<Label>)
    requires IsRun(INIT, run)
    requires var s := Exec(INIT, run); s.clients == CLIENTS && s.clientsOwner == None && s.m == MTop && !s.stop
    ensures IsRun(INIT, longer)
    ensures Exec(INIT, longer) == Exec(INIT, run).(m := MServing(0), clientsOwner := Some(Messenger))
  {
    hide Exec, IsRun, MServe, MPush, MScan, MPurge, AStep, RStep, ACan, RCan;
    var m := DoM(MInput(true, Waits, true), 0);
    assert 0 in CLIENTS;
    longer := Selects(run);
    longer := Then(longer, m);
    longer := Then(longer, m);
    longer := Then(longer, m);
  }

  lemma Subscribes(run: seq<Label>, octets: seq<byte>, name: seq<byte>) returns (longer: seq<Label>)
    requires ParseCommand(octets) == Add(name)
    requires IsRun(INIT, run)
    requires Exec(INIT, run)
          == INIT.(clients := CLIENTS, nextSession := 1, m := MServing(0), clientsOwner := Some(Messenger))
    ensures IsRun(INIT, longer)
    ensures var e := Entry(name, 0, 0, 0);
      Exec(INIT, longer)
      == INIT.(clients := CLIENTS, nextSession := 1, nextSerial := 1, logs := [e],
               history := [Got(0, 0, octets, true), Added(e)])
  {
    hide Exec, IsRun, ParseCommand, MScan, MPurge, AStep, RStep, ACan, RCan;
    var m := DoM(MInput(true, Message(octets, false), true), 0);
    longer := Then(run, m);
    longer := Then(longer, m);
    longer := Then(longer, m);
    longer := Then(longer, m);
    longer := Then(longer, m);
    longer := Then(longer, m);
    longer := Then(longer, m);
  }

  /** The reader finds the list not empty. */
  lemma Polls(run: seq<Label>) returns (longer: seq<Label>)
    requires IsRun(INIT, run)
    requires var s := Exec(INIT, run); |s.logs| == 1 && s.logsOwner == None && s.r == RTop && !s.stop
    ensures IsRun(INIT, longer)
    ensures Exec(INIT, longer) == Exec(INIT, run).(r := RSelecting, logsOwner := None)
  {
    hide Exec, IsRun, EraseAt, AStep, MStep, ACan, MCan;
    var r := DoR(RInput(true, None));
    longer := Then(run, r);
    longer := Then(longer, r);
    longer := Then(longer, r);
    longer := Then(longer, r);
  }

  /** The reader goes on to the entry and finds its client. */
  lemma FindsTheClient(run: seq<Label>) returns (longer: seq<Label>)
    requires IsRun(INIT, run)
    requires var s := Exec(INIT, run); |s.logs| == 1 && s.logsOwner == None && s.r == RTop && !s.stop
    requires var s := Exec(INIT, run); s.logs[0].clientId == 0 && 0 in s.clients
    ensures IsRun(INIT, longer)
    ensures Exec(INIT, longer) == Exec(INIT, run).(r := RFound(0, 0), logsOwner := Some(Reader))
  {
    hide Exec, IsRun, EraseAt, AStep, MStep, ACan, MCan;
    var r := DoR(RInput(true, None));
    longer := Polls(run);
    longer := Then(longer, r);
    longer := Then(longer, r);
    longer := Then(longer, r);
    longer := Then(longer, r);
  }

  /** For every `add` command and every line there is a run in which the line is sent to a client that is gone. */
  lemma LineAfterShutdown(octets: seq<byte>, name: seq<byte>, line: seq<byte>) returns (run: seq<Label>)
    requires ParseCommand(octets) == Add(name)
    ensures IsRun(INIT, run) && Exec(INIT, run).cleared
    ensures var e := Entry(name, 0, 0, 0);
      && Exec(INIT, run).logs == [e]
      && Exec(INIT, run).history == [Got(0, 0, octets, true), Added(e), Cleared, Sent(None, e, line)]
  {
    hide Exec, IsRun, ParseCommand, EraseAt;
    run := Connects();
    run := ReachesTheClient(run);
    run := Subscribes(run, octets, name);
    run := FindsTheClient(run);
    run := Then(run, RequestStop);
    run := Then(run, DoA(true));
    run := Then(run, DoA(true));
    run := Then(run, DoA(true));
    run := Then(run, DoR(RInput(true, Some(line))));
    run := Then(run, DoR(RInput(true, None)));
  }

  /**
   For every `add` command and every line there is a run, without any shutdown, in which the line is sent to
   a client whose connection has been closed.
   */
  lemma LineAfterDisconnect(octets: seq<byte>, name: seq<byte>, line: seq<byte>) returns (run: seq<Label>)
    requires ParseCommand(octets) == Add(name)
    ensures IsRun(INIT, run) && !Exec(INIT, run).cleared && Exec(INIT, run).m == MWantPurge(0)
    ensures var e := Entry(name, 0, 0, 0);
      Exec(INIT, run).history == [Got(0, 0, octets, true), Added(e), Closed(0), Sent(Some(0), e, line)]
  {
    hide Exec, IsRun, ParseCommand, EraseAt;
    run := Connects();
    run := ReachesTheClient(run);
    run := Subscribes(run, octets, name);
    run := FindsTheClient(run);
    run := ReachesTheClient(run);
    run := Then(run, DoM(MInput(true, Fails, true), 0));
    run := Then(run, DoR(RInput(true, Some(line))));
    run := Then(run, DoR(RInput(true, None)));
  }
}
