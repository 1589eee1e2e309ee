/**
 A round of the message thread over the map of clients (the loop of `ListenMessages`), with the other threads
 in between, and what ends the loops of the three threads.
 */
module ServerRounds {
  import opened Bytes
  import opened Options
  import opened Subscriptions
  import opened Server
  import opened ServerSafety
  import opened ServerHistory
  import opened ServerRuns
  import opened ServerTurns
  import C = Clients
  import Ids
  import T = Streams

  // ----- one call of `Receive` -----

  /** What the loop makes of the code of a call: the tests of `ret`, in their order. */
  function ReceivedBy(o: T.Outcome): Received {
    if o.code == T.READ_SUCCEED || o.code == T.READ_SUCCEED_DATA_AVAILABLE then
      Message(if o.message.Some? then o.message.value else [], o.code == T.READ_SUCCEED_DATA_AVAILABLE)
    else if o.code < 0 then Fails
    else if o.code == T.HANDSHAKE_SUCCEED then HandshakeDone
    else Waits
  }

  /** Where the thread will be when the command or the disconnect that it is busy with is over. */
  function Then(m: MPc): MPc {
    match m
    case MWantAdd(id, _, again) => Resume(id, again)
    case MAdding(id, _, again) => Resume(id, again)
    case MSignalling(id, again) => Resume(id, again)
    case MWantDel(id, _, again) => Resume(id, again)
    case MScanning(id, _, _, again) => Resume(id, again)
    case MReleasingLogs(id, again) => Resume(id, again)
    case MWantPurge(id) => MAt(id + 1)
    case MPurging(id, _) => MAt(id + 1)
    case MPurged(id) => MAt(id + 1)
    case MErasing(id) => MAt(id + 1)
    case _ => m
  }

  predicate Busy(m: MPc) {
    Serving(m).Some? && !m.MServing?
  }

  /**
   The loop does what the call's code asks for: the message, if there is one, is handed on as it is; the call is
   repeated exactly for the two codes that ask for it; and a failure closes the connection and purges the client.
   */
  lemma LoopFollowsReceive(s: State, c: T.Conn, io: T.Io, openOk: bool, key: int)
    requires s.m.MServing?
    ensures var o, id := T.Receive(c, io), s.m.id;
      var n := MStep(s, MInput(true, ReceivedBy(o), openOk), key);
      && Then(n.m) == (if C.Repeats(o.code) then MServing(id) else MAt(id + 1))
      && (o.code < 0 <==> n.m == MWantPurge(id))
      && n.history == s.history + (if o.message.Some? then [GotFrom(ClientAt(s, id), o.message.value, openOk)]
                                   else if o.code < 0 then [Closed(ClientAt(s, id).number)]
                                   else [])
  {
    hide ParseCommand, ClientAt, GotFrom, T.Receive;
    MessageCodes(c, io);
    assert s.history + [] == s.history;
  }

  lemma MessageCodes(c: T.Conn, io: T.Io)
    ensures var o := T.Receive(c, io);
      && (o.message.Some? <==> o.code == T.READ_SUCCEED || o.code == T.READ_SUCCEED_DATA_AVAILABLE)
      && (o.code >= 0 ==> o.code <= T.HANDSHAKE_SUCCEED)
  {
  }

  lemma MKeepsThen(s: State, input: MInput, key: int)
    requires Busy(s.m)
    ensures Then(MStep(s, input, key).m) == Then(s.m)
  {
    hide ParseCommand, EraseAt, Matches, ClientAt, MVisit, MServe, MPush, MScan, MPurge;
    match s.m
    case MTop => case MWantFirst => case MChecking => case MWaiting => case MWoken => case MSnapshot =>
    case MSelecting => case MWantSecond => case MAt(_) => case MServing(_) => case MWantAdd(_, _, _) =>
    case MAdding(_, _, _) => case MSignalling(_, _) => case MWantDel(_, _, _) => case MScanning(_, _, _, _) =>
    case MReleasingLogs(_, _) => case MWantPurge(_) => case MPurging(_, _) => case MPurged(_) =>
    case MErasing(_) => case MReleasing => case MDone =>
  }

  /** In the middle of its round no other thread moves the message thread or touches the map. */
  lemma OthersLeaveTheRound(s: State, l: Label)
    requires Safe(s) && Enabled(s, l) && !l.DoM? && MHoldsClients(s.m)
    ensures Apply(s, l).m == s.m && Apply(s, l).clients == s.clients
  {
    hide AStep, RStep, ACan, RCan, Keys, Cursors, History, Isolated, Requested, Closings, Obedient, Names, Wake;
    match l
    case DoA(ok) => AFlow(s, ok);
    case DoR(input) => RShared(s, input);
    case _ =>
  }

  lemma ThenStep(s: State, l: Label)
    requires Safe(s) && Enabled(s, l) && Busy(s.m)
    ensures Then(Apply(s, l).m) == Then(s.m)
  {
    hide Safe, MStep, AStep, RStep, Then, Enabled;
    if l.DoM? {
      MKeepsThen(s, l.minput, l.key);
    } else {
      OthersLeaveTheRound(s, l);
    }
  }

  /** Whatever happens in between, the thread comes back to where the code of the call sent it. */
  lemma {:induction false} CommandReturns(s: State, run: seq<Label>)
    requires Safe(s) && IsRun(s, run)
    requires forall k | 0 <= k < |run| :: Busy(Exec(s, run[..k]).m)
    ensures Then(Exec(s, run).m) == Then(s.m)
    ensures !Busy(Exec(s, run).m) ==> Exec(s, run).m == Then(s.m)
    decreases |run|
  {
    hide Safe, Apply, Enabled, IsRun;
    if run != [] {
      Last(s, run);
      var before := run[..|run| - 1];
      forall k | 0 <= k < |before|
        ensures Busy(Exec(s, before[..k]).m)
      {
        assert before[..k] == run[..k];
      }
      CommandReturns(s, before);
      SafeAlong(s, before);
      ThenStep(Exec(s, before), run[|run| - 1]);
    }
  }

  // ----- all clients in turn -----

  /** The key from which the iterator has still to go on. */
  function Ahead(m: MPc): Option<int> {
    if m.MAt? then Some(m.from)
    else if Serving(m).Some? then Some(Serving(m).value + 1)
    else None
  }

  /** Step `j` of the run turns to the client `k`: it is served when its socket is readable. */
  ghost predicate TurnOf(s: State, run: seq<Label>, j: nat, k: int) {
    && j < |run| && run[j].DoM?
    && var before, after := Exec(s, run[..j]), Exec(s, run[..j + 1]);
      && before.m.MAt? && before.m.from <= k && k in before.clients
      && after.m == (if run[j].minput.ready then MServing(k) else MAt(k + 1))
  }

  ghost predicate Visited(s: State, run: seq<Label>, k: int) {
    exists j: nat :: TurnOf(s, run, j, k)
  }

  /** The iterator stays behind the client that is served until it moves on by one. */
  lemma MStaysAhead(s: State, input: MInput, key: int)
    requires Serving(s.m).Some?
    ensures Ahead(MStep(s, input, key).m) == Ahead(s.m)
  {
    hide ParseCommand, EraseAt, Matches, ClientAt, MVisit, MPush, MScan, MPurge;
    match s.m
    case MTop => case MWantFirst => case MChecking => case MWaiting => case MWoken => case MSnapshot =>
    case MSelecting => case MWantSecond => case MAt(_) => case MServing(_) => case MWantAdd(_, _, _) =>
    case MAdding(_, _, _) => case MSignalling(_, _) => case MWantDel(_, _, _) => case MScanning(_, _, _, _) =>
    case MReleasingLogs(_, _) => case MWantPurge(_) => case MPurging(_, _) => case MPurged(_) =>
    case MErasing(_) => case MReleasing => case MDone =>
  }

  lemma VisitTurns(s: State, ready: bool, key: int, k: int)
    requires s.m.MAt? && s.m.from <= k && k in s.clients
    ensures var n := MVisit(s, s.m.from, ready, key);
      || (Ahead(n.m).Some? && Ahead(n.m).value <= k)
      || n.m == if ready then MServing(k) else MAt(k + 1)
  {
  }

  /** One step of a round, seen from a client that has not had its turn. */
  lemma RoundStep(s: State, l: Label, k: int)
    requires Safe(s) && Enabled(s, l) && Ahead(s.m).Some? && Ahead(s.m).value <= k && k in s.clients
    ensures var n := Apply(s, l);
      || (k in n.clients && Ahead(n.m).Some? && Ahead(n.m).value <= k)
      || (l.DoM? && s.m.MAt? && n.m == if l.minput.ready then MServing(k) else MAt(k + 1))
  {
    hide Safe, AStep, RStep, ACan, RCan, MVisit, MServe, MPush, MScan, MPurge;
    if !l.DoM? {
      OthersLeaveTheRound(s, l);
    } else {
      MShared(s, l.minput, l.key);
      if s.m.MAt? {
        VisitTurns(s, l.minput.ready, l.key, k);
      } else {
        MStaysAhead(s, l.minput, l.key);
      }
    }
  }

  lemma {:induction false} RoundGoesOn(s: State, run: seq<Label>, k: int)
    requires Safe(s) && IsRun(s, run) && Ahead(s.m).Some? && Ahead(s.m).value <= k && k in s.clients
    requires forall i | 0 <= i < |run| :: Ahead(Exec(s, run[..i]).m).Some?
    ensures var n := Exec(s, run);
      Visited(s, run, k) || (k in n.clients && Ahead(n.m).Some? && Ahead(n.m).value <= k)
    decreases |run|
  {
    hide Safe, Apply, Enabled, IsRun, Exec, Ahead;
    if run == [] {
      ExecNothing(s, run);
    } else {
      Last(s, run);
      var last := |run| - 1;
      var before := run[..last];
      forall i | 0 <= i < last
        ensures Ahead(Exec(s, before[..i]).m).Some?
      {
        assert before[..i] == run[..i];
      }
      RoundGoesOn(s, before, k);
      SafeAlong(s, before);
      if Visited(s, before, k) {
        var j: nat :| TurnOf(s, before, j, k);
        assert before[..j] == run[..j] && before[..j + 1] == run[..j + 1];
        assert TurnOf(s, run, j, k);
      } else {
        RoundStep(Exec(s, before), run[last], k);
        assert run[..last + 1] == run;
        if !(k in Exec(s, run).clients && Ahead(Exec(s, run).m).Some? && Ahead(Exec(s, run).m).value <= k) {
          AheadAtMAt(Exec(s, before).m);
          assert TurnOf(s, run, last, k);
        }
      }
    }
  }

  lemma ExecNothing(s: State, run: seq<Label>)
    requires run == []
    ensures Exec(s, run) == s
  {
  }

  lemma AheadAtMAt(m: MPc)
    requires m.MAt?
    ensures Ahead(m) == Some(m.from)
  {
  }

  /** The steps of a round before its last. */
  ghost predicate Round(s: State, run: seq<Label>) {
    Safe(s) && IsRun(s, run) && forall i | 0 <= i < |run| :: Ahead(Exec(s, run[..i]).m).Some?
  }

  /**
   Whatever happens in between, every client that is in the map when a round begins has its turn before the
   round ends, also when others fail and are erased on the way.
   */
  lemma EveryClientHasItsTurn(s: State, input: MInput, key: int, run: seq<Label>, k: int)
    requires Safe(s) && s.m.MWantSecond? && MCan(s) && k in s.clients
    requires Round(MStep(s, input, key), run) && Exec(MStep(s, input, key), run).m.MReleasing?
    ensures Visited(MStep(s, input, key), run, k)
  {
    hide Cursors, History, Isolated, Requested, Closings, Obedient, Names, Wake, IsRun, Exec, Visited;
    RoundGoesOn(MStep(s, input, key), run, k);
  }

  lemma AheadGrows(s: State, l: Label)
    requires Safe(s) && Enabled(s, l) && Ahead(s.m).Some?
    ensures Ahead(Apply(s, l).m).Some? ==> Ahead(s.m).value <= Ahead(Apply(s, l).m).value
  {
    hide Safe, AStep, RStep, ACan, RCan, MServe, MPush, MScan, MPurge;
    if !l.DoM? {
      OthersLeaveTheRound(s, l);
    } else if !s.m.MAt? {
      MStaysAhead(s, l.minput, l.key);
    }
  }

  lemma TurnMovesOn(s: State, run: seq<Label>, j: nat, k: int)
    requires TurnOf(s, run, j, k) && |run| == j + 1
    ensures Ahead(Exec(s, run).m) == Some(k + 1)
  {
    hide Exec;
    assert run[..j + 1] == run;
  }

  lemma {:induction false} AheadOfTurn(s: State, run: seq<Label>, j: nat, k: int)
    requires Round(s, run) && Ahead(Exec(s, run).m).Some? && TurnOf(s, run, j, k)
    ensures k < Ahead(Exec(s, run).m).value
    decreases |run|
  {
    hide Safe, Apply, Enabled, IsRun, Exec, Ahead;
    if |run| == j + 1 {
      TurnMovesOn(s, run, j, k);
    } else {
      var last := |run| - 1;
      var before := run[..last];
      Last(s, run);
      forall i: nat | i <= last
        ensures before[..i] == run[..i]
      {
      }
      assert Ahead(Exec(s, before).m).Some?;
      AheadOfTurn(s, before, j, k);
      SafeAlong(s, before);
      AheadGrows(Exec(s, before), run[last]);
    }
  }

  /** In a round each client has at most one turn, and the turns come in the order of the ids. */
  lemma TurnsAscend(s: State, run: seq<Label>, j: nat, k: int, j': nat, k': int)
    requires Round(s, run) && TurnOf(s, run, j, k) && TurnOf(s, run, j', k') && j < j'
    ensures k < k'
  {
    hide Safe, Apply, Enabled, Exec;
    var front := run[..j'];
    forall i: nat | i <= j'
      ensures front[..i] == run[..i]
    {
    }
    RunFront(s, run, j');
    AheadOfTurn(s, front, j, k);
  }

  lemma {:induction false} RunFront(s: State, run: seq<Label>, j: nat)
    requires IsRun(s, run) && j <= |run|
    ensures IsRun(s, run[..j])
    decreases |run|
  {
    hide Enabled, Exec;
    if j < |run| {
      RunFront(s, run[..|run| - 1], j);
      assert run[..|run| - 1][..j] == run[..j];
    } else {
      assert run[..j] == run;
    }
  }

  // ----- all entries in turn -----

  /** The place of the reader's iterator in the list. */
  function Place(r: RPc): Option<nat> {
    match r
    case RVisiting(i) => Some(i)
    case RFinding(i) => Some(i)
    case RFound(i, _) => Some(i)
    case RSending(i, _, _) => Some(i)
    case RExcepting(i) => Some(i)
    case _ => None
  }

  /** The reader has `n` entries of the list before it; the visit to the first of them has not begun. */
  predicate Before(s: State, n: nat) {
    Place(s.r).Some? && var left := |s.logs| - Place(s.r).value; left > n || (left == n && s.r.RVisiting?)
  }

  /** Step `j` of the run is the visit to entry `k` of the list at its start: it is read when it is readable. */
  ghost predicate VisitTo(s: State, run: seq<Label>, j: nat, k: nat) {
    && j < |run| && run[j].DoR? && k < |s.logs|
    && var before, after := Exec(s, run[..j]), Exec(s, run[..j + 1]);
      && before.r.RVisiting? && before.r.i < |before.logs| && before.logs[before.r.i] == s.logs[k]
      && |before.logs| - before.r.i == |s.logs| - k
      && after.r == if run[j].rinput.flag then RFinding(before.r.i) else RExcepting(before.r.i)
  }

  lemma RMovesOn(s: State, input: RInput, n: nat)
    requires CursorR(s) && Before(s, n) && n > 0
    ensures var t := RStep(s, input);
      Before(t, n)
      || (s.r.RVisiting? && |s.logs| - s.r.i == n && t.r == if input.flag then RFinding(s.r.i) else RExcepting(s.r.i))
  {
    hide SessionOf;
    match s.r
    case RTop => case RWantFirst => case RChecking => case RWaiting => case RWoken => case RSnapshot =>
    case RSelecting => case RWantSecond => case RVisiting(_) => case RFinding(_) => case RFound(_, _) =>
    case RSending(_, _, _) => case RExcepting(_) => case RReleasing => case RDone =>
  }

  lemma PassMovesOn(s: State, l: Label, n: nat)
    requires Safe(s) && Enabled(s, l) && Before(s, n) && n > 0
    ensures var t := Apply(s, l);
      Before(t, n)
      || (l.DoR? && s.r.RVisiting? && |s.logs| - s.r.i == n
          && t.r == if l.rinput.flag then RFinding(s.r.i) else RExcepting(s.r.i))
  {
    hide Keys, Locks, Served, CursorM, CursorR, History, Isolated, Requested, Closings, Obedient, Names, Wake;
    hide AStep, MStep, RStep, ACan, MCan, RCan;
    if l.DoR? {
      RMovesOn(s, l.rinput, n);
    } else {
      OthersLeaveThePass(s, l);
    }
  }

  lemma PlaceOfPass(all: seq<Entry>, sent: seq<Delivery>, vs: seq<Visit>, v: Visit, s: State)
    requires InPass(all, sent, vs, v, s) && s.r.RVisiting?
    ensures s.r.i <= |s.logs| && |vs| <= |all| && s.logs[s.r.i..] == all[|vs|..]
  {
    hide Kept, Lines, Deliveries;
  }

  lemma {:induction false} VisitOrBefore(s: State, run: seq<Label>, k: nat) returns (j: nat)
    requires Safe(s) && IsRun(s, run) && s.r == RVisiting(0) && k < |s.logs|
    requires forall i | 0 <= i < |run| :: !Exec(s, run[..i]).r.RReleasing?
    ensures VisitTo(s, run, j, k) || Before(Exec(s, run), |s.logs| - k)
    decreases |run|
  {
    hide Safe, Apply, Enabled, IsRun, Exec, Before, InPass;
    if run == [] {
      j := 0;
      AtTheStart(s, run, k);
    } else {
      Last(s, run);
      var last := |run| - 1;
      var front := run[..last];
      forall i: nat | i <= last
        ensures front[..i] == run[..i]
      {
      }
      j := VisitOrBefore(s, front, k);
      SafeAlong(s, front);
      if VisitTo(s, front, j, k) {
        assert VisitTo(s, run, j, k);
      } else {
        var b := Exec(s, front);
        PassMovesOn(b, run[last], |s.logs| - k);
        if !Before(Exec(s, run), |s.logs| - k) {
          var vs, v := PassGoesOn(s, front);
          PlaceOfPass(s.logs, Deliveries(s.history), vs, v, b);
          assert b.logs[b.r.i] == b.logs[b.r.i..][0] == s.logs[k..][0] == s.logs[k];
          assert run[..last + 1] == run;
          j := last;
        }
      }
    }
  }

  lemma AtTheStart(s: State, run: seq<Label>, k: nat)
    requires s.r == RVisiting(0) && run == [] && k < |s.logs|
    ensures Before(Exec(s, run), |s.logs| - k)
  {
  }

  /** Whatever happens in between, a pass visits every entry of its list, and reads those that are readable. */
  lemma EveryEntryHasItsVisit(s: State, run: seq<Label>, k: nat) returns (j: nat)
    requires Safe(s) && IsRun(s, run) && s.r == RVisiting(0) && k < |s.logs|
    requires Exec(s, run).r.RReleasing? && forall i | 0 <= i < |run| :: !Exec(s, run[..i]).r.RReleasing?
    ensures VisitTo(s, run, j, k)
  {
    hide Safe, IsRun, Exec, VisitTo;
    j := VisitOrBefore(s, run, k);
  }

  // ----- accepts -----

  /** The accepts of a run that have succeeded before a stop was asked for. */
  function Accepts(s: State, run: seq<Label>): nat
    decreases |run|
  {
    if run == [] then 0
    else
      var before, l := run[..|run| - 1], run[|run| - 1];
      var b := Exec(s, before);
      Accepts(s, before) + if b.a.AAccepting? && !b.stop && l == DoA(true) then 1 else 0
  }

  /** A connection that has been accepted and is not yet in the map. */
  function Pending(a: APc): nat {
    if a.AWantClients? || a.AGenerating? || a.AInserting? then 1 else 0
  }

  lemma AAdmits(s: State, ok: bool)
    requires s.a.AGenerating? ==> Ids.FirstFree(s.clients.Keys, s.idCounter) - s.idCounter < Ids.INT_MAX
    ensures var n := AStep(s, ok);
      n.nextSession + Pending(n.a)
      == s.nextSession + Pending(s.a) + if s.a.AAccepting? && !s.stop && ok then 1 else 0
  {
    hide Ids.FirstFree;
    match s.a
    case AAccepting => case AWantClients => case AGenerating => case AInserting(_) => case ASignalling =>
    case AReleasing => case AWantClear => case AClearing => case AReleasingLast => case ADone =>
  }

  lemma OthersAdmitNobody(s: State, l: Label)
    requires !l.DoA?
    ensures Apply(s, l).nextSession == s.nextSession && Apply(s, l).a == s.a
  {
    hide MStep, RStep;
    match l
    case DoM(input, key) => MFrame(s, input, key);
    case DoR(input) => RAdmits(s, input);
    case _ =>
  }

  lemma RAdmits(s: State, input: RInput)
    ensures RStep(s, input).nextSession == s.nextSession && RStep(s, input).a == s.a
  {
    hide EraseAt, SessionOf;
  }

  /** In every run each successful accept becomes exactly one connection in the map, and nothing else does. */
  lemma {:induction false} SessionsAreAccepts(run: seq<Label>)
    requires IsRun(INIT, run)
    ensures Exec(INIT, run).nextSession + Pending(Exec(INIT, run).a) == Accepts(INIT, run)
    decreases |run|
  {
    hide AStep, MStep, RStep, Enabled, Ids.FirstFree;
    if run != [] {
      var before, l := run[..|run| - 1], run[|run| - 1];
      SessionsAreAccepts(before);
      var b := Exec(INIT, before);
      if l.DoA? {
        if b.a.AGenerating? {
          GeneratedIdIsFree(before, l.ok);
        }
        AAdmits(b, l.ok);
      } else {
        OthersAdmitNobody(b, l);
      }
    }
  }

  // ----- the end of the threads -----

  /** The message thread is at the top of its loop, or has left it. */
  predicate LastM(m: MPc) { m.MTop? || m.MDone? }

  /** The reader is at the top of its loop, or has left it. */
  predicate LastR(r: RPc) { r.RTop? || r.RDone? }

  /** The acceptor is at the top of its loop, or clears the map and leaves. */
  predicate LastA(a: APc) { a.AAccepting? || a.AWantClear? || a.AClearing? || a.AReleasingLast? || a.ADone? }

  lemma AStops(s: State, ok: bool)
    requires s.stop
    ensures AStep(s, ok).stop && (LastA(s.a) ==> LastA(AStep(s, ok).a) && AStep(s, ok).a != AAccepting)
  {
    hide Ids.FirstFree;
    match s.a
    case AAccepting => case AWantClients => case AGenerating => case AInserting(_) => case ASignalling =>
    case AReleasing => case AWantClear => case AClearing => case AReleasingLast => case ADone =>
  }

  lemma MStops(s: State, input: MInput, key: int)
    requires s.stop
    ensures MStep(s, input, key).stop && (LastM(s.m) ==> MStep(s, input, key).m == MDone)
  {
    hide ParseCommand, EraseAt, Matches, ClientAt, MVisit, MServe, MPush, MScan, MPurge;
    match s.m
    case MTop => case MWantFirst => case MChecking => case MWaiting => case MWoken => case MSnapshot =>
    case MSelecting => case MWantSecond => case MAt(_) => case MServing(_) => case MWantAdd(_, _, _) =>
    case MAdding(_, _, _) => case MSignalling(_, _) => case MWantDel(_, _, _) => case MScanning(_, _, _, _) =>
    case MReleasingLogs(_, _) => case MWantPurge(_) => case MPurging(_, _) => case MPurged(_) =>
    case MErasing(_) => case MReleasing => case MDone =>
  }

  lemma RStops(s: State, input: RInput)
    requires s.stop
    ensures RStep(s, input).stop && RStep(s, input).a == s.a && (LastR(s.r) ==> RStep(s, input).r == RDone)
  {
    hide EraseAt, SessionOf;
    match s.r
    case RTop => case RWantFirst => case RChecking => case RWaiting => case RWoken => case RSnapshot =>
    case RSelecting => case RWantSecond => case RVisiting(_) => case RFinding(_) => case RFound(_, _) =>
    case RSending(_, _, _) => case RExcepting(_) => case RReleasing => case RDone =>
  }

  lemma StopStep(s: State, l: Label)
    requires s.stop && Enabled(s, l)
    ensures var n := Apply(s, l);
      && n.stop
      && (LastM(s.m) ==> LastM(n.m) && n.m == (if l.DoM? then MDone else s.m))
      && (LastR(s.r) ==> LastR(n.r) && n.r == (if l.DoR? then RDone else s.r))
      && (LastA(s.a) ==> LastA(n.a) && (if l.DoA? then n.a != AAccepting else n.a == s.a))
  {
    hide AStep, MStep, RStep, ACan, MCan, RCan;
    match l
    case DoA(ok) => AStops(s, ok); AFrame(s, ok); AFlow(s, ok);
    case DoM(input, key) => MStops(s, input, key); MFrame(s, input, key); MShared(s, input, key);
    case DoR(input) => RStops(s, input); RShared(s, input);
    case _ =>
  }

  /**
   Once a stop is asked for, no thread begins another turn of its loop: from the top of the loop it goes to its
   end, and the acceptor clears the map first.
   */
  lemma {:induction false} StopIsHonoured(s: State, run: seq<Label>)
    requires s.stop && IsRun(s, run)
    ensures var n := Exec(s, run);
      && n.stop
      && (LastM(s.m) ==> LastM(n.m) && ((exists i | 0 <= i < |run| :: run[i].DoM?) ==> n.m == MDone))
      && (LastR(s.r) ==> LastR(n.r) && ((exists i | 0 <= i < |run| :: run[i].DoR?) ==> n.r == RDone))
      && (LastA(s.a) ==> LastA(n.a) && ((exists i | 0 <= i < |run| :: run[i].DoA?) ==> n.a != AAccepting))
    decreases |run|
  {
    hide Apply, Enabled, IsRun;
    if run != [] {
      Last(s, run);
      var last := |run| - 1;
      StopIsHonoured(s, run[..last]);
      StopStep(Exec(s, run[..last]), run[last]);
    }
  }
}
