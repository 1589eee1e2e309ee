/** What holds in every state of every run of the server. */
module ServerRuns {
  import opened Bytes
  import opened Options
  import opened Subscriptions
  import opened Server
  import opened ServerSafety
  import opened ServerHistory
  import Ids

  /** The inductive invariant. */
  ghost predicate Safe(s: State) {
    && Locks(s) && Keys(s) && Cursors(s) && History(s) && Isolated(s) && Requested(s) && Closings(s)
    && Obedient(s) && Names(s) && Wake(s)
  }

  lemma InitIsSafe()
    ensures Safe(INIT)
  {
  }

  lemma AKeepsSafe(s: State, ok: bool)
    requires Safe(s) && ACan(s)
    ensures Safe(AStep(s, ok))
  {
    hide AStep, ACan, Locks, Keys, Cursors, History, Isolated, Requested, Closings, Obedient, Names, Wake;
    AKeepsLocks(s, ok);
    AKeepsKeys(s, ok);
    AKeepsCursors(s, ok);
    AKeepsHistory(s, ok);
    AKeepsIsolated(s, ok);
    AKeepsRequested(s, ok);
    AKeepsClosings(s, ok);
    AKeepsObedient(s, ok);
    AKeepsNames(s, ok);
    AKeepsWake(s, ok);
  }

  lemma MKeepsSafe(s: State, input: MInput, key: int)
    requires Safe(s) && MCan(s)
    ensures Safe(MStep(s, input, key))
  {
    hide MStep, MCan, Locks, Keys, CursorM, CursorR, Served, History, Isolated, Requested, Closings, Obedient;
    hide Names, Wake;
    MKeepsLocks(s, input, key);
    MKeepsKeys(s, input, key);
    MKeepsCursors(s, input, key);
    MKeepsHistory(s, input, key);
    MKeepsIsolated(s, input, key);
    MKeepsRequested(s, input, key);
    MKeepsClosings(s, input, key);
    MKeepsObedient(s, input, key);
    MKeepsNames(s, input, key);
    MKeepsWake(s, input, key);
  }

  lemma RKeepsSafe(s: State, input: RInput)
    requires Safe(s) && RCan(s)
    ensures Safe(RStep(s, input))
  {
    hide RStep, RCan, Locks, Keys, CursorM, CursorR, Served, Recorded, Fresh;
    hide Isolated, Requested, Closings, Obedient, Names, Wake;
    RKeepsLocks(s, input);
    RKeepsKeys(s, input);
    RKeepsCursors(s, input);
    RKeepsHistory(s, input);
    RKeepsIsolated(s, input);
    RKeepsRequested(s, input);
    RKeepsClosings(s, input);
    RKeepsObedient(s, input);
    RKeepsNames(s, input);
    RKeepsWake(s, input);
  }

  lemma StopKeepsSafe(s: State)
    requires Safe(s)
    ensures Safe(s.(stop := true))
  {
    hide Replay, Fresh, Without, SendsOk, OrphansOk, AddsAsked, Asked, AddsOpen, HasDots;
    hide LastOwn, Obeys, Passed, OwnedBy;
  }

  lemma SpuriousMKeepsSafe(s: State)
    requires Safe(s) && s.m == MWaiting
    ensures Safe(s.(m := MWoken))
  {
    hide Replay, Fresh, Without, SendsOk, OrphansOk, AddsAsked, Asked, AddsOpen, HasDots;
    hide LastOwn, Obeys, Passed, OwnedBy;
  }

  lemma SpuriousRKeepsSafe(s: State)
    requires Safe(s) && s.r == RWaiting
    ensures Safe(s.(r := RWoken))
  {
    hide Replay, Fresh, Without, SendsOk, OrphansOk, AddsAsked, Asked, AddsOpen, HasDots;
    hide LastOwn, Obeys, Passed, OwnedBy;
  }

  lemma StepKeepsSafe(s: State, l: Label)
    requires Safe(s) && Enabled(s, l)
    ensures Safe(Apply(s, l))
  {
    hide Safe, AStep, MStep, RStep, ACan, MCan, RCan;
    match l
    case DoA(ok) => AKeepsSafe(s, ok);
    case DoM(input, key) => MKeepsSafe(s, input, key);
    case DoR(input) => RKeepsSafe(s, input);
    case RequestStop => StopKeepsSafe(s);
    case SpuriousM => SpuriousMKeepsSafe(s);
    case SpuriousR => SpuriousRKeepsSafe(s);
  }

  /** The invariant holds after every run, whatever the interleaving and the environment. */
  lemma {:induction false} EveryRunIsSafe(run: seq<Label>)
    requires IsRun(INIT, run)
    ensures Safe(Exec(INIT, run))
    decreases |run|
  {
    hide Safe, Apply, Enabled;
    if run == [] {
      InitIsSafe();
    } else {
      EveryRunIsSafe(run[..|run| - 1]);
      StepKeepsSafe(Exec(INIT, run[..|run| - 1]), run[|run| - 1]);
    }
  }

  // ----- mutexes -----

  function Doer(l: Label): Option<Thread> {
    match l
    case DoA(_) => Some(Acceptor)
    case DoM(_, _) => Some(Messenger)
    case DoR(_) => Some(Reader)
    case _ => None
  }

  /** A mutex passes from nobody to a thread that takes it, and from a thread that releases it to nobody. */
  predicate Passes(was: Option<Thread>, now: Option<Thread>, doer: Option<Thread>) {
    now == was || (doer.Some? && ((was == None && now == doer) || (was == doer && now == None)))
  }

  lemma Owners(o: Option<Thread>)
    ensures o == None || o == Some(Acceptor) || o == Some(Messenger) || o == Some(Reader)
  {
    if o.Some? {
      match o.value
      case Acceptor => case Messenger => case Reader =>
    }
  }

  lemma OnlyTheOwnerUnlocks(run: seq<Label>, l: Label)
    requires IsRun(INIT, run) && Enabled(Exec(INIT, run), l)
    ensures var s, n := Exec(INIT, run), Apply(Exec(INIT, run), l);
      Passes(s.clientsOwner, n.clientsOwner, Doer(l)) && Passes(s.logsOwner, n.logsOwner, Doer(l))
  {
    hide IsRun, Exec, AStep, MStep, RStep, ACan, MCan, RCan;
    hide Keys, Cursors, History, Isolated, Requested, Closings, Obedient, Names, Wake;
    EveryRunIsSafe(run);
    var s := Exec(INIT, run);
    StepKeepsSafe(s, l);
    Owners(s.clientsOwner);
    Owners(s.logsOwner);
    Owners(Apply(s, l).clientsOwner);
    Owners(Apply(s, l).logsOwner);
    match l
    case DoA(ok) => AFrame(s, ok); AFlow(s, ok);
    case DoM(input, key) => MFrame(s, input, key); MShared(s, input, key);
    case DoR(input) => RFrame(s, input); RShared(s, input);
    case _ =>
  }

  predicate CanStep(s: State, t: Thread) {
    match t
    case Acceptor => ACan(s)
    case Messenger => MCan(s)
    case Reader => RCan(s)
  }

  predicate WantsClients(s: State, t: Thread) {
    match t
    case Acceptor => s.a.AWantClients? || s.a.AWantClear?
    case Messenger => s.m.MWantFirst? || s.m.MWoken? || s.m.MWantSecond?
    case Reader => false
  }

  predicate WantsLogs(s: State, t: Thread) {
    match t
    case Acceptor => false
    case Messenger => s.m.MWantAdd? || s.m.MWantDel? || s.m.MWantPurge?
    case Reader => s.r.RWantFirst? || s.r.RWoken? || s.r.RWantSecond?
  }

  /** An edge of the wait-for graph of the two mutexes. */
  predicate WaitsFor(s: State, t: Thread, u: Thread) {
    (WantsClients(s, t) && s.clientsOwner == Some(u)) || (WantsLogs(s, t) && s.logsOwner == Some(u))
  }

  /**
   Every path of the wait-for graph ends, after one edge or two, at a third thread that can step: there is
   no cycle.
   */
  lemma WaitingEndsAtARunner(run: seq<Label>, t: Thread, u: Thread)
    requires IsRun(INIT, run) && WaitsFor(Exec(INIT, run), t, u)
    ensures var s := Exec(INIT, run);
      && t != u && !CanStep(s, t)
      && (CanStep(s, u) || exists v :: v != t && v != u && WaitsFor(s, u, v) && CanStep(s, v))
  {
    hide IsRun, Exec, Keys, Cursors, History, Isolated, Requested, Closings, Obedient, Names, Wake;
    EveryRunIsSafe(run);
    var s := Exec(INIT, run);
    Owners(s.clientsOwner);
    Owners(s.logsOwner);
    if !CanStep(s, u) {
      assert WaitsFor(s, Messenger, Reader) && CanStep(s, Reader);
    }
  }

  /** A thread that cannot step waits on a condition variable, has ended, has used up the ids, or waits for a mutex. */
  lemma BlockedMeans(run: seq<Label>, t: Thread)
    requires IsRun(INIT, run) && !CanStep(Exec(INIT, run), t)
    ensures var s := Exec(INIT, run);
      || (t.Acceptor? && (s.a.ADone? || s.a.AAccepting?)) || (t.Messenger? && (s.m.MDone? || s.m.MWaiting?))
      || (t.Reader? && (s.r.RDone? || s.r.RWaiting?)) || exists u :: WaitsFor(s, t, u)
  {
    hide IsRun, Exec, Keys, Cursors, History, Isolated, Requested, Closings, Obedient, Names, Wake;
    EveryRunIsSafe(run);
    var s := Exec(INIT, run);
    if WantsClients(s, t) {
      assert WaitsFor(s, t, s.clientsOwner.value);
    } else if WantsLogs(s, t) {
      assert WaitsFor(s, t, s.logsOwner.value);
    }
  }

  /** When no thread can step, none of them waits for a mutex. */
  lemma NoDeadlock(run: seq<Label>)
    requires IsRun(INIT, run) && forall t :: !CanStep(Exec(INIT, run), t)
    ensures forall t, u :: !WaitsFor(Exec(INIT, run), t, u)
  {
    hide IsRun, Exec, CanStep, WaitsFor;
    var s := Exec(INIT, run);
    forall t, u | WaitsFor(s, t, u)
      ensures false
    {
      WaitingEndsAtARunner(run, t, u);
    }
  }

  // ----- wake-ups -----

  /**
   A thread that waits on a condition variable has nothing to do, or the other thread is about to signal it,
   holding the mutex.
   */
  lemma NoLostWakeUp(run: seq<Label>)
    requires IsRun(INIT, run)
    ensures var s := Exec(INIT, run);
      && (s.m.MWaiting? ==> s.clients == map[] || (s.a.ASignalling? && AStep(s, true).m.MWoken?))
      && (s.r.RWaiting? ==>
            s.logs == [] || (s.m.MSignalling? && forall input, key :: MStep(s, input, key).r.RWoken?))
  {
    hide IsRun, Exec, Locks, Keys, Cursors, History, Isolated, Requested, Closings, Obedient, Names;
    EveryRunIsSafe(run);
  }

  /**
   A thread that tests for work does so under the mutex, and begins to wait, which releases the mutex, if and
   only if there is none.
   */
  lemma IdleThreadsWait(run: seq<Label>, l: Label)
    requires IsRun(INIT, run) && Enabled(Exec(INIT, run), l)
    ensures var s := Exec(INIT, run);
      var n := Apply(s, l);
      && (l.DoM? && s.m.MChecking? ==>
        s.clientsOwner == Some(Messenger) && (n.m.MWaiting? <==> s.clients == map[])
        && n.clientsOwner == if s.clients == map[] then None else Some(Messenger))
      && (l.DoR? && s.r.RChecking? ==>
        s.logsOwner == Some(Reader) && (n.r.RWaiting? <==> s.logs == [])
        && n.logsOwner == if s.logs == [] then None else Some(Reader))
      && (n.m.MWaiting? ==> s.m.MWaiting? || (l.DoM? && s.m.MChecking?))
      && (n.r.RWaiting? ==> s.r.RWaiting? || (l.DoR? && s.r.RChecking?))
  {
    hide IsRun, Exec, Keys, Cursors, History, Isolated, Requested, Closings, Obedient, Names, Wake, Enabled;
    hide AStep, MStep, RStep;
    EveryRunIsSafe(run);
    var s := Exec(INIT, run);
    match l
    case DoA(ok) => AFrame(s, ok); AFlow(s, ok);
    case DoM(input, key) => MFlow(s, input, key); MShared(s, input, key); CheckTurns(s, input, key);
    case DoR(input) => RShared(s, input); RSharedHistory(s, input); CheckTurnsR(s, input);
    case _ =>
  }

  lemma CheckTurns(s: State, input: MInput, key: int)
    ensures var n := MStep(s, input, key);
      s.m.MChecking? ==>
        if s.clients == map[] then n.m == MWaiting && n.clientsOwner == None
        else n.m == MSnapshot && n.clientsOwner == s.clientsOwner
  {
    hide MVisit, MServe, MPush, MScan, MPurge;
  }

  lemma CheckTurnsR(s: State, input: RInput)
    ensures var n := RStep(s, input);
      s.r.RChecking? ==>
        if s.logs == [] then n.r == RWaiting && n.logsOwner == None
        else n.r == RSnapshot && n.logsOwner == s.logsOwner
  {
  }

  /** A thread that waits is moved by nothing but the signal for the first client or entry, or a spurious wake-up. */
  lemma WokenBySignals(run: seq<Label>, l: Label)
    requires IsRun(INIT, run) && Enabled(Exec(INIT, run), l)
    ensures var s := Exec(INIT, run);
      var n := Apply(s, l);
      && (s.m.MWaiting? ==>
        n.m == if l.SpuriousM? || (l.DoA? && s.a.ASignalling? && |s.clients| == 1) then MWoken else MWaiting)
      && (s.r.RWaiting? ==>
        n.r == if l.SpuriousR? || (l.DoM? && s.m.MSignalling? && |s.logs| == 1) then RWoken else RWaiting)
  {
    hide IsRun, Exec, Ids.FirstFree, ParseCommand, EraseAt, MVisit, MServe, MPush, MScan, MPurge;
  }

  // ----- ids -----

  /**
   Two probes suffice, the id is never -1, and it labels neither a client nor a subscription, although ids
   are reused: no accept is under way once the map has been cleared.
   */
  lemma GeneratedIdIsFree(run: seq<Label>, ok: bool)
    requires IsRun(INIT, run) && Exec(INIT, run).a.AGenerating?
    ensures var s := Exec(INIT, run);
      var n := AStep(s, ok);
      && n.a.AInserting? && s.idCounter <= n.a.id <= s.idCounter + 1 && n.a.id !in s.clients
      && !s.cleared && (forall e | e in s.logs :: e.clientId != n.a.id)
  {
    hide IsRun, Exec, Locks, Cursors, History, Requested, Closings, Obedient, Names, Wake, Ids.FirstFree;
    hide SendsOk, OrphansOk;
    EveryRunIsSafe(run);
    var s := Exec(INIT, run);
    Ids.TwoProbes(s.clients.Keys, s.idCounter);
  }

  // ----- subscriptions and clients -----

  /**
   Every subscription belongs to a client in the map, under that client's own id, and to its session, exactly
   until the map is cleared.
   */
  lemma SubscriptionsBelongToLiveClients(run: seq<Label>, e: Entry)
    requires IsRun(INIT, run) && e in Exec(INIT, run).logs
    ensures var s := Exec(INIT, run);
      && (e.clientId in s.clients && s.clients[e.clientId] == Session(e.clientId, e.session) <==> !s.cleared)
      && !HasDots(e.name)
  {
    hide IsRun, Exec, Locks, Cursors, History, Requested, Closings, Obedient, Wake, SendsOk, OrphansOk, HasDots;
    EveryRunIsSafe(run);
    var s := Exec(INIT, run);
    assert s.cleared || OwnedBy(e, s.clients);
  }

  /** The defensive branch of the reader is taken exactly when the map has been cleared. */
  lemma DefensiveBranchIff(run: seq<Label>, input: RInput)
    requires IsRun(INIT, run) && Exec(INIT, run).r.RFinding?
    ensures var s, n := Exec(INIT, run), RStep(Exec(INIT, run), input);
      if s.cleared then n.r.RVisiting? && |n.logs| == |s.logs| - 1
      else n.r.RFound? && n.logs == s.logs
  {
    hide IsRun, Exec, Locks, Keys, Served, CursorM, History, EraseAt;
    hide Requested, Closings, Obedient, Wake, Names, SendsOk, OrphansOk;
    EveryRunIsSafe(run);
    var s := Exec(INIT, run);
    assert s.cleared || OwnedBy(s.logs[s.r.i], s.clients);
  }

  /**
   A line that is about to be sent goes to the `Client` of the session that added its entry exactly until the
   map is cleared; and the connection of that client is still open exactly if, besides, the message thread is
   not waiting between its `Disconnect` and the purge.
   */
  lemma SendReachesIff(run: seq<Label>)
    requires IsRun(INIT, run) && Exec(INIT, run).r.RSending?
    ensures var s := Exec(INIT, run);
      && s.r.i < |s.logs|
      && var session := s.logs[s.r.i].session;
        && (SessionOf(s, s.r.id) == Some(session) <==> !s.cleared)
        && (SessionOf(s, s.r.id) == None <==> s.cleared)
        && (!s.cleared ==> (Closed(session) in s.history <==> s.m == MWantPurge(s.r.id)))
  {
    hide IsRun, Exec, Keys, History, Requested, Obedient, Wake, Names, SendsOk, OrphansOk, AddsOpen;
    EveryRunIsSafe(run);
    var s := Exec(INIT, run);
    var e := s.logs[s.r.i];
    assert s.cleared || OwnedBy(e, s.clients);
    if !s.cleared {
      assert s.clients[e.clientId].number == e.session;
      assert ClientAt(s, e.clientId).number == e.session;
      NotErasing(s, s.r.i);
    }
  }

  /** While an entry of that client is on the list, the client is not being erased. */
  lemma NotErasing(s: State, i: nat)
    requires CursorM(s) && i < |s.logs|
    ensures s.m != MErasing(s.logs[i].clientId)
  {
  }

  /**
   From the reader's `find` to its `Send`, no other thread touches the client that was found, although the
   reader does not own `clients_mutex`; only the clearing at shutdown does.
   */
  lemma LookupStaysValid(run: seq<Label>, l: Label)
    requires IsRun(INIT, run) && Enabled(Exec(INIT, run), l) && Doer(l) != Some(Reader)
    requires Exec(INIT, run).r.RFound? || Exec(INIT, run).r.RSending?
    ensures var s, n := Exec(INIT, run), Apply(Exec(INIT, run), l);
      && n.r == s.r && s.r.i < |s.logs| && n.logs == s.logs
      && (s.r.id in n.clients <==> !n.cleared)
      && (!n.cleared ==>
        && s.r.id in s.clients && n.clients[s.r.id] == s.clients[s.r.id]
        && s.clients[s.r.id].number == s.logs[s.r.i].session)
  {
    hide IsRun, Exec, AStep, MStep, ACan, MCan, History, Requested, Closings, Obedient, Names, Wake, Served;
    hide SendsOk, OrphansOk;
    EveryRunIsSafe(run);
    var s := Exec(INIT, run);
    var n := Apply(s, l);
    StepKeepsSafe(s, l);
    match l {
      case DoA(ok) => AFrame(s, ok); AFlow(s, ok);
      case DoM(input, key) => MFrame(s, input, key); MShared(s, input, key);
      case _ =>
    }
    assert s.cleared || OwnedBy(s.logs[s.r.i], s.clients);
    assert n.cleared || OwnedBy(n.logs[n.r.i], n.clients);
  }

  // ----- the list and the history -----

  /** The list is what the events leave, in the order of the additions; during a purge it is being filtered. */
  lemma ListRefinesHistory(run: seq<Label>)
    requires IsRun(INIT, run)
    ensures var s := Exec(INIT, run);
      && AscendingTo(Replay(s.history), s.nextSerial)
      && (s.m.MPurging? ==> Replay(s.history) == Without(s.logs, s.m.id))
      && (!s.m.MPurging? ==> s.logs == Replay(s.history))
  {
    hide IsRun, Exec, Locks, Keys, Cursors, Fresh, Isolated, Requested, Closings, Obedient, Names, Wake;
    hide Replay, Without;
    EveryRunIsSafe(run);
    var s := Exec(INIT, run);
    ReplayAscending(s.history, s.nextSerial);
  }

  /** What is added bears the id and the session of the client whose message asked for it. */
  lemma AddedByTheClientServed(run: seq<Label>, input: MInput, key: int)
    requires IsRun(INIT, run) && Exec(INIT, run).m.MAdding?
    ensures var s := Exec(INIT, run);
      var id := s.m.id;
      && id in s.clients && s.clientsOwner == Some(Messenger)
      && MStep(s, input, key).history
         == s.history + [Added(Entry(s.m.name, id, s.clients[id].number, s.nextSerial))]
  {
    hide IsRun, Exec, CursorM, CursorR, History, Isolated, Requested, Closings, Obedient, Names, Wake;
    EveryRunIsSafe(run);
  }

  /** A message is recorded, as it is, with the id and the session of the client whose turn it is. */
  lemma GotFromTheClientServed(run: seq<Label>, input: MInput, key: int)
    requires IsRun(INIT, run) && Exec(INIT, run).m.MServing? && input.received.Message?
    ensures var s := Exec(INIT, run);
      var id := s.m.id;
      && id in s.clients && s.clientsOwner == Some(Messenger)
      && MStep(s, input, key).history
         == s.history + [Got(id, s.clients[id].number, input.received.octets, input.openOk)]
  {
    hide IsRun, Exec, CursorM, CursorR, History, Isolated, Requested, Closings, Obedient, Names, Wake, ParseCommand;
    EveryRunIsSafe(run);
  }

  // ----- commands -----

  /** Events `i` and `j` are the message thread's, and it did nothing in between. */
  ghost predicate Consecutive(h: seq<Event>, i: nat, j: nat) {
    i < j < |h| && Own(h[i]) && Own(h[j]) && forall k | i < k < j :: !Own(h[k])
  }

  lemma {:induction false} LastOwnAt(h: seq<Event>, i: nat)
    requires i < |h| && Own(h[i]) && forall k | i < k < |h| :: !Own(h[k])
    ensures LastOwn(h) == Some(h[i])
    decreases |h|
  {
    if i < |h| - 1 {
      var front := h[..|h| - 1];
      assert front[i] == h[i] && forall k | i < k < |front| :: front[k] == h[k];
      LastOwnAt(front, i);
    }
  }

  /**
   Commands are obeyed, in every run: what follows a message among the events of the message thread is exactly
   what the message asks for. A `del` is followed by the deletion, for the id of its client and the name; an
   `add` whose file opens by the addition, for its client, its session and the name; and nothing is added or
   deleted otherwise.
   */
  lemma CommandsAreObeyed(run: seq<Label>, i: nat, j: nat)
    requires IsRun(INIT, run) && Consecutive(Exec(INIT, run).history, i, j)
    ensures var g, e := Exec(INIT, run).history[i], Exec(INIT, run).history[j];
      if g.Got? then
        match ParseCommand(g.message)
        case Ignore => !e.Added? && !e.Deleted?
        case Del(name) => e == Deleted(g.clientId, name)
        case Add(name) =>
          if g.openOk then e.Added? && e.entry == Entry(name, g.clientId, g.session, e.entry.serial)
          else !e.Added? && !e.Deleted?
      else !e.Added? && !e.Deleted?
  {
    hide IsRun, Exec, Locks, Keys, Cursors, History, Isolated, Requested, Closings, Names, Wake, ParseCommand, Serves;
    EveryRunIsSafe(run);
    var h := Exec(INIT, run).history;
    assert h[..j][i] == h[i];
    LastOwnAt(h[..j], i);
  }

  /** Nothing is added or deleted before the first message. */
  lemma MessagesComeFirst(run: seq<Label>, j: nat)
    requires IsRun(INIT, run) && j < |Exec(INIT, run).history|
    requires Exec(INIT, run).history[j].Added? || Exec(INIT, run).history[j].Deleted?
    ensures exists i: nat :: Consecutive(Exec(INIT, run).history, i, j) && Exec(INIT, run).history[i].Got?
  {
    hide IsRun, Exec, Locks, Keys, Cursors, History, Isolated, Requested, Closings, Names, Wake, ParseCommand, Serves;
    EveryRunIsSafe(run);
    var h := Exec(INIT, run).history;
    var i := LastOwnIs(h[..j]);
    assert forall k | i < k < j :: h[..j][k] == h[k];
    assert Consecutive(h, i, j);
  }

  lemma {:induction false} LastOwnIs(h: seq<Event>) returns (i: nat)
    requires LastOwn(h).Some?
    ensures i < |h| && Own(h[i]) && LastOwn(h) == Some(h[i]) && forall k | i < k < |h| :: !Own(h[k])
    decreases |h|
  {
    var last := |h| - 1;
    if Own(h[last]) {
      i := last;
    } else {
      i := LastOwnIs(h[..last]);
      assert forall k | i < k < last :: h[..last][k] == h[k];
    }
  }

  /** Every command has been obeyed when the message thread looks for the next message or the next client. */
  lemma CommandsAreServedToTheEnd(run: seq<Label>, i: nat) returns (j: nat)
    requires IsRun(INIT, run) && (Exec(INIT, run).m.MServing? || Exec(INIT, run).m.MAt?)
    requires i < |Exec(INIT, run).history| && Demands(Exec(INIT, run).history[i])
    ensures var h := Exec(INIT, run).history; Consecutive(h, i, j) && Answers(h[i], h[j])
  {
    hide IsRun, Exec, Locks, Keys, Cursors, History, Isolated, Requested, Closings, Names, Wake, Demands, Answers;
    EveryRunIsSafe(run);
    var h := Exec(INIT, run).history;
    DemandsAreOwn(h[i]);
    if forall k | i < k < |h| :: !Own(h[k]) {
      LastOwnAt(h, i);
      assert false;
    }
    j := i + 1;
    while !Own(h[j])
      invariant i < j < |h| && forall k | i < k < j :: !Own(h[k])
      invariant exists k :: j <= k < |h| && Own(h[k])
      decreases |h| - j
    {
      j := j + 1;
    }
    assert h[..j][i] == h[i] && forall k | i < k < j :: h[..j][k] == h[k];
    LastOwnAt(h[..j], i);
  }

  lemma DemandsAreOwn(e: Event)
    ensures Demands(e) ==> Own(e)
  {
  }

  /** When a command is obeyed, the list becomes what `LogServer.OnMessage` makes of it. */
  lemma CommandsAreOnMessage(run: seq<Label>, i: nat, j: nat)
    requires IsRun(INIT, run) && Consecutive(Exec(INIT, run).history, i, j)
    requires Demands(Exec(INIT, run).history[i])
    ensures var h := Exec(INIT, run).history;
      var g, e := h[i], h[j];
      var serial := if e.Added? then e.entry.serial else 0;
      Replay(h[..j + 1]) == Obeyed(Replay(h[..j]), g.message, g.clientId, g.session, serial, g.openOk)
  {
    hide IsRun, Exec, Replay, ParseCommand, RemoveFirst;
    CommandsAreObeyed(run, i, j);
    var h := Exec(INIT, run).history;
    assert h[..j + 1] == h[..j] + [h[j]];
    ReplaySnoc(h[..j], h[j]);
  }

  /** A deletion takes nothing from any other client. */
  lemma DeletionsAreOwn(run: seq<Label>, k: nat)
    requires IsRun(INIT, run) && k < |Exec(INIT, run).history| && Exec(INIT, run).history[k].Deleted?
    ensures var h := Exec(INIT, run).history;
      Without(Replay(h[..k + 1]), h[k].clientId) == Without(Replay(h[..k]), h[k].clientId)
  {
    hide IsRun, Exec, Replay, Without, RemoveFirst;
    var h := Exec(INIT, run).history;
    assert h[..k + 1] == h[..k] + [h[k]];
    ReplaySnoc(h[..k], h[k]);
    WithoutRemoveFirst(Replay(h[..k]), h[k].clientId, h[k].name);
  }

  // ----- sessions -----

  /** The entry was added by event `j` and has been on the list ever since. */
  ghost predicate LivesFrom(h: seq<Event>, j: int, e: Entry) {
    0 <= j < |h| && h[j] == Added(e) && forall k | j < k <= |h| :: e in Replay(h[..k])
  }

  lemma {:induction false} Origin(h: seq<Event>, e: Entry) returns (j: int)
    requires e in Replay(h)
    ensures LivesFrom(h, j, e)
    decreases |h|
  {
    hide Replay, RemoveFirst, Without, RemoveSerial;
    var last := |h| - 1;
    ReplayOf(h);
    var before := h[..last];
    if e in Replay(before) {
      j := Origin(before, e);
      forall k | j < k <= |h|
        ensures e in Replay(h[..k])
      {
        if k <= last {
          assert h[..k] == before[..k];
        } else {
          assert h[..k] == h;
        }
      }
    } else {
      DoAddsOnly(Replay(before), h[last], e);
      j := last;
      assert h[..last + 1] == h;
    }
  }

  lemma ReplayOf(h: seq<Event>)
    ensures h == [] ==> Replay(h) == []
    ensures h != [] ==> Replay(h) == Do(Replay(h[..|h| - 1]), h[|h| - 1])
  {
  }

  lemma {:induction false} RemoveFirstKeeps(l: seq<Entry>, id: int, name: seq<byte>, e: Entry)
    requires e in RemoveFirst(l, id, name) && Ascending(l)
    ensures e in l
    ensures Matches(e, id, name) ==> exists d :: d in l && Matches(d, id, name) && d.serial < e.serial
  {
    if !Matches(l[0], id, name) && e != l[0] {
      RemoveFirstKeeps(l[1..], id, name, e);
    }
  }

  /** Only an addition brings an entry to the list. */
  lemma DoAddsOnly(l: seq<Entry>, event: Event, e: Entry)
    requires e in Do(l, event) && e !in l
    ensures event == Added(e)
  {
    match event
    case Added(_) =>
    case Deleted(id, name) => RemoveFirstSubset(l, id, name, e);
    case Disconnected(id) => WithoutMeaning(l, id);
    case Erased(serial) => RemoveSerialSubset(l, serial, e);
    case Orphaned(serial) => RemoveSerialSubset(l, serial, e);
    case Cleared =>
    case Got(_, _, _, _) =>
    case Closed(_) =>
    case Sent(_, _, _) =>
  }

  /**
   The event takes the entry off the list: its client disconnects, its log has an exception, or it is the
   oldest entry that a `del` of its client names.
   */
  ghost predicate Removes(l: seq<Entry>, event: Event, e: Entry) {
    || event == Disconnected(e.clientId)
    || event == Erased(e.serial) || event == Orphaned(e.serial)
    || (event == Deleted(e.clientId, e.name)
        && forall d | d in l && Matches(d, e.clientId, e.name) :: e.serial <= d.serial)
  }

  lemma KeptIsNotRemoved(l: seq<Entry>, event: Event, e: Entry, bound: nat)
    requires AscendingTo(l, bound) && e in l && e in Do(l, event)
    ensures !Removes(l, event, e)
  {
    match event
    case Added(_) =>
    case Deleted(id, name) => RemoveFirstKeeps(l, id, name, e);
    case Disconnected(id) => WithoutMeaning(l, id);
    case Erased(serial) => RemoveSerialAscending(l, serial, bound);
    case Orphaned(serial) => RemoveSerialAscending(l, serial, bound);
    case Cleared =>
    case Got(_, _, _, _) =>
    case Closed(_) =>
    case Sent(_, _, _) =>
  }

  lemma LivingIsNotRemoved(h: seq<Event>, j: int, e: Entry, bound: nat)
    requires LivesFrom(h, j, e) && Fresh(h, bound)
    ensures forall k | j < k < |h| :: !Removes(Replay(h[..k]), h[k], e)
  {
    hide Replay, Do, Removes;
    forall k | j < k < |h|
      ensures !Removes(Replay(h[..k]), h[k], e)
    {
      assert e in Replay(h[..k]) && e in Replay(h[..k + 1]);
      assert h[..k + 1][..k] == h[..k];
      ReplayOf(h[..k + 1]);
      ReplayAscending(h[..k], bound);
      KeptIsNotRemoved(Replay(h[..k]), h[k], e, bound);
    }
  }

  /**
   Session isolation. Whatever the interleaving, a line that the reader sends goes to the `Client` of the
   connection that added its entry exactly when the map had not been cleared before, and otherwise to nobody.
   In either case nothing has removed the entry since that addition, which came before any closing of the
   connection: when the connection has been closed, its entries have not been purged yet.
   */
  lemma SessionIsolation(run: seq<Label>, i: nat)
    requires IsRun(INIT, run)
    requires i < |Exec(INIT, run).history| && Exec(INIT, run).history[i].Sent?
    ensures var h := Exec(INIT, run).history;
      var e := h[i].entry;
      && (h[i].reached == Some(e.session) <==> Cleared !in h[..i])
      && (h[i].reached == None <==> Cleared in h[..i])
      && exists j: nat ::
        && j < i && h[j] == Added(e) && Closed(e.session) !in h[..j]
        && forall k | j < k < i :: !Removes(Replay(h[..k]), h[k], e)
  {
    hide IsRun, Exec, Locks, Keys, Cursors, Recorded, OrphansOk, Owned, Requested, Names, Wake, Replay, Removes;
    EveryRunIsSafe(run);
    var s := Exec(INIT, run);
    var h, e := s.history, s.history[i].entry;
    var j := Origin(h[..i], e);
    LivingIsNotRemoved(h[..i], j, e, s.nextSerial);
    assert h[..i][..j] == h[..j];
    forall k | j < k < i
      ensures !Removes(Replay(h[..k]), h[k], e)
    {
      assert h[..i][..k] == h[..k];
      assert !Removes(Replay(h[..i][..k]), h[..i][k], e);
    }
  }

  lemma FirstAt(h: seq<Event>, j: nat, e: Event, k: nat)
    requires j <= |h| && k < |h| && e !in h[..j] && h[k] == e
    ensures j <= k
  {
    assert forall q | 0 <= q < j :: h[q] == h[..j][q];
  }

  /** A line sent after its connection was closed falls before the purge of that disconnect. */
  lemma LateLines(run: seq<Label>, i: nat)
    requires IsRun(INIT, run)
    requires i < |Exec(INIT, run).history| && Exec(INIT, run).history[i].Sent?
    requires Closed(Exec(INIT, run).history[i].entry.session) in Exec(INIT, run).history[..i]
    ensures var h := Exec(INIT, run).history;
      var e := h[i].entry;
      exists k: nat :: k < i && h[k] == Closed(e.session) && Disconnected(e.clientId) !in h[k..i]
  {
    hide IsRun, Exec, Replay;
    SessionIsolation(run, i);
    var h, e := Exec(INIT, run).history, Exec(INIT, run).history[i].entry;
    var j: nat :| j < i && h[j] == Added(e) && Closed(e.session) !in h[..j]
      && forall k | j < k < i :: !Removes(Replay(h[..k]), h[k], e);
    var k: nat :| k < i && h[..i][k] == Closed(e.session);
    FirstAt(h, j, Closed(e.session), k);
    forall q | k <= q < i
      ensures h[q] != Disconnected(e.clientId)
    {
      assert Removes(Replay(h[..q]), Disconnected(e.clientId), e);
    }
  }

  /** An entry is orphaned only after the map has been cleared. */
  lemma OrphansComeLast(run: seq<Label>, i: nat)
    requires IsRun(INIT, run)
    requires i < |Exec(INIT, run).history| && Exec(INIT, run).history[i].Orphaned?
    ensures Cleared in Exec(INIT, run).history[..i]
  {
    hide IsRun, Exec, Locks, Keys, Cursors, History, SendsOk, Owned, Requested, Closings, Obedient, Names, Wake;
    EveryRunIsSafe(run);
  }

  /** A line that reaches a session is of a log that a message of this same session has asked for before. */
  lemma LinesWereAskedFor(run: seq<Label>, i: nat, session: nat)
    requires IsRun(INIT, run)
    requires i < |Exec(INIT, run).history|
    requires Exec(INIT, run).history[i].Sent? && Exec(INIT, run).history[i].reached == Some(session)
    ensures var h := Exec(INIT, run).history; Asked(h[..i], session, h[i].entry.name)
  {
    hide IsRun, Exec, Locks, Keys, Cursors, History, OrphansOk, Owned, Names, Wake, Replay, Asked, Removes;
    EveryRunIsSafe(run);
    var h := Exec(INIT, run).history;
    SessionIsolation(run, i);
    var j: nat :| j < i && h[j] == Added(h[i].entry);
    AskedEarlier(h, j, i, session, h[i].entry.name);
  }

  lemma AskedEarlier(h: seq<Event>, j: nat, i: nat, session: nat, name: seq<byte>)
    requires j <= i <= |h| && Asked(h[..j], session, name)
    ensures Asked(h[..i], session, name)
  {
    hide ParseCommand;
    var k :| 0 <= k < j && h[..j][k].Got? && h[..j][k].session == session
          && ParseCommand(h[..j][k].message) == Add(name);
    assert h[..i][k] == h[..j][k];
  }
}
