/** The part of the inductive invariant about mutexes, ids, iterators and the owners of subscriptions. */
module ServerSafety {
  import opened Options
  import opened Subscriptions
  import opened Server
  import Ids

  // ----- mutexes -----

  predicate AHolds(a: APc) {
    !a.AAccepting? && !a.AWantClients? && !a.AWantClear? && !a.ADone?
  }

  predicate MHoldsClients(m: MPc) {
    !m.MTop? && !m.MWantFirst? && !m.MWaiting? && !m.MWoken? && !m.MSelecting? && !m.MWantSecond? && !m.MDone?
  }

  predicate MHoldsLogs(m: MPc) {
    m.MAdding? || m.MSignalling? || m.MScanning? || m.MReleasingLogs? || m.MPurging? || m.MPurged?
  }

  predicate RHolds(r: RPc) {
    !r.RTop? && !r.RWantFirst? && !r.RWaiting? && !r.RWoken? && !r.RSelecting? && !r.RWantSecond? && !r.RDone?
  }

  /** `clients_mutex` is owned by exactly the thread that is between its lock and its unlock. */
  predicate ClientsLock(s: State) {
    && (s.clientsOwner == Some(Acceptor) <==> AHolds(s.a))
    && (s.clientsOwner == Some(Messenger) <==> MHoldsClients(s.m))
    && s.clientsOwner != Some(Reader)
  }

  /** `logs_mutex` is owned by exactly the thread that is between its lock and its unlock. */
  predicate LogsLock(s: State) {
    && (s.logsOwner == Some(Messenger) <==> MHoldsLogs(s.m))
    && (s.logsOwner == Some(Reader) <==> RHolds(s.r))
    && s.logsOwner != Some(Acceptor)
  }

  predicate Locks(s: State) {
    ClientsLock(s) && LogsLock(s)
  }

  // ----- what a step of one thread leaves alone, and where it can lead -----

  lemma AFrame(s: State, ok: bool)
    ensures var n := AStep(s, ok);
      && n.r == s.r && n.logs == s.logs && n.logsOwner == s.logsOwner
      && n.nextSerial == s.nextSerial
      && n.history == (if s.a.AClearing? then s.history + [Cleared] else s.history)
  {
    hide Ids.FirstFree;
    match s.a
    case AAccepting => case AWantClients => case AGenerating => case AInserting(_) => case ASignalling =>
    case AReleasing => case AWantClear => case AClearing => case AReleasingLast => case ADone =>
  }

  lemma AFlow(s: State, ok: bool)
    ensures var n := AStep(s, ok);
      && (n.m == s.m || (s.m.MWaiting? && n.m.MWoken?))
      && (AHolds(s.a) || n.clients == s.clients) && (n.cleared == (s.cleared || s.a.AClearing?))
  {
    hide Ids.FirstFree;
    match s.a
    case AAccepting => case AWantClients => case AGenerating => case AInserting(_) => case ASignalling =>
    case AReleasing => case AWantClear => case AClearing => case AReleasingLast => case ADone =>
  }

  lemma MFrame(s: State, input: MInput, key: int)
    ensures var n := MStep(s, input, key);
      && n.a == s.a && n.idCounter == s.idCounter && n.nextSession == s.nextSession && n.cleared == s.cleared
  {
    hide ParseCommand, EraseAt, Matches, ClientAt, MVisit, MServe, MPush, MScan, MPurge;
    match s.m
    case MTop => case MWantFirst => case MChecking => case MWaiting => case MWoken => case MSnapshot =>
    case MSelecting => case MWantSecond => case MAt(_) => case MServing(_) => case MWantAdd(_, _, _) =>
    case MAdding(_, _, _) => case MSignalling(_, _) => case MWantDel(_, _, _) => case MScanning(_, _, _, _) =>
    case MReleasingLogs(_, _) => case MWantPurge(_) => case MPurging(_, _) => case MPurged(_) =>
    case MErasing(_) => case MReleasing => case MDone =>
  }

  /** What a step of the message thread does to the shared state, and from where. */
  lemma MShared(s: State, input: MInput, key: int)
    ensures var n := MStep(s, input, key);
      && n.clients == (if s.m.MErasing? then s.clients - {s.m.id} else s.clients)
      && (s.m.MAdding? || s.m.MScanning? || s.m.MPurging? || n.logs == s.logs)
      && (n.r == s.r || (s.r.RWaiting? && n.r.RWoken?))
  {
    hide ParseCommand, EraseAt, Matches, ClientAt, MVisit, MServe, MPush, MScan, MPurge;
    match s.m
    case MTop => case MWantFirst => case MChecking => case MWaiting => case MWoken => case MSnapshot =>
    case MSelecting => case MWantSecond => case MAt(_) => case MServing(_) => case MWantAdd(_, _, _) =>
    case MAdding(_, _, _) => case MSignalling(_, _) => case MWantDel(_, _, _) => case MScanning(_, _, _, _) =>
    case MReleasingLogs(_, _) => case MWantPurge(_) => case MPurging(_, _) => case MPurged(_) =>
    case MErasing(_) => case MReleasing => case MDone =>
  }

  lemma MSharedHistory(s: State, input: MInput, key: int)
    ensures var n := MStep(s, input, key);
      && (s.m.MAdding? || s.m.MScanning? || s.m.MWantPurge? || s.m.MServing? || n.history == s.history)
      && (s.m.MAdding? || n.nextSerial == s.nextSerial)
  {
    hide ParseCommand, EraseAt, Matches, ClientAt, MVisit, MServe, MPush, MScan, MPurge;
    match s.m
    case MTop => case MWantFirst => case MChecking => case MWaiting => case MWoken => case MSnapshot =>
    case MSelecting => case MWantSecond => case MAt(_) => case MServing(_) => case MWantAdd(_, _, _) =>
    case MAdding(_, _, _) => case MSignalling(_, _) => case MWantDel(_, _, _) => case MScanning(_, _, _, _) =>
    case MReleasingLogs(_, _) => case MWantPurge(_) => case MPurging(_, _) => case MPurged(_) =>
    case MErasing(_) => case MReleasing => case MDone =>
  }

  /** The client whose messages the message thread is serving. */
  function Serving(m: MPc): Option<int> {
    match m
    case MServing(id) => Some(id)
    case MWantAdd(id, _, _) => Some(id)
    case MAdding(id, _, _) => Some(id)
    case MSignalling(id, _) => Some(id)
    case MWantDel(id, _, _) => Some(id)
    case MScanning(id, _, _, _) => Some(id)
    case MReleasingLogs(id, _) => Some(id)
    case MWantPurge(id) => Some(id)
    case MPurging(id, _) => Some(id)
    case MPurged(id) => Some(id)
    case MErasing(id) => Some(id)
    case _ => None
  }

  lemma MServes(s: State, input: MInput, key: int)
    ensures var served := Serving(MStep(s, input, key).m);
      served.None? || (served == Serving(s.m) && !s.m.MErasing?) || (s.m.MAt? && served.value in s.clients)
  {
    hide ParseCommand, EraseAt, Matches, ClientAt, MPush, MScan, MPurge;
    match s.m
    case MTop => case MWantFirst => case MChecking => case MWaiting => case MWoken => case MSnapshot =>
    case MSelecting => case MWantSecond => case MAt(_) => case MServing(_) => case MWantAdd(_, _, _) =>
    case MAdding(_, _, _) => case MSignalling(_, _) => case MWantDel(_, _, _) => case MScanning(_, _, _, _) =>
    case MReleasingLogs(_, _) => case MWantPurge(_) => case MPurging(_, _) => case MPurged(_) =>
    case MErasing(_) => case MReleasing => case MDone =>
  }

  lemma MFlow(s: State, input: MInput, key: int)
    ensures var n := MStep(s, input, key);
      && (n.m.MScanning? ==> s.m.MWantDel? || s.m.MScanning?)
      && (n.m.MPurging? ==> s.m.MWantPurge? || s.m.MPurging?)
      && (n.m.MPurged? ==> s.m.MPurging?)
      && (n.m.MErasing? ==> s.m.MPurged?)
      && (n.m.MSignalling? ==> s.m.MAdding?)
      && (n.m.MWaiting? ==> s.m.MWaiting? || s.m.MChecking?)
  {
    hide ParseCommand, EraseAt, Matches, ClientAt, MPush, MScan, MPurge;
    match s.m
    case MTop => case MWantFirst => case MChecking => case MWaiting => case MWoken => case MSnapshot =>
    case MSelecting => case MWantSecond => case MAt(_) => case MServing(_) => case MWantAdd(_, _, _) =>
    case MAdding(_, _, _) => case MSignalling(_, _) => case MWantDel(_, _, _) => case MScanning(_, _, _, _) =>
    case MReleasingLogs(_, _) => case MWantPurge(_) => case MPurging(_, _) => case MPurged(_) =>
    case MErasing(_) => case MReleasing => case MDone =>
  }

  lemma RFrame(s: State, input: RInput)
    ensures var n := RStep(s, input);
      && n.a == s.a && n.idCounter == s.idCounter && n.nextSession == s.nextSession && n.cleared == s.cleared
  {
    hide EraseAt, SessionOf;
    match s.r
    case RTop => case RWantFirst => case RChecking => case RWaiting => case RWoken => case RSnapshot =>
    case RSelecting => case RWantSecond => case RVisiting(_) => case RFinding(_) => case RFound(_, _) =>
    case RSending(_, _, _) => case RExcepting(_) => case RReleasing => case RDone =>
  }

  lemma RShared(s: State, input: RInput)
    ensures var n := RStep(s, input);
      && n.m == s.m && n.clients == s.clients && n.clientsOwner == s.clientsOwner && n.nextSerial == s.nextSerial
      && (s.r.RFinding? || s.r.RExcepting? || n.logs == s.logs)
  {
    hide EraseAt, SessionOf;
    match s.r
    case RTop => case RWantFirst => case RChecking => case RWaiting => case RWoken => case RSnapshot =>
    case RSelecting => case RWantSecond => case RVisiting(_) => case RFinding(_) => case RFound(_, _) =>
    case RSending(_, _, _) => case RExcepting(_) => case RReleasing => case RDone =>
  }

  lemma RSharedHistory(s: State, input: RInput)
    ensures var n := RStep(s, input);
      && (s.r.RFinding? || s.r.RExcepting? || s.r.RSending? || n.history == s.history)
      && (n.r.RWaiting? ==> s.r.RWaiting? || s.r.RChecking?)
  {
    hide EraseAt, SessionOf;
    match s.r
    case RTop => case RWantFirst => case RChecking => case RWaiting => case RWoken => case RSnapshot =>
    case RSelecting => case RWantSecond => case RVisiting(_) => case RFinding(_) => case RFound(_, _) =>
    case RSending(_, _, _) => case RExcepting(_) => case RReleasing => case RDone =>
  }

  // ----- every step keeps the lock discipline -----

  lemma AKeepsClientsLock(s: State, ok: bool)
    requires ClientsLock(s) && ACan(s)
    ensures ClientsLock(AStep(s, ok))
  {
    hide Ids.FirstFree;
    match s.a
    case AAccepting => case AWantClients => case AGenerating => case AInserting(_) => case ASignalling =>
    case AReleasing => case AWantClear => case AClearing => case AReleasingLast => case ADone =>
  }

  /** What a step makes of an owner: the new holder, nobody after an unlock, or the same as before. */
  function Owner(was: Option<Thread>, t: Thread, held: bool, holds: bool): Option<Thread> {
    if holds then Some(t) else if held then None else was
  }

  lemma MOwnsClients(s: State, input: MInput, key: int)
    requires MHoldsClients(s.m) ==> s.clientsOwner == Some(Messenger)
    ensures var n := MStep(s, input, key);
      n.clientsOwner == Owner(s.clientsOwner, Messenger, MHoldsClients(s.m), MHoldsClients(n.m))
  {
    hide ParseCommand, EraseAt, Matches, ClientAt, MPush, MScan, MPurge;
    match s.m
    case MTop => case MWantFirst => case MChecking => case MWaiting => case MWoken => case MSnapshot =>
    case MSelecting => case MWantSecond => case MAt(_) => case MServing(_) => case MWantAdd(_, _, _) =>
    case MAdding(_, _, _) => case MSignalling(_, _) => case MWantDel(_, _, _) => case MScanning(_, _, _, _) =>
    case MReleasingLogs(_, _) => case MWantPurge(_) => case MPurging(_, _) => case MPurged(_) =>
    case MErasing(_) => case MReleasing => case MDone =>
  }

  lemma MOwnsLogs(s: State, input: MInput, key: int)
    requires MHoldsLogs(s.m) ==> s.logsOwner == Some(Messenger)
    ensures var n := MStep(s, input, key);
      n.logsOwner == Owner(s.logsOwner, Messenger, MHoldsLogs(s.m), MHoldsLogs(n.m))
  {
    hide ParseCommand, EraseAt, Matches, ClientAt, MPush, MScan, MPurge;
    match s.m
    case MTop => case MWantFirst => case MChecking => case MWaiting => case MWoken => case MSnapshot =>
    case MSelecting => case MWantSecond => case MAt(_) => case MServing(_) => case MWantAdd(_, _, _) =>
    case MAdding(_, _, _) => case MSignalling(_, _) => case MWantDel(_, _, _) => case MScanning(_, _, _, _) =>
    case MReleasingLogs(_, _) => case MWantPurge(_) => case MPurging(_, _) => case MPurged(_) =>
    case MErasing(_) => case MReleasing => case MDone =>
  }

  /** A mutex is taken only when nobody owns it. */
  lemma MTakesFree(s: State, input: MInput, key: int)
    requires MCan(s)
    ensures var n := MStep(s, input, key);
      && (MHoldsClients(n.m) && !MHoldsClients(s.m) ==> s.clientsOwner == None)
      && (MHoldsLogs(n.m) && !MHoldsLogs(s.m) ==> s.logsOwner == None)
  {
    hide ParseCommand, EraseAt, Matches, ClientAt, MPush, MScan, MPurge;
    match s.m
    case MTop => case MWantFirst => case MChecking => case MWaiting => case MWoken => case MSnapshot =>
    case MSelecting => case MWantSecond => case MAt(_) => case MServing(_) => case MWantAdd(_, _, _) =>
    case MAdding(_, _, _) => case MSignalling(_, _) => case MWantDel(_, _, _) => case MScanning(_, _, _, _) =>
    case MReleasingLogs(_, _) => case MWantPurge(_) => case MPurging(_, _) => case MPurged(_) =>
    case MErasing(_) => case MReleasing => case MDone =>
  }

  lemma MKeepsLocks(s: State, input: MInput, key: int)
    requires Locks(s) && MCan(s)
    ensures Locks(MStep(s, input, key))
  {
    hide MStep;
    MTakesFree(s, input, key);
    MOwnsClients(s, input, key);
    MOwnsLogs(s, input, key);
    MFrame(s, input, key);
    MShared(s, input, key);
  }

  lemma RKeepsLogsLock(s: State, input: RInput)
    requires LogsLock(s) && RCan(s)
    ensures LogsLock(RStep(s, input))
  {
    hide EraseAt, SessionOf;
    match s.r
    case RTop => case RWantFirst => case RChecking => case RWaiting => case RWoken => case RSnapshot =>
    case RSelecting => case RWantSecond => case RVisiting(_) => case RFinding(_) => case RFound(_, _) =>
    case RSending(_, _, _) => case RExcepting(_) => case RReleasing => case RDone =>
  }

  lemma AKeepsLocks(s: State, ok: bool)
    requires Locks(s) && ACan(s)
    ensures Locks(AStep(s, ok))
  {
    hide AStep;
    AKeepsClientsLock(s, ok);
    AFrame(s, ok);
    AFlow(s, ok);
  }

  lemma RKeepsLocks(s: State, input: RInput)
    requires Locks(s) && RCan(s)
    ensures Locks(RStep(s, input))
  {
    hide RStep;
    RKeepsLogsLock(s, input);
    RFrame(s, input);
    RShared(s, input);
  }

  // ----- the clients map -----

  /** Every key is its client's own id and at most the counter, and no two clients share a number. */
  ghost predicate Keys(s: State) {
    && 0 <= s.idCounter && s.nextSession <= Ids.INT_MAX - 1
    && (s.a.AWantClients? || s.a.AGenerating? || s.a.AInserting? ==> s.nextSession < Ids.INT_MAX - 1)
    && (if s.a.AInserting? then s.idCounter <= s.nextSession else s.idCounter < s.nextSession || s.idCounter == 0)
    && (s.a.AInserting? ==> s.a.id == s.idCounter && s.a.id !in s.clients)
    && (forall k | k in s.clients :: 0 <= k <= s.idCounter && s.clients[k].id == k)
    && (forall k | k in s.clients :: s.clients[k].number < s.nextSession)
    && (forall k, k' | k in s.clients && k' in s.clients && s.clients[k].number == s.clients[k'].number :: k == k')
  }

  lemma AKeepsKeys(s: State, ok: bool)
    requires Keys(s) && Locks(s) && ACan(s)
    ensures Keys(AStep(s, ok))
  {
    hide Ids.FirstFree;
    if s.a.AGenerating? {
      Ids.TwoProbes(s.clients.Keys, s.idCounter);
    }
    match s.a
    case AAccepting => case AWantClients => case AGenerating => case AInserting(_) => case ASignalling =>
    case AReleasing => case AWantClear => case AClearing => case AReleasingLast => case ADone =>
  }

  lemma MKeepsKeys(s: State, input: MInput, key: int)
    requires Keys(s) && Locks(s) && MCan(s)
    ensures Keys(MStep(s, input, key))
  {
    hide MStep;
    MFrame(s, input, key);
    MShared(s, input, key);
  }

  lemma RKeepsKeys(s: State, input: RInput)
    requires Keys(s)
    ensures Keys(RStep(s, input))
  {
    hide RStep;
    RFrame(s, input);
    RShared(s, input);
  }

  // ----- where the iterators stand -----

  /** The message thread serves a client that is in the map. */
  predicate Served(s: State) {
    Serving(s.m).None? || Serving(s.m).value in s.clients
  }

  /** No entry of that client before the iterator. */
  ghost predicate Passed(l: seq<Entry>, i: nat, id: int) {
    i <= |l| && forall j | 0 <= j < i :: l[j].clientId != id
  }

  /** The message thread's loops over the list have passed what they say. */
  ghost predicate CursorM(s: State) {
    match s.m
    case MScanning(id, name, i, _) => i <= |s.logs| && forall j | 0 <= j < i :: !Matches(s.logs[j], id, name)
    case MPurging(id, i) => Passed(s.logs, i, id)
    case MPurged(id) => Passed(s.logs, |s.logs|, id)
    case MErasing(id) => Passed(s.logs, |s.logs|, id)
    case _ => true
  }

  /** The reader's iterator stands in the list, and the client it has found is that of its entry. */
  predicate CursorR(s: State) {
    match s.r
    case RVisiting(i) => i <= |s.logs|
    case RFinding(i) => i < |s.logs|
    case RFound(i, id) => i < |s.logs| && s.logs[i].clientId == id
    case RSending(i, id, _) => i < |s.logs| && s.logs[i].clientId == id
    case RExcepting(i) => i < |s.logs|
    case _ => true
  }

  ghost predicate Cursors(s: State) {
    Served(s) && CursorM(s) && CursorR(s)
  }

  lemma AKeepsCursors(s: State, ok: bool)
    requires Locks(s) && Cursors(s)
    ensures Cursors(AStep(s, ok))
  {
    hide AStep, Matches, Passed;
    AFrame(s, ok);
    AFlow(s, ok);
  }

  lemma MKeepsServed(s: State, input: MInput, key: int)
    requires Served(s)
    ensures Served(MStep(s, input, key))
  {
    hide MStep;
    MServes(s, input, key);
    MShared(s, input, key);
  }

  /** A turn of a loop over the list, or a step that starts or ends one. */
  lemma MKeepsLoop(s: State, input: MInput, key: int)
    requires Keys(s) && Served(s) && CursorM(s)
    requires s.m.MWantDel? || s.m.MScanning? || s.m.MWantPurge? || s.m.MPurging? || s.m.MPurged?
    ensures CursorM(MStep(s, input, key))
  {
    match s.m
    case MWantDel(_, _, _) => case MScanning(_, _, _, _) => case MWantPurge(_) => case MPurging(_, _) =>
    case MPurged(_) =>
  }

  lemma MKeepsCursorM(s: State, input: MInput, key: int)
    requires Keys(s) && Served(s) && CursorM(s)
    ensures CursorM(MStep(s, input, key))
  {
    hide MStep, Matches, Passed;
    MFlow(s, input, key);
    if s.m.MWantDel? || s.m.MScanning? || s.m.MWantPurge? || s.m.MPurging? || s.m.MPurged? {
      MKeepsLoop(s, input, key);
    }
  }

  lemma MKeepsCursorR(s: State, input: MInput, key: int)
    requires Locks(s) && CursorR(s)
    ensures CursorR(MStep(s, input, key))
  {
    hide MStep;
    MShared(s, input, key);
  }

  lemma MKeepsCursors(s: State, input: MInput, key: int)
    requires Keys(s) && Locks(s) && Cursors(s)
    ensures Cursors(MStep(s, input, key))
  {
    hide MStep, CursorM, CursorR, Served;
    MKeepsServed(s, input, key);
    MKeepsCursorM(s, input, key);
    MKeepsCursorR(s, input, key);
  }

  lemma RKeepsCursorR(s: State, input: RInput)
    requires CursorR(s)
    ensures CursorR(RStep(s, input))
  {
    hide EraseAt, SessionOf;
    match s.r
    case RTop => case RWantFirst => case RChecking => case RWaiting => case RWoken => case RSnapshot =>
    case RSelecting => case RWantSecond => case RVisiting(_) => case RFinding(_) => case RFound(_, _) =>
    case RSending(_, _, _) => case RExcepting(_) => case RReleasing => case RDone =>
  }

  lemma RKeepsCursorM(s: State, input: RInput)
    requires Locks(s) && CursorM(s)
    ensures CursorM(RStep(s, input))
  {
    hide RStep, Matches;
    RShared(s, input);
    RShrinks(s, input);
    if s.m.MErasing? {
      assert forall e | e in s.logs :: e.clientId != s.m.id;
    }
  }

  lemma RKeepsCursors(s: State, input: RInput)
    requires Locks(s) && Cursors(s)
    ensures Cursors(RStep(s, input))
  {
    hide RStep, CursorM, CursorR;
    RShared(s, input);
    RKeepsCursorM(s, input);
    RKeepsCursorR(s, input);
  }

  // ----- subscriptions belong to live clients -----

  lemma ErasedAll(l: seq<Entry>, i: nat)
    requires i < |l|
    ensures forall e | e in EraseAt(l, i) :: e in l
  {
  }

  lemma RShrinks(s: State, input: RInput)
    ensures forall e | e in RStep(s, input).logs :: e in s.logs
  {
    if s.r.RFinding? || s.r.RExcepting? {
      if s.r.i < |s.logs| {
        ErasedAll(s.logs, s.r.i);
      }
    } else {
      hide RStep;
      RShared(s, input);
    }
  }

  lemma MShrinks(s: State, input: MInput, key: int)
    requires !s.m.MAdding?
    ensures forall e | e in MStep(s, input, key).logs :: e in s.logs
  {
    hide EraseAt, Matches, ClientAt;
    if s.m.MScanning? || s.m.MPurging? {
      if s.m.i < |s.logs| {
        ErasedAll(s.logs, s.m.i);
      }
    } else {
      hide MStep;
      MShared(s, input, key);
    }
  }

  /** The entry was added by the connection that has its client id now. */
  predicate OwnedBy(e: Entry, clients: map<int, Session>) {
    e.clientId in clients && clients[e.clientId].number == e.session
  }

  ghost predicate Owned(s: State) {
    forall e | e in s.logs :: OwnedBy(e, s.clients)
  }

  lemma AKeepsOwned(s: State, ok: bool)
    requires Keys(s) && Owned(s)
    ensures AStep(s, ok).cleared || Owned(AStep(s, ok))
  {
    hide Ids.FirstFree;
    match s.a
    case AAccepting => case AWantClients => case AGenerating => case AInserting(_) => case ASignalling =>
    case AReleasing => case AWantClear => case AClearing => case AReleasingLast => case ADone =>
  }

  lemma MAddsOwned(s: State, input: MInput, key: int)
    requires Keys(s) && Served(s) && Owned(s) && s.m.MAdding?
    ensures Owned(MStep(s, input, key))
  {
  }

  lemma MKeepsOwned(s: State, input: MInput, key: int)
    requires Keys(s) && Served(s) && CursorM(s) && Owned(s)
    ensures Owned(MStep(s, input, key))
  {
    hide MStep, Matches;
    if s.m.MAdding? {
      MAddsOwned(s, input, key);
    } else {
      MShrinks(s, input, key);
      MShared(s, input, key);
    }
  }

  lemma RKeepsOwned(s: State, input: RInput)
    requires Owned(s)
    ensures Owned(RStep(s, input))
  {
    hide RStep;
    RShrinks(s, input);
    RShared(s, input);
  }
}
