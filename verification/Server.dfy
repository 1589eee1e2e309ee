/**
 The three threads of the server as a labelled step system: the acceptor (`ListenConnections`), the
 message thread (`ListenMessages`) and the log reader (`LogServer::Run`). Every map or list operation,
 and every lock operation, is one atomic step.
 */
module Server {
  import opened Bytes
  import opened Options
  import opened Subscriptions
  import Ids

  datatype Thread = Acceptor | Messenger | Reader

  /** A `Client` in the map: its own id, and a history number that no other connection ever has. */
  datatype Session = Session(id: int, number: nat)

  // ----- program counters -----

  datatype APc =
    | AAccepting
    | AWantClients
    | AGenerating
    | AInserting(id: int)
    | ASignalling
    | AReleasing
    | AWantClear
    | AClearing
    | AReleasingLast
    | ADone

  datatype MPc =
    | MTop
    | MWantFirst
    | MChecking
    | MWaiting
    | MWoken
    | MSnapshot
    | MSelecting
    | MWantSecond
    | MAt(from: int) // the iterator stands at the least key from `from` on
    | MServing(id: int)
    | MWantAdd(id: int, name: seq<byte>, again: bool)
    | MAdding(id: int, name: seq<byte>, again: bool)
    | MSignalling(id: int, again: bool)
    | MWantDel(id: int, name: seq<byte>, again: bool)
    | MScanning(id: int, name: seq<byte>, i: nat, again: bool)
    | MReleasingLogs(id: int, again: bool)
    | MWantPurge(id: int)
    | MPurging(id: int, i: nat)
    | MPurged(id: int)
    | MErasing(id: int)
    | MReleasing
    | MDone

  datatype RPc =
    | RTop
    | RWantFirst
    | RChecking
    | RWaiting
    | RWoken
    | RSnapshot
    | RSelecting
    | RWantSecond
    | RVisiting(i: nat)
    | RFinding(i: nat)
    | RFound(i: nat, id: int)
    | RSending(i: nat, id: int, line: seq<byte>)
    | RExcepting(i: nat)
    | RReleasing
    | RDone

  /** What happened, in order. Only the first five change the subscription list. */
  datatype Event =
    | Added(entry: Entry)
    | Deleted(clientId: int, name: seq<byte>)
    | Disconnected(clientId: int)
    | Erased(serial: nat) // an exception on one log
    | Orphaned(serial: nat) // the defensive branch of the reader
    | Cleared // the shutdown has emptied the map
    | Got(clientId: int, session: nat, message: seq<byte>, openOk: bool) // `OnMessage`, and whether `Open` succeeds
    | Closed(session: nat) // `Disconnect`, before `OnDisconnect`: the socket is closed
    | Sent(reached: Option<nat>, entry: Entry, line: seq<byte>) // None: there is no such client any more

  datatype State = State(
    stop: bool,
    cleared: bool,
    clients: map<int, Session>,
    idCounter: int,
    logs: seq<Entry>,
    clientsOwner: Option<Thread>,
    logsOwner: Option<Thread>,
    a: APc,
    m: MPc,
    r: RPc,
    nextSession: nat,
    nextSerial: nat,
    history: seq<Event>)

  const INIT := State(false, false, map[], 0, [], None, None, AAccepting, MTop, RTop, 0, 0, [])

  // ----- the acceptor -----

  predicate ACan(s: State) {
    match s.a
    case AAccepting => s.stop || s.nextSession < Ids.INT_MAX - 1
    case AWantClients => s.clientsOwner == None
    case AWantClear => s.clientsOwner == None
    case ADone => false
    case _ => true
  }

  /** `ok` tells whether `Accept` succeeds. */
  function AStep(s: State, ok: bool): State {
    match s.a
    case AAccepting =>
      if s.stop then s.(a := AWantClear) else if ok then s.(a := AWantClients) else s
    case AWantClients => s.(a := AGenerating, clientsOwner := Some(Acceptor))
    case AGenerating =>
      var id := Ids.FirstFree(s.clients.Keys, s.idCounter);
      if id - s.idCounter >= Ids.INT_MAX then s.(a := AReleasing) // "invalid id": the connection is dropped
      else s.(a := AInserting(id), idCounter := id)
    case AInserting(id) =>
      s.(a := ASignalling, clients := s.clients[id := Session(id, s.nextSession)], nextSession := s.nextSession + 1)
    case ASignalling =>
      s.(a := AReleasing, m := if |s.clients| == 1 && s.m == MWaiting then MWoken else s.m)
    case AReleasing => s.(a := AAccepting, clientsOwner := None)
    case AWantClear => s.(a := AClearing, clientsOwner := Some(Acceptor))
    case AClearing =>
      s.(a := AReleasingLast, clients := map[], cleared := true, history := s.history + [Cleared])
    case AReleasingLast => s.(a := ADone, clientsOwner := None)
    case ADone => s
  }

  // ----- the message thread -----

  /** What one `Receive` call gives; `again` tells whether the drain loop goes on after a message. */
  datatype Received = Message(octets: seq<byte>, again: bool) | Waits | HandshakeDone | Fails

  /** The environment's part in a step: `FD_ISSET`, the call's outcome, and whether a file opens. */
  datatype MInput = MInput(ready: bool, received: Received, openOk: bool)

  predicate MCan(s: State) {
    match s.m
    case MWantFirst => s.clientsOwner == None
    case MWoken => s.clientsOwner == None
    case MWantSecond => s.clientsOwner == None
    case MWantAdd(_, _, _) => s.logsOwner == None
    case MWantDel(_, _, _) => s.logsOwner == None
    case MWantPurge(_) => s.logsOwner == None
    case MWaiting => false
    case MDone => false
    case _ => true
  }

  /** After a call that did not fail: the drain loop goes on, or the iterator moves to the next key. */
  function Resume(id: int, again: bool): MPc {
    if again then MServing(id) else MAt(id + 1)
  }

  function MStep(s: State, input: MInput, key: int): State {
    match s.m
    case MTop => s.(m := if s.stop then MDone else MWantFirst)
    case MWantFirst => s.(m := MChecking, clientsOwner := Some(Messenger))
    case MChecking =>
      if s.clients == map[] then s.(m := MWaiting, clientsOwner := None) else s.(m := MSnapshot)
    case MWaiting => s
    case MWoken => s.(m := MSnapshot, clientsOwner := Some(Messenger))
    case MSnapshot => s.(m := MSelecting, clientsOwner := None)
    case MSelecting => s.(m := MWantSecond)
    case MWantSecond => s.(m := MAt(0), clientsOwner := Some(Messenger))
    case MAt(from) => MVisit(s, from, input.ready, key)
    case MServing(id) => MServe(s, id, input)
    case MWantAdd(id, name, again) => s.(m := MAdding(id, name, again), logsOwner := Some(Messenger))
    case MAdding(id, name, again) => MPush(s, id, name, again)
    case MSignalling(id, again) =>
      s.(m := MReleasingLogs(id, again), r := if |s.logs| == 1 && s.r == RWaiting then RWoken else s.r)
    case MWantDel(id, name, again) => s.(m := MScanning(id, name, 0, again), logsOwner := Some(Messenger))
    case MScanning(id, name, i, again) => MScan(s, id, name, i, again)
    case MReleasingLogs(id, again) => s.(m := Resume(id, again), logsOwner := None)
    case MWantPurge(id) =>
      s.(m := MPurging(id, 0), logsOwner := Some(Messenger), history := s.history + [Disconnected(ClientAt(s, id).id)])
    case MPurging(id, i) => MPurge(s, id, i)
    case MPurged(id) => s.(m := MErasing(id), logsOwner := None)
    case MErasing(id) => s.(m := MAt(id + 1), clients := s.clients - {id})
    case MReleasing => s.(m := MTop, clientsOwner := None)
    case MDone => s
  }

  /** The `for` loop over the map; `key` is the next key when there is one. */
  function MVisit(s: State, from: int, ready: bool, key: int): (n: State)
    ensures n == s.(m := n.m)
  {
    if forall k | k in s.clients :: k < from then s.(m := MReleasing)
    else if key in s.clients && from <= key && (forall k | k in s.clients && from <= k :: key <= k) then
      s.(m := if ready then MServing(key) else MAt(key + 1))
    else s
  }

  /** Where `OnMessage` goes on. */
  function AfterMessage(id: int, octets: seq<byte>, again: bool, openOk: bool): MPc {
    match ParseCommand(octets)
    case Ignore => Resume(id, again)
    case Add(name) => if openOk then MWantAdd(id, name, again) else Resume(id, again)
    case Del(name) => MWantDel(id, name, again)
  }

  function GotFrom(c: Session, octets: seq<byte>, openOk: bool): Event {
    Got(c.id, c.number, octets, openOk)
  }

  /** One `Receive` call and what follows it in the loop. */
  function MServe(s: State, id: int, input: MInput): (n: State)
    ensures n == s.(m := n.m, history := n.history)
  {
    match input.received
    case Message(octets, again) =>
      s.(m := AfterMessage(id, octets, again, input.openOk),
         history := s.history + [GotFrom(ClientAt(s, id), octets, input.openOk)])
    case Waits => s.(m := MAt(id + 1))
    case HandshakeDone => s
    case Fails => s.(m := MWantPurge(id), history := s.history + [Closed(ClientAt(s, id).number)])
  }

  /** The client under a key: `get_id` and the history number are the client's own. */
  function ClientAt(s: State, key: int): Session {
    if key in s.clients then s.clients[key] else Session(key, 0)
  }

  /** `push_back` in `StartReadingLog`. */
  function MPush(s: State, id: int, name: seq<byte>, again: bool): (n: State)
    ensures n == s.(m := MSignalling(id, again), logs := n.logs, nextSerial := n.nextSerial, history := n.history)
  {
    var c := ClientAt(s, id);
    var e := Entry(name, c.id, c.number, s.nextSerial);
    s.(m := MSignalling(id, again), logs := s.logs + [e], nextSerial := s.nextSerial + 1,
       history := s.history + [Added(e)])
  }

  /** One turn of the loop of `StopReadingLog`. */
  function MScan(s: State, id: int, name: seq<byte>, i: nat, again: bool): (n: State)
    ensures n == s.(m := n.m, logs := n.logs, history := n.history)
    ensures n.m == MScanning(id, name, i + 1, again) || n.m == MReleasingLogs(id, again)
  {
    var own := ClientAt(s, id).id;
    if i >= |s.logs| then s.(m := MReleasingLogs(id, again), history := s.history + [Deleted(own, name)])
    else if Matches(s.logs[i], own, name) then
      s.(m := MReleasingLogs(id, again), logs := EraseAt(s.logs, i), history := s.history + [Deleted(own, name)])
    else s.(m := MScanning(id, name, i + 1, again))
  }

  /** One turn of the loop of `DeleteRequestsFromClient`. */
  function MPurge(s: State, id: int, i: nat): (n: State)
    ensures n == s.(m := n.m, logs := n.logs)
    ensures n.m == s.m || n.m == MPurging(id, i + 1) || n.m == MPurged(id)
  {
    if i >= |s.logs| then s.(m := MPurged(id))
    else if s.logs[i].clientId == ClientAt(s, id).id then s.(logs := EraseAt(s.logs, i))
    else s.(m := MPurging(id, i + 1))
  }

  // ----- the log reader -----

  /** The environment's part in a step: an `FD_ISSET` or a return of `select`, and a line that was read. */
  datatype RInput = RInput(flag: bool, line: Option<seq<byte>>)

  predicate RCan(s: State) {
    match s.r
    case RWantFirst => s.logsOwner == None
    case RWoken => s.logsOwner == None
    case RWantSecond => s.logsOwner == None
    case RWaiting => false
    case RDone => false
    case _ => true
  }

  /** The connection that a line for this id reaches. */
  function SessionOf(s: State, id: int): Option<nat> {
    if id in s.clients then Some(s.clients[id].number) else None
  }

  function RStep(s: State, input: RInput): State {
    match s.r
    case RTop => s.(r := if s.stop then RDone else RWantFirst)
    case RWantFirst => s.(r := RChecking, logsOwner := Some(Reader))
    case RChecking => if s.logs == [] then s.(r := RWaiting, logsOwner := None) else s.(r := RSnapshot)
    case RWaiting => s
    case RWoken => s.(r := RSnapshot, logsOwner := Some(Reader))
    case RSnapshot => s.(r := RSelecting, logsOwner := None)
    case RSelecting => s.(r := if input.flag then RWantSecond else RTop) // false: EINTR or timeout
    case RWantSecond => s.(r := RVisiting(0), logsOwner := Some(Reader))
    case RVisiting(i) =>
      if i >= |s.logs| then s.(r := RReleasing) else s.(r := if input.flag then RFinding(i) else RExcepting(i))
    case RFinding(i) =>
      if i >= |s.logs| then s.(r := RReleasing)
      else if s.logs[i].clientId in s.clients then s.(r := RFound(i, s.logs[i].clientId))
      else
        s.(r := RVisiting(i), logs := EraseAt(s.logs, i), history := s.history + [Orphaned(s.logs[i].serial)])
    case RFound(i, id) => s.(r := if input.line.Some? then RSending(i, id, input.line.value) else RExcepting(i))
    case RSending(i, id, line) =>
      if i >= |s.logs| then s.(r := RReleasing)
      else s.(r := RExcepting(i), history := s.history + [Sent(SessionOf(s, id), s.logs[i], line)])
    case RExcepting(i) =>
      if i < |s.logs| && input.flag then
        s.(r := RVisiting(i), logs := EraseAt(s.logs, i), history := s.history + [Erased(s.logs[i].serial)])
      else s.(r := RVisiting(i + 1))
    case RReleasing => s.(r := RTop, logsOwner := None)
    case RDone => s
  }

  // ----- runs -----

  datatype Label =
    | DoA(ok: bool)
    | DoM(minput: MInput, key: int)
    | DoR(rinput: RInput)
    | RequestStop
    | SpuriousM // a spurious wake-up, which `pthread_cond_wait` allows
    | SpuriousR

  predicate Enabled(s: State, l: Label) {
    match l
    case DoA(_) => ACan(s)
    case DoM(_, _) => MCan(s)
    case DoR(_) => RCan(s)
    case RequestStop => true
    case SpuriousM => s.m == MWaiting
    case SpuriousR => s.r == RWaiting
  }

  function Apply(s: State, l: Label): State {
    match l
    case DoA(ok) => AStep(s, ok)
    case DoM(input, key) => MStep(s, input, key)
    case DoR(input) => RStep(s, input)
    case RequestStop => s.(stop := true)
    case SpuriousM => s.(m := MWoken)
    case SpuriousR => s.(r := RWoken)
  }

  /** The state after the labels of a run. */
  function Exec(s: State, run: seq<Label>): State
    decreases |run|
  {
    if run == [] then s else Apply(Exec(s, run[..|run| - 1]), run[|run| - 1])
  }

  ghost predicate IsRun(s: State, run: seq<Label>)
    decreases |run|
  {
    run != [] ==>
      IsRun(s, run[..|run| - 1]) && Enabled(Exec(s, run[..|run| - 1]), run[|run| - 1])
  }
}
