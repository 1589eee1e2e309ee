/** The subscription list and the lines that are sent, against the history of a run; and the wake-ups. */
module ServerHistory {
  import opened Bytes
  import opened Options
  import opened Subscriptions
  import opened Server
  import opened ServerSafety
  import Ids

  // ----- the list that a history describes -----

  function Do(l: seq<Entry>, e: Event): seq<Entry> {
    match e
    case Added(entry) => l + [entry]
    case Deleted(clientId, name) => RemoveFirst(l, clientId, name)
    case Disconnected(clientId) => Without(l, clientId)
    case Erased(serial) => RemoveSerial(l, serial)
    case Orphaned(serial) => RemoveSerial(l, serial)
    case Cleared => l
    case Got(_, _, _, _) => l
    case Closed(_) => l
    case Sent(_, _, _) => l
  }

  function Replay(h: seq<Event>): seq<Entry> {
    if h == [] then [] else Do(Replay(h[..|h| - 1]), h[|h| - 1])
  }

  lemma ReplaySnoc(h: seq<Event>, e: Event)
    ensures Replay(h + [e]) == Do(Replay(h), e)
  {
    assert (h + [e])[..|h|] == h;
  }

  /** The list is the replay of the history; in the middle of a purge, what remains to be purged is extra. */
  ghost predicate Recorded(s: State) {
    Replay(s.history) == if s.m.MPurging? then Without(s.logs, s.m.id) else s.logs
  }

  // ----- serials -----

  /** Serials grow along the history, up to a bound. */
  ghost predicate Fresh(h: seq<Event>, bound: nat) {
    && (forall i | 0 <= i < |h| && h[i].Added? :: h[i].entry.serial < bound)
    && (forall i, j | 0 <= i < j < |h| && h[i].Added? && h[j].Added? :: h[i].entry.serial < h[j].entry.serial)
  }

  ghost predicate AscendingTo(l: seq<Entry>, bound: nat) {
    Ascending(l) && forall e | e in l :: e.serial < bound
  }

  lemma TailAscending(l: seq<Entry>, bound: nat)
    requires l != [] && AscendingTo(l, bound)
    ensures AscendingTo(l[1..], bound) && l[0].serial < bound
    ensures forall e | e in l[1..] :: l[0].serial < e.serial
  {
    assert l[0] in l;
  }

  lemma ConsAscending(x: Entry, l: seq<Entry>, bound: nat)
    requires AscendingTo(l, bound) && x.serial < bound && forall e | e in l :: x.serial < e.serial
    ensures AscendingTo([x] + l, bound)
  {
  }

  lemma {:induction false} WithoutAscending(l: seq<Entry>, id: int, bound: nat)
    requires AscendingTo(l, bound)
    ensures AscendingTo(Without(l, id), bound)
  {
    hide AscendingTo;
    if l == [] {
    } else {
      TailAscending(l, bound);
      WithoutAscending(l[1..], id, bound);
      WithoutMeaning(l[1..], id);
      if l[0].clientId != id {
        ConsAscending(l[0], Without(l[1..], id), bound);
      }
    }
  }

  lemma {:induction false} RemoveFirstSubset(l: seq<Entry>, id: int, name: seq<byte>, e: Entry)
    requires e in RemoveFirst(l, id, name)
    ensures e in l
  {
    if !Matches(l[0], id, name) && e != l[0] {
      RemoveFirstSubset(l[1..], id, name, e);
    }
  }

  lemma {:induction false} RemoveFirstAscending(l: seq<Entry>, id: int, name: seq<byte>, bound: nat)
    requires AscendingTo(l, bound)
    ensures AscendingTo(RemoveFirst(l, id, name), bound)
  {
    hide AscendingTo, Matches;
    if l == [] {
    } else {
      TailAscending(l, bound);
      if !Matches(l[0], id, name) {
        RemoveFirstAscending(l[1..], id, name, bound);
        forall e | e in RemoveFirst(l[1..], id, name)
          ensures l[0].serial < e.serial
        {
          RemoveFirstSubset(l[1..], id, name, e);
        }
        ConsAscending(l[0], RemoveFirst(l[1..], id, name), bound);
      }
    }
  }

  lemma {:induction false} RemoveSerialSubset(l: seq<Entry>, serial: nat, e: Entry)
    requires e in RemoveSerial(l, serial)
    ensures e in l
  {
    if l[0].serial != serial && e != l[0] {
      RemoveSerialSubset(l[1..], serial, e);
    }
  }

  lemma {:induction false} RemoveSerialAscending(l: seq<Entry>, serial: nat, bound: nat)
    requires AscendingTo(l, bound)
    ensures AscendingTo(RemoveSerial(l, serial), bound)
    ensures forall e | e in RemoveSerial(l, serial) :: e.serial != serial
  {
    hide AscendingTo;
    if l == [] {
    } else {
      TailAscending(l, bound);
      if l[0].serial != serial {
        RemoveSerialAscending(l[1..], serial, bound);
        forall e | e in RemoveSerial(l[1..], serial)
          ensures l[0].serial < e.serial
        {
          RemoveSerialSubset(l[1..], serial, e);
        }
        ConsAscending(l[0], RemoveSerial(l[1..], serial), bound);
      }
    }
  }

  lemma DoAscending(l: seq<Entry>, e: Event, bound: nat, next: nat)
    requires AscendingTo(l, bound) && bound <= next
    requires e.Added? ==> bound <= e.entry.serial < next
    ensures AscendingTo(Do(l, e), next)
  {
    match e
    case Added(entry) =>
    case Deleted(clientId, name) => RemoveFirstAscending(l, clientId, name, bound);
    case Disconnected(clientId) => WithoutAscending(l, clientId, bound);
    case Erased(serial) => RemoveSerialAscending(l, serial, bound);
    case Orphaned(serial) => RemoveSerialAscending(l, serial, bound);
    case Cleared =>
    case Got(_, _, _, _) =>
    case Closed(_) =>
    case Sent(_, _, _) =>
  }

  lemma {:induction false} ReplayAscending(h: seq<Event>, bound: nat)
    requires Fresh(h, bound)
    ensures AscendingTo(Replay(h), bound)
    decreases |h|
  {
    if h != [] {
      var before, e := h[..|h| - 1], h[|h| - 1];
      var low := if e.Added? then e.entry.serial else bound;
      assert forall i | 0 <= i < |before| :: before[i] == h[i];
      ReplayAscending(before, low);
      DoAscending(Replay(before), e, low, bound);
    }
  }

  // ----- the history of sends -----

  /**
   The entry of a line is on the list at that time, and the line goes to the connection that added the entry,
   until the map has been cleared, and to nobody from then on.
   */
  ghost predicate SendsOk(h: seq<Event>) {
    forall i | 0 <= i < |h| && h[i].Sent? ::
      && h[i].entry in Replay(h[..i])
      && h[i].reached == if Cleared in h[..i] then None else Some(h[i].entry.session)
  }

  /** The defensive branch is taken only after the map has been cleared. */
  ghost predicate OrphansOk(h: seq<Event>) {
    forall i | 0 <= i < |h| && h[i].Orphaned? :: Cleared in h[..i]
  }

  /** Once cleared, the map stays empty: the acceptor is at its end. */
  predicate Emptied(s: State) {
    && (s.cleared <==> Cleared in s.history)
    && (s.cleared ==> s.clients == map[] && (s.a.AReleasingLast? || s.a.ADone?))
  }

  ghost predicate Isolated(s: State) {
    Emptied(s) && (s.cleared || Owned(s)) && SendsOk(s.history) && OrphansOk(s.history)
  }

  lemma SendsOkSnoc(h: seq<Event>, e: Event)
    requires SendsOk(h) && OrphansOk(h)
    requires e.Orphaned? ==> Cleared in h
    requires e.Sent? ==> e.entry in Replay(h) && e.reached == if Cleared in h then None else Some(e.entry.session)
    ensures SendsOk(h + [e]) && OrphansOk(h + [e])
  {
    hide Replay;
    var n := h + [e];
    assert n[..|h|] == h;
    forall i | 0 <= i < |h|
      ensures n[..i] == h[..i] && n[i] == h[i]
    {
    }
  }

  // ----- every step keeps the record -----

  ghost predicate History(s: State) {
    Recorded(s) && Fresh(s.history, s.nextSerial)
  }

  lemma FreshSnoc(h: seq<Event>, e: Event, bound: nat, next: nat)
    requires Fresh(h, bound) && bound <= next
    requires e.Added? ==> e.entry.serial == bound < next
    ensures Fresh(h + [e], next)
  {
  }

  lemma OwnId(s: State, id: int)
    requires Keys(s) && id in s.clients
    ensures ClientAt(s, id).id == id
  {
  }

  lemma AKeepsHistory(s: State, ok: bool)
    requires History(s)
    ensures History(AStep(s, ok))
  {
    hide AStep, Replay, Without, Fresh;
    AFrame(s, ok);
    AFlow(s, ok);
    ReplaySnoc(s.history, Cleared);
    FreshSnoc(s.history, Cleared, s.nextSerial, s.nextSerial);
  }

  lemma MAddRecorded(s: State, input: MInput, key: int)
    requires History(s) && s.m.MAdding?
    ensures History(MStep(s, input, key))
  {
    hide Replay, ClientAt, Fresh;
    var c := ClientAt(s, s.m.id);
    var e := Added(Entry(s.m.name, c.id, c.number, s.nextSerial));
    ReplaySnoc(s.history, e);
    FreshSnoc(s.history, e, s.nextSerial, s.nextSerial + 1);
  }

  lemma MScanRecorded(s: State, input: MInput, key: int)
    requires Keys(s) && Served(s) && CursorM(s) && History(s) && s.m.MScanning?
    ensures History(MStep(s, input, key))
  {
    hide Replay, RemoveFirst, Matches, EraseAt, Keys, Without, ClientAt, Fresh;
    var id, name, i := s.m.id, s.m.name, s.m.i;
    OwnId(s, id);
    ReplaySnoc(s.history, Deleted(id, name));
    FreshSnoc(s.history, Deleted(id, name), s.nextSerial, s.nextSerial);
    if i >= |s.logs| {
      RemoveFirstNone(s.logs, id, name);
    } else if Matches(s.logs[i], id, name) {
      RemoveFirstAt(s.logs, i, id, name);
    }
  }

  lemma MPurgeRecorded(s: State, input: MInput, key: int)
    requires Keys(s) && Served(s) && CursorM(s) && History(s) && (s.m.MWantPurge? || s.m.MPurging?)
    ensures History(MStep(s, input, key))
  {
    hide Replay, EraseAt, Keys, Without, ClientAt, Fresh;
    var id := s.m.id;
    OwnId(s, id);
    if s.m.MWantPurge? {
      ReplaySnoc(s.history, Disconnected(id));
      FreshSnoc(s.history, Disconnected(id), s.nextSerial, s.nextSerial);
    } else if s.m.i >= |s.logs| {
      WithoutNone(s.logs, id);
    } else if s.logs[s.m.i].clientId == id {
      WithoutErase(s.logs, s.m.i, id);
    }
  }

  lemma MServeRecorded(s: State, input: MInput, key: int)
    requires History(s) && s.m.MServing?
    ensures History(MStep(s, input, key))
  {
    hide Replay, Without, ClientAt, Fresh, ParseCommand;
    if input.received.Message? || input.received.Fails? {
      var c := ClientAt(s, s.m.id);
      var e := if input.received.Fails? then Closed(c.number) else GotFrom(c, input.received.octets, input.openOk);
      ReplaySnoc(s.history, e);
      FreshSnoc(s.history, e, s.nextSerial, s.nextSerial);
    }
  }

  lemma MKeepsHistory(s: State, input: MInput, key: int)
    requires Keys(s) && Served(s) && CursorM(s) && History(s)
    ensures History(MStep(s, input, key))
  {
    hide MStep, Replay, Fresh, Keys, Served, CursorM, Without;
    if s.m.MServing? {
      MServeRecorded(s, input, key);
    } else if s.m.MAdding? {
      MAddRecorded(s, input, key);
    } else if s.m.MScanning? {
      MScanRecorded(s, input, key);
    } else if s.m.MWantPurge? || s.m.MPurging? {
      MPurgeRecorded(s, input, key);
    } else {
      MShared(s, input, key);
      MSharedHistory(s, input, key);
      MFlow(s, input, key);
    }
  }

  lemma REraseRecorded(s: State, input: RInput)
    requires Locks(s) && CursorR(s) && History(s) && (s.r.RFinding? || s.r.RExcepting?)
    ensures History(RStep(s, input))
  {
    hide Replay, Without, Fresh, EraseAt, RemoveSerial;
    var i := s.r.i;
    var serial := s.logs[i].serial;
    var e := if s.r.RFinding? then Orphaned(serial) else Erased(serial);
    ReplayAscending(s.history, s.nextSerial);
    RemoveSerialAt(s.logs, i);
    ReplaySnoc(s.history, e);
    FreshSnoc(s.history, e, s.nextSerial, s.nextSerial);
  }

  lemma RSendRecorded(s: State, input: RInput)
    requires CursorR(s) && History(s) && s.r.RSending?
    ensures History(RStep(s, input))
  {
    hide Replay, Without, Fresh, SessionOf;
    var e := Sent(SessionOf(s, s.r.id), s.logs[s.r.i], s.r.line);
    ReplaySnoc(s.history, e);
    FreshSnoc(s.history, e, s.nextSerial, s.nextSerial);
  }

  lemma RKeepsHistory(s: State, input: RInput)
    requires Locks(s) && CursorR(s) && History(s)
    ensures History(RStep(s, input))
  {
    hide RStep, Replay, Without, Fresh, Locks, CursorR;
    if s.r.RFinding? || s.r.RExcepting? {
      REraseRecorded(s, input);
    } else if s.r.RSending? {
      RSendRecorded(s, input);
    } else {
      RShared(s, input);
      RSharedHistory(s, input);
    }
  }

  // ----- every step keeps the sessions apart -----

  lemma AKeepsEmptied(s: State, ok: bool)
    requires Emptied(s)
    ensures Emptied(AStep(s, ok))
  {
    hide Ids.FirstFree;
    match s.a
    case AAccepting => case AWantClients => case AGenerating => case AInserting(_) => case ASignalling =>
    case AReleasing => case AWantClear => case AClearing => case AReleasingLast => case ADone =>
  }

  lemma AKeepsIsolated(s: State, ok: bool)
    requires Keys(s) && Isolated(s)
    ensures Isolated(AStep(s, ok))
  {
    hide AStep, SendsOk, OrphansOk, Owned, Keys, Emptied;
    AFrame(s, ok);
    AFlow(s, ok);
    AKeepsEmptied(s, ok);
    if !s.cleared {
      AKeepsOwned(s, ok);
    }
    if s.a.AClearing? {
      SendsOkSnoc(s.history, Cleared);
    }
  }

  /** The events of the message thread. */
  lemma MAppends(s: State, input: MInput, key: int)
    ensures var n := MStep(s, input, key);
      n.history == s.history
      || exists e: Event ::
        && n.history == s.history + [e] && !e.Sent? && !e.Orphaned? && !e.Cleared?
        && (e.Added? ==> s.m.MAdding?) && (e.Closed? ==> s.m.MServing?)
  {
    if s.m.MAdding? || s.m.MScanning? || s.m.MWantPurge? || s.m.MServing? {
      hide ClientAt, EraseAt, Matches, AfterMessage;
      var n := MStep(s, input, key);
      if n.history != s.history {
        var e := n.history[|s.history|];
        assert n.history == s.history + [e];
      }
    } else {
      hide MStep;
      MSharedHistory(s, input, key);
    }
  }

  lemma MKeepsIsolated(s: State, input: MInput, key: int)
    requires Keys(s) && Served(s) && CursorM(s) && Isolated(s)
    ensures Isolated(MStep(s, input, key))
  {
    hide MStep, SendsOk, OrphansOk, Owned, Keys, Served, CursorM;
    MFrame(s, input, key);
    MShared(s, input, key);
    MAppends(s, input, key);
    var n := MStep(s, input, key);
    if n.history != s.history {
      var e: Event :| n.history == s.history + [e] && !e.Sent? && !e.Orphaned? && !e.Cleared?;
      SendsOkSnoc(s.history, e);
    }
    if !s.cleared {
      MKeepsOwned(s, input, key);
    }
  }

  /** The events of the reader. */
  lemma RAppends(s: State, input: RInput)
    ensures var n := RStep(s, input);
      n.history == s.history
      || exists e: Event :: n.history == s.history + [e] && !Own(e) && !e.Cleared?
  {
    if s.r.RFinding? || s.r.RExcepting? || s.r.RSending? {
      hide EraseAt, SessionOf;
      var n := RStep(s, input);
      if n.history != s.history {
        var e := n.history[|s.history|];
        assert n.history == s.history + [e];
      }
    } else {
      hide RStep;
      RSharedHistory(s, input);
    }
  }

  /** A send reaches the session of its entry, or nobody; the defensive branch is taken after the clearing only. */
  lemma RSends(s: State, input: RInput)
    requires Locks(s) && CursorR(s) && Recorded(s) && Isolated(s)
    requires s.r.RFinding? || s.r.RExcepting? || s.r.RSending?
    ensures SendsOk(RStep(s, input).history) && OrphansOk(RStep(s, input).history)
  {
    hide SendsOk, OrphansOk, Replay, Without, EraseAt;
    var e := s.logs[s.r.i];
    assert s.cleared || OwnedBy(e, s.clients);
    if s.r.RSending? {
      SendsOkSnoc(s.history, Sent(SessionOf(s, s.r.id), e, s.r.line));
    } else if s.r.RExcepting? {
      SendsOkSnoc(s.history, Erased(e.serial));
    } else if s.cleared {
      SendsOkSnoc(s.history, Orphaned(e.serial));
    }
  }

  lemma RKeepsIsolated(s: State, input: RInput)
    requires Locks(s) && CursorR(s) && Recorded(s) && Isolated(s)
    ensures Isolated(RStep(s, input))
  {
    hide RStep, SendsOk, OrphansOk, Owned, Recorded, CursorR, Locks;
    RFrame(s, input);
    RShared(s, input);
    RAppends(s, input);
    if !s.cleared {
      RKeepsOwned(s, input);
    }
    if s.r.RFinding? || s.r.RExcepting? || s.r.RSending? {
      RSends(s, input);
    } else {
      RSharedHistory(s, input);
    }
  }

  // ----- requests -----

  /** A message of that session has asked for that log. */
  ghost predicate Asked(h: seq<Event>, session: nat, name: seq<byte>) {
    exists i | 0 <= i < |h| :: h[i].Got? && h[i].session == session && ParseCommand(h[i].message) == Add(name)
  }

  ghost predicate AddsAsked(h: seq<Event>) {
    forall j | 0 <= j < |h| && h[j].Added? :: Asked(h[..j], h[j].entry.session, h[j].entry.name)
  }

  /** Everything added, or about to be added, has been asked for by the session it is added for. */
  ghost predicate Requested(s: State) {
    && AddsAsked(s.history)
    && (s.m.MWantAdd? || s.m.MAdding? ==> Asked(s.history, ClientAt(s, s.m.id).number, s.m.name))
  }

  lemma AskedSnoc(h: seq<Event>, e: Event, session: nat, name: seq<byte>)
    requires Asked(h, session, name)
    ensures Asked(h + [e], session, name)
  {
    hide ParseCommand;
    var i :| 0 <= i < |h| && h[i].Got? && h[i].session == session && ParseCommand(h[i].message) == Add(name);
    assert (h + [e])[i] == h[i];
  }

  lemma AddsAskedSnoc(h: seq<Event>, e: Event)
    requires AddsAsked(h) && (e.Added? ==> Asked(h, e.entry.session, e.entry.name))
    ensures AddsAsked(h + [e])
  {
    hide Asked;
    var n := h + [e];
    assert n[..|h|] == h;
    forall i | 0 <= i < |h|
      ensures n[..i] == h[..i] && n[i] == h[i]
    {
    }
  }

  lemma MFlowAdds(s: State, input: MInput, key: int)
    ensures var n := MStep(s, input, key);
      && (n.m.MWantAdd? ==> s.m.MServing?)
      && (n.m.MAdding? ==> s.m.MWantAdd? && n.m.id == s.m.id && n.m.name == s.m.name)
  {
    hide ParseCommand, EraseAt, Matches, ClientAt;
    match s.m
    case MTop => case MWantFirst => case MChecking => case MWaiting => case MWoken => case MSnapshot =>
    case MSelecting => case MWantSecond => case MAt(_) => case MServing(_) => case MWantAdd(_, _, _) =>
    case MAdding(_, _, _) => case MSignalling(_, _) => case MWantDel(_, _, _) => case MScanning(_, _, _, _) =>
    case MReleasingLogs(_, _) => case MWantPurge(_) => case MPurging(_, _) => case MPurged(_) =>
    case MErasing(_) => case MReleasing => case MDone =>
  }

  lemma MServesRequest(s: State, input: MInput, key: int)
    requires Requested(s) && s.m.MServing?
    ensures Requested(MStep(s, input, key))
  {
    hide ParseCommand, AddsAsked;
    if input.received.Message? {
      var e := GotFrom(ClientAt(s, s.m.id), input.received.octets, input.openOk);
      AddsAskedSnoc(s.history, e);
      assert (s.history + [e])[|s.history|] == e;
    } else {
      AddsAskedSnoc(s.history, Closed(ClientAt(s, s.m.id).number));
    }
  }

  lemma MAddsRequested(s: State, input: MInput, key: int)
    requires Requested(s) && s.m.MAdding?
    ensures Requested(MStep(s, input, key))
  {
    hide Asked, AddsAsked;
    var c := ClientAt(s, s.m.id);
    AddsAskedSnoc(s.history, Added(Entry(s.m.name, c.id, c.number, s.nextSerial)));
  }

  lemma MKeepsRequested(s: State, input: MInput, key: int)
    requires Requested(s)
    ensures Requested(MStep(s, input, key))
  {
    hide MStep, Asked, AddsAsked;
    MFlowAdds(s, input, key);
    if s.m.MServing? {
      MServesRequest(s, input, key);
    } else if s.m.MAdding? {
      MAddsRequested(s, input, key);
    } else {
      MShared(s, input, key);
      MSharedHistory(s, input, key);
      MAppends(s, input, key);
      var n := MStep(s, input, key);
      if n.history != s.history {
        var e: Event :| n.history == s.history + [e] && !e.Added?;
        AddsAskedSnoc(s.history, e);
      }
    }
  }

  lemma AKeepsRequested(s: State, ok: bool)
    requires Locks(s) && Requested(s)
    ensures Requested(AStep(s, ok))
  {
    hide AStep, Asked, AddsAsked;
    AFrame(s, ok);
    AFlow(s, ok);
    if s.a.AClearing? {
      AddsAskedSnoc(s.history, Cleared);
    }
  }

  lemma RKeepsRequested(s: State, input: RInput)
    requires Requested(s)
    ensures Requested(RStep(s, input))
  {
    hide RStep, Asked, AddsAsked;
    RShared(s, input);
    RAppends(s, input);
    var n := RStep(s, input);
    if n.history != s.history {
      var e: Event :| n.history == s.history + [e] && !e.Added?;
      AddsAskedSnoc(s.history, e);
      if s.m.MWantAdd? || s.m.MAdding? {
        AskedSnoc(s.history, e, ClientAt(s, s.m.id).number, s.m.name);
      }
    }
  }

  // ----- obedience -----

  /** The events of the message thread. */
  predicate Own(e: Event) {
    e.Added? || e.Deleted? || e.Disconnected? || e.Closed? || e.Got?
  }

  /** What the message thread did last. */
  function LastOwn(h: seq<Event>): Option<Event> {
    if h == [] then None
    else if Own(h[|h| - 1]) then Some(h[|h| - 1])
    else LastOwn(h[..|h| - 1])
  }

  lemma LastOwnSnoc(h: seq<Event>, e: Event)
    ensures LastOwn(h + [e]) == if Own(e) then Some(e) else LastOwn(h)
  {
    assert (h + [e])[..|h|] == h;
  }

  /** The message is a command that changes the list: a `del`, or an `add` whose file opens. */
  predicate Demands(g: Event) {
    g.Got? && match ParseCommand(g.message)
              case Ignore => false
              case Add(_) => g.openOk
              case Del(_) => true
  }

  /** The event does to the list what the message asks for. */
  predicate Answers(g: Event, e: Event)
    requires Demands(g)
  {
    match ParseCommand(g.message)
    case Ignore => false
    case Add(name) => e.Added? && e.entry.name == name && e.entry.clientId == g.clientId && e.entry.session == g.session
    case Del(name) => e == Deleted(g.clientId, name)
  }

  /** A demand is answered by the very next event of the message thread, and nothing else adds or deletes. */
  predicate InTurn(before: Option<Event>, e: Event) {
    if before.Some? && Demands(before.value) then Answers(before.value, e) else !e.Added? && !e.Deleted?
  }

  ghost predicate Obeys(h: seq<Event>) {
    forall i | 0 <= i < |h| && Own(h[i]) :: InTurn(LastOwn(h[..i]), h[i])
  }

  /** The demand that the message thread is serving, by its program counter. */
  ghost predicate Serves(s: State, before: Option<Event>) {
    match s.m
    case MWantAdd(id, name, _) =>
      before.Some? && Demands(before.value) && ParseCommand(before.value.message) == Add(name)
      && before.value.clientId == ClientAt(s, id).id && before.value.session == ClientAt(s, id).number
    case MAdding(id, name, _) =>
      before.Some? && Demands(before.value) && ParseCommand(before.value.message) == Add(name)
      && before.value.clientId == ClientAt(s, id).id && before.value.session == ClientAt(s, id).number
    case MWantDel(id, name, _) =>
      before.Some? && Demands(before.value) && ParseCommand(before.value.message) == Del(name)
      && before.value.clientId == ClientAt(s, id).id
    case MScanning(id, name, _, _) =>
      before.Some? && Demands(before.value) && ParseCommand(before.value.message) == Del(name)
      && before.value.clientId == ClientAt(s, id).id
    case _ => before.None? || !Demands(before.value)
  }

  ghost predicate Obedient(s: State) {
    Obeys(s.history) && Serves(s, LastOwn(s.history))
  }

  lemma ObeysSnoc(h: seq<Event>, e: Event)
    requires Obeys(h) && (Own(e) ==> InTurn(LastOwn(h), e))
    ensures Obeys(h + [e])
  {
    hide InTurn, LastOwn;
    var n := h + [e];
    assert n[..|h|] == h;
    forall i | 0 <= i < |h|
      ensures n[..i] == h[..i] && n[i] == h[i]
    {
    }
  }

  lemma MServeObeys(s: State, input: MInput, key: int)
    requires Obedient(s) && s.m.MServing?
    ensures Obedient(MStep(s, input, key))
  {
    hide Obeys, ParseCommand, LastOwn;
    if input.received.Message? || input.received.Fails? {
      var c := ClientAt(s, s.m.id);
      var e := if input.received.Fails? then Closed(c.number) else GotFrom(c, input.received.octets, input.openOk);
      ObeysSnoc(s.history, e);
      LastOwnSnoc(s.history, e);
    }
  }

  lemma MAddObeys(s: State, input: MInput, key: int)
    requires Obedient(s) && s.m.MAdding?
    ensures Obedient(MStep(s, input, key))
  {
    hide Obeys, ParseCommand, LastOwn;
    var c := ClientAt(s, s.m.id);
    var e := Added(Entry(s.m.name, c.id, c.number, s.nextSerial));
    ObeysSnoc(s.history, e);
    LastOwnSnoc(s.history, e);
  }

  lemma MScanObeys(s: State, input: MInput, key: int)
    requires Obedient(s) && s.m.MScanning?
    ensures Obedient(MStep(s, input, key))
  {
    hide Obeys, ParseCommand, LastOwn, Matches, EraseAt;
    var e := Deleted(ClientAt(s, s.m.id).id, s.m.name);
    ObeysSnoc(s.history, e);
    LastOwnSnoc(s.history, e);
  }

  lemma MPurgeObeys(s: State, input: MInput, key: int)
    requires Obedient(s) && s.m.MWantPurge?
    ensures Obedient(MStep(s, input, key))
  {
    hide Obeys, ParseCommand, LastOwn;
    var e := Disconnected(ClientAt(s, s.m.id).id);
    ObeysSnoc(s.history, e);
    LastOwnSnoc(s.history, e);
  }

  /** Outside these steps a command goes on as it is, and none begins. */
  lemma MGoesOn(s: State, input: MInput, key: int)
    requires !s.m.MServing? && !s.m.MAdding? && !s.m.MScanning?
    ensures var n := MStep(s, input, key);
      && (s.m.MWantAdd? ==> n.m == MAdding(s.m.id, s.m.name, s.m.again))
      && (s.m.MWantDel? ==> n.m == MScanning(s.m.id, s.m.name, 0, s.m.again))
      && (!s.m.MWantAdd? && !s.m.MWantDel? ==>
        !n.m.MWantAdd? && !n.m.MAdding? && !n.m.MWantDel? && !n.m.MScanning?)
  {
    hide ParseCommand, EraseAt, Matches, ClientAt, MServe, MPush, MScan;
    match s.m
    case MTop => case MWantFirst => case MChecking => case MWaiting => case MWoken => case MSnapshot =>
    case MSelecting => case MWantSecond => case MAt(_) => case MServing(_) => case MWantAdd(_, _, _) =>
    case MAdding(_, _, _) => case MSignalling(_, _) => case MWantDel(_, _, _) => case MScanning(_, _, _, _) =>
    case MReleasingLogs(_, _) => case MWantPurge(_) => case MPurging(_, _) => case MPurged(_) =>
    case MErasing(_) => case MReleasing => case MDone =>
  }

  lemma MKeepsObedient(s: State, input: MInput, key: int)
    requires Obedient(s)
    ensures Obedient(MStep(s, input, key))
  {
    hide MStep, Obeys, ParseCommand, LastOwn, Demands;
    if s.m.MServing? {
      MServeObeys(s, input, key);
    } else if s.m.MAdding? {
      MAddObeys(s, input, key);
    } else if s.m.MScanning? {
      MScanObeys(s, input, key);
    } else if s.m.MWantPurge? {
      MPurgeObeys(s, input, key);
    } else {
      MGoesOn(s, input, key);
      MShared(s, input, key);
      MSharedHistory(s, input, key);
    }
  }

  lemma AKeepsObedient(s: State, ok: bool)
    requires Locks(s) && Obedient(s)
    ensures Obedient(AStep(s, ok))
  {
    hide AStep, Obeys, ParseCommand, LastOwn, Demands;
    AFrame(s, ok);
    AFlow(s, ok);
    ObeysSnoc(s.history, Cleared);
    LastOwnSnoc(s.history, Cleared);
  }

  lemma RKeepsObedient(s: State, input: RInput)
    requires Obedient(s)
    ensures Obedient(RStep(s, input))
  {
    hide RStep, Obeys, ParseCommand, LastOwn, Demands;
    RShared(s, input);
    RAppends(s, input);
    var n := RStep(s, input);
    if n.history != s.history {
      var e: Event :| n.history == s.history + [e] && !Own(e);
      ObeysSnoc(s.history, e);
      LastOwnSnoc(s.history, e);
    }
  }

  // ----- closed connections -----

  /** The client whose connection is closed and whose key is still in the map. */
  function Leaving(m: MPc): Option<int> {
    match m
    case MWantPurge(id) => Some(id)
    case MPurging(id, _) => Some(id)
    case MPurged(id) => Some(id)
    case MErasing(id) => Some(id)
    case _ => None
  }

  /** Nothing is added for a session that has been closed. */
  ghost predicate AddsOpen(h: seq<Event>) {
    forall j | 0 <= j < |h| && h[j].Added? :: Closed(h[j].entry.session) !in h[..j]
  }

  /** The closed sessions are past ones, and the one that is leaving. */
  ghost predicate Closings(s: State) {
    && (forall n: nat | Closed(n) in s.history :: n < s.nextSession)
    && (forall id | id in s.clients && Closed(s.clients[id].number) in s.history :: Leaving(s.m) == Some(id))
    && (Leaving(s.m).Some? ==> Closed(ClientAt(s, Leaving(s.m).value).number) in s.history)
    && AddsOpen(s.history)
  }

  lemma AddsOpenSnoc(h: seq<Event>, e: Event)
    requires AddsOpen(h) && (e.Added? ==> Closed(e.entry.session) !in h)
    ensures AddsOpen(h + [e])
  {
    var n := h + [e];
    assert n[..|h|] == h;
    forall i | 0 <= i < |h|
      ensures n[..i] == h[..i] && n[i] == h[i]
    {
    }
  }

  lemma MLeaves(s: State, input: MInput, key: int)
    ensures var n := MStep(s, input, key);
      Leaving(n.m)
      == if s.m.MErasing? then None
         else if s.m.MServing? && input.received.Fails? then Some(s.m.id)
         else Leaving(s.m)
  {
    hide ParseCommand, EraseAt, Matches, ClientAt;
    match s.m
    case MTop => case MWantFirst => case MChecking => case MWaiting => case MWoken => case MSnapshot =>
    case MSelecting => case MWantSecond => case MAt(_) => case MServing(_) => case MWantAdd(_, _, _) =>
    case MAdding(_, _, _) => case MSignalling(_, _) => case MWantDel(_, _, _) => case MScanning(_, _, _, _) =>
    case MReleasingLogs(_, _) => case MWantPurge(_) => case MPurging(_, _) => case MPurged(_) =>
    case MErasing(_) => case MReleasing => case MDone =>
  }

  lemma MServeCloses(s: State, input: MInput, key: int)
    requires Keys(s) && Served(s) && Closings(s) && s.m.MServing?
    ensures Closings(MStep(s, input, key))
  {
    hide AfterMessage, AddsOpen;
    MLeaves(s, input, key);
    var c := ClientAt(s, s.m.id).number;
    AddsOpenSnoc(s.history, Closed(c));
    if input.received.Message? {
      AddsOpenSnoc(s.history, GotFrom(ClientAt(s, s.m.id), input.received.octets, input.openOk));
    }
  }

  lemma MAddsOpen(s: State, input: MInput, key: int)
    requires Keys(s) && Served(s) && Closings(s) && s.m.MAdding?
    ensures Closings(MStep(s, input, key))
  {
    hide AddsOpen;
    var c := ClientAt(s, s.m.id);
    AddsOpenSnoc(s.history, Added(Entry(s.m.name, c.id, c.number, s.nextSerial)));
  }

  lemma MKeepsClosings(s: State, input: MInput, key: int)
    requires Keys(s) && Served(s) && Closings(s)
    ensures Closings(MStep(s, input, key))
  {
    hide MStep, AddsOpen;
    if s.m.MServing? {
      MServeCloses(s, input, key);
    } else if s.m.MAdding? {
      MAddsOpen(s, input, key);
    } else {
      MLeaves(s, input, key);
      MFrame(s, input, key);
      MShared(s, input, key);
      MAppends(s, input, key);
      var n := MStep(s, input, key);
      if n.history != s.history {
        var e: Event :| n.history == s.history + [e] && !e.Added? && !e.Closed?;
        AddsOpenSnoc(s.history, e);
      }
    }
  }

  lemma AInserts(s: State, ok: bool)
    ensures var n := AStep(s, ok);
      && s.nextSession <= n.nextSession
      && (forall id | id in n.clients ::
           n.clients[id].number == s.nextSession || (id in s.clients && n.clients[id] == s.clients[id]))
  {
    hide Ids.FirstFree;
    match s.a
    case AAccepting => case AWantClients => case AGenerating => case AInserting(_) => case ASignalling =>
    case AReleasing => case AWantClear => case AClearing => case AReleasingLast => case ADone =>
  }

  lemma AKeepsClosings(s: State, ok: bool)
    requires Locks(s) && Closings(s)
    ensures Closings(AStep(s, ok))
  {
    hide AStep, AddsOpen;
    AFrame(s, ok);
    AFlow(s, ok);
    AInserts(s, ok);
    if s.a.AClearing? {
      AddsOpenSnoc(s.history, Cleared);
    }
  }

  lemma RKeepsClosings(s: State, input: RInput)
    requires Closings(s)
    ensures Closings(RStep(s, input))
  {
    hide RStep, AddsOpen;
    RFrame(s, input);
    RShared(s, input);
    RAppends(s, input);
    var n := RStep(s, input);
    if n.history != s.history {
      var e: Event :| n.history == s.history + [e] && !e.Added? && !e.Closed?;
      AddsOpenSnoc(s.history, e);
    }
  }

  // ----- names -----

  /** The name that the message thread is about to put on the list. */
  function Pending(m: MPc): seq<byte> {
    match m
    case MWantAdd(_, name, _) => name
    case MAdding(_, name, _) => name
    case _ => []
  }

  /** No stored name contains "..", and neither does the one that is about to be stored. */
  ghost predicate Names(s: State) {
    !HasDots(Pending(s.m)) && forall e | e in s.logs :: !HasDots(e.name)
  }

  lemma MPends(s: State, input: MInput, key: int)
    requires !HasDots(Pending(s.m))
    ensures !HasDots(Pending(MStep(s, input, key).m))
  {
    hide HasDots, ParseCommand, EraseAt, Matches, ClientAt;
    NoNameNoDots();
    if s.m.MServing? && input.received.Message? {
      CommandNameHasNoDots(input.received.octets);
    }
    match s.m
    case MTop => case MWantFirst => case MChecking => case MWaiting => case MWoken => case MSnapshot =>
    case MSelecting => case MWantSecond => case MAt(_) => case MServing(_) => case MWantAdd(_, _, _) =>
    case MAdding(_, _, _) => case MSignalling(_, _) => case MWantDel(_, _, _) => case MScanning(_, _, _, _) =>
    case MReleasingLogs(_, _) => case MWantPurge(_) => case MPurging(_, _) => case MPurged(_) =>
    case MErasing(_) => case MReleasing => case MDone =>
  }

  lemma NoNameNoDots()
    ensures !HasDots([])
  {
  }

  lemma MKeepsNames(s: State, input: MInput, key: int)
    requires Names(s)
    ensures Names(MStep(s, input, key))
  {
    hide HasDots, ClientAt;
    MPends(s, input, key);
    if !s.m.MAdding? {
      hide MStep;
      MShrinks(s, input, key);
    }
  }

  lemma AKeepsNames(s: State, ok: bool)
    requires Names(s)
    ensures Names(AStep(s, ok))
  {
    hide AStep, HasDots;
    AFrame(s, ok);
    AFlow(s, ok);
  }

  lemma RKeepsNames(s: State, input: RInput)
    requires Names(s)
    ensures Names(RStep(s, input))
  {
    hide RStep, HasDots;
    RShared(s, input);
    RShrinks(s, input);
  }

  // ----- wake-ups -----

  /** A thread that waits and has not been signalled waits for something that is not there. */
  predicate Wake(s: State) {
    && (s.m.MWaiting? ==> s.clients == map[] || (s.a.ASignalling? && |s.clients| == 1))
    && (s.r.RWaiting? ==> s.logs == [] || (s.m.MSignalling? && |s.logs| == 1))
  }

  lemma AKeepsWake(s: State, ok: bool)
    requires Keys(s) && Wake(s)
    ensures Wake(AStep(s, ok))
  {
    hide Ids.FirstFree;
    match s.a
    case AAccepting => case AWantClients => case AGenerating => case AInserting(_) => case ASignalling =>
    case AReleasing => case AWantClear => case AClearing => case AReleasingLast => case ADone =>
  }

  /** The steps of the message thread that can wait, signal or change the list. */
  lemma MKeepsWakeAt(s: State, input: MInput, key: int)
    requires Wake(s)
    requires s.m.MChecking? || s.m.MWaiting? || s.m.MAdding? || s.m.MSignalling? || s.m.MScanning? || s.m.MPurging?
    ensures Wake(MStep(s, input, key))
  {
    hide ClientAt, EraseAt, Matches;
  }

  lemma MKeepsWake(s: State, input: MInput, key: int)
    requires Wake(s)
    ensures Wake(MStep(s, input, key))
  {
    hide MStep;
    if s.m.MChecking? || s.m.MWaiting? || s.m.MAdding? || s.m.MSignalling? || s.m.MScanning? || s.m.MPurging? {
      MKeepsWakeAt(s, input, key);
    } else {
      MFlow(s, input, key);
      MShared(s, input, key);
    }
  }

  lemma RKeepsWake(s: State, input: RInput)
    requires Wake(s)
    ensures Wake(RStep(s, input))
  {
    hide RStep;
    RFrame(s, input);
    RShared(s, input);
    RWaits(s, input);
  }

  lemma RWaits(s: State, input: RInput)
    ensures var n := RStep(s, input); n.r.RWaiting? ==> n.logs == s.logs && (s.r.RWaiting? || s.logs == [])
  {
    hide EraseAt, SessionOf;
    match s.r
    case RTop => case RWantFirst => case RChecking => case RWaiting => case RWoken => case RSnapshot =>
    case RSelecting => case RWantSecond => case RVisiting(_) => case RFinding(_) => case RFound(_, _) =>
    case RSending(_, _, _) => case RExcepting(_) => case RReleasing => case RDone =>
  }
}
