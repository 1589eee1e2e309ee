/**
 The loops over the list, turn by turn and with the other threads in between, against the loops of the class
 `LogServer`: both come to the same list.
 */
module ServerTurns {
  import opened Bytes
  import opened Options
  import opened Subscriptions
  import opened Server
  import opened ServerSafety
  import opened ServerHistory
  import opened ServerRuns

  lemma {:induction false} SafeAlong(s: State, run: seq<Label>)
    requires Safe(s) && IsRun(s, run)
    ensures Safe(Exec(s, run))
    decreases |run|
  {
    hide Safe, Apply, Enabled;
    if run != [] {
      SafeAlong(s, run[..|run| - 1]);
      StepKeepsSafe(Exec(s, run[..|run| - 1]), run[|run| - 1]);
    }
  }

  lemma Last(s: State, run: seq<Label>)
    requires run != [] && IsRun(s, run)
    ensures var before := run[..|run| - 1];
      && IsRun(s, before) && Enabled(Exec(s, before), run[|run| - 1])
      && Exec(s, run) == Apply(Exec(s, before), run[|run| - 1])
  {
    hide Apply, Enabled;
  }

  // ----- del -----

  /** The loop of `StopReadingLog` that began with the list `l` is under way, or has just ended. */
  ghost predicate InScan(l: seq<Entry>, id: int, name: seq<byte>, s: State) {
    match s.m
    case MScanning(c, n, i, _) =>
      c == id && n == name && s.logs == l && i <= |l| && forall j | 0 <= j < i :: !Matches(l[j], id, name)
    case MReleasingLogs(c, _) => c == id && s.logs == RemoveFirst(l, id, name)
    case _ => false
  }

  lemma ScanTurn(l: seq<Entry>, id: int, name: seq<byte>, s: State, input: MInput, key: int)
    requires Keys(s) && Served(s) && s.m.MScanning? && InScan(l, id, name, s)
    ensures InScan(l, id, name, MStep(s, input, key))
  {
    hide RemoveFirst, Matches, Keys, ClientAt, EraseAt;
    OwnId(s, id);
    var i := s.m.i;
    if i >= |l| {
      RemoveFirstNone(l, id, name);
    } else if Matches(l[i], id, name) {
      RemoveFirstAt(l, i, id, name);
    }
  }

  /** No other thread touches the list, or moves the message thread, in the middle of its loop. */
  lemma OthersLeaveTheLoop(s: State, l: Label)
    requires Safe(s) && Enabled(s, l) && !l.DoM? && MHoldsLogs(s.m)
    ensures Apply(s, l).m == s.m && Apply(s, l).logs == s.logs
  {
    hide AStep, RStep, ACan, RCan, Keys, Cursors, History, Isolated, Requested, Closings, Obedient, Names, Wake;
    match l
    case DoA(ok) => AFrame(s, ok); AFlow(s, ok);
    case DoR(input) => RShared(s, input);
    case _ =>
  }

  /** Whatever happens in between, the loop ends with the list that `StopReadingLog` leaves. */
  lemma {:induction false} ScanEnds(s: State, run: seq<Label>)
    requires Safe(s) && IsRun(s, run) && s.m.MScanning? && s.m.i == 0
    requires forall k | 0 <= k < |run| :: Exec(s, run[..k]).m.MScanning?
    ensures InScan(s.logs, s.m.id, s.m.name, Exec(s, run))
    decreases |run|
  {
    hide Safe, Apply, Enabled, InScan, IsRun, Exec;
    if run == [] {
      ScanBegins(s, run);
    } else {
      Last(s, run);
      var before := run[..|run| - 1];
      forall k | 0 <= k < |before|
        ensures Exec(s, before[..k]).m.MScanning?
      {
        assert before[..k] == run[..k];
      }
      ScanEnds(s, before);
      SafeAlong(s, before);
      ScanLabel(s.logs, s.m.id, s.m.name, Exec(s, before), run[|run| - 1]);
    }
  }

  lemma ScanBegins(s: State, run: seq<Label>)
    requires s.m.MScanning? && s.m.i == 0 && run == []
    ensures InScan(s.logs, s.m.id, s.m.name, Exec(s, run))
  {
  }

  lemma ScanLabel(list: seq<Entry>, id: int, name: seq<byte>, s: State, l: Label)
    requires Safe(s) && Enabled(s, l) && s.m.MScanning? && InScan(list, id, name, s)
    ensures InScan(list, id, name, Apply(s, l))
  {
    hide Keys, Locks, CursorM, CursorR, History, Isolated, Requested, Closings, Obedient, Names, Wake;
    hide MStep, AStep, RStep, Matches, RemoveFirst;
    if l.DoM? {
      ScanTurn(list, id, name, s, l.minput, l.key);
    } else {
      assert MHoldsLogs(s.m);
      OthersLeaveTheLoop(s, l);
    }
  }

  // ----- disconnect -----

  /** The loop of `DeleteRequestsFromClient` that began with the list `l` is under way, or has just ended. */
  ghost predicate InPurge(l: seq<Entry>, id: int, s: State) {
    match s.m
    case MPurging(c, i) => c == id && Without(s.logs, id) == Without(l, id) && Passed(s.logs, i, id)
    case MPurged(c) => c == id && s.logs == Without(l, id)
    case _ => false
  }

  lemma PurgeTurn(l: seq<Entry>, id: int, s: State, input: MInput, key: int)
    requires Keys(s) && Served(s) && s.m.MPurging? && InPurge(l, id, s)
    ensures InPurge(l, id, MStep(s, input, key))
  {
    hide Without, Keys, ClientAt;
    OwnId(s, id);
    var i := s.m.i;
    if i >= |s.logs| {
      WithoutNone(s.logs, id);
    } else if s.logs[i].clientId == id {
      WithoutErase(s.logs, i, id);
    }
  }

  lemma PurgeLabel(list: seq<Entry>, id: int, s: State, l: Label)
    requires Safe(s) && Enabled(s, l) && s.m.MPurging? && InPurge(list, id, s)
    ensures InPurge(list, id, Apply(s, l))
  {
    hide Keys, Locks, CursorM, CursorR, History, Isolated, Requested, Closings, Obedient, Names, Wake;
    hide MStep, AStep, RStep, Without, Passed;
    if l.DoM? {
      PurgeTurn(list, id, s, l.minput, l.key);
    } else {
      assert MHoldsLogs(s.m);
      OthersLeaveTheLoop(s, l);
    }
  }

  lemma PurgeBegins(s: State, run: seq<Label>)
    requires s.m.MPurging? && s.m.i == 0 && run == []
    ensures InPurge(s.logs, s.m.id, Exec(s, run))
  {
  }

  /** Whatever happens in between, the loop ends with the list that `DeleteRequestsFromClient` leaves. */
  lemma {:induction false} PurgeEnds(s: State, run: seq<Label>)
    requires Safe(s) && IsRun(s, run) && s.m.MPurging? && s.m.i == 0
    requires forall k | 0 <= k < |run| :: Exec(s, run[..k]).m.MPurging?
    ensures InPurge(s.logs, s.m.id, Exec(s, run))
    decreases |run|
  {
    hide Safe, Apply, Enabled, InPurge, IsRun, Exec;
    if run == [] {
      PurgeBegins(s, run);
    } else {
      Last(s, run);
      var before := run[..|run| - 1];
      forall k | 0 <= k < |before|
        ensures Exec(s, before[..k]).m.MPurging?
      {
        assert before[..k] == run[..k];
      }
      PurgeEnds(s, before);
      SafeAlong(s, before);
      PurgeLabel(s.logs, s.m.id, Exec(s, before), run[|run| - 1]);
    }
  }

  // ----- the reader's pass -----

  /** The lines sent in a history. */
  function Deliveries(h: seq<Event>): seq<Delivery> {
    if h == [] then []
    else
      var last := h[|h| - 1];
      Deliveries(h[..|h| - 1]) + if last.Sent? then [Delivery(last.entry.clientId, last.line)] else []
  }

  lemma DeliveriesSnoc(h: seq<Event>, e: Event)
    ensures Deliveries(h + [e])
         == Deliveries(h) + if e.Sent? then [Delivery(e.entry.clientId, e.line)] else []
  {
    assert (h + [e])[..|h|] == h;
  }

  lemma PassHead(l: seq<Entry>, vs: seq<Visit>)
    requires |l| == |vs| > 0
    ensures Kept(l, vs) == (if Stays(l[0], vs[0]) then [l[0]] else []) + Kept(l[1..], vs[1..])
    ensures Lines(l, vs) == LineOf(l[0], vs[0]) + Lines(l[1..], vs[1..])
  {
    hide Stays, LineOf;
  }

  lemma PassNothing()
    ensures Kept([], []) == [] && Lines([], []) == []
  {
  }

  lemma {:induction false} PassSnoc(l: seq<Entry>, vs: seq<Visit>, e: Entry, v: Visit)
    requires |l| == |vs|
    ensures Kept(l + [e], vs + [v]) == Kept(l, vs) + (if Stays(e, v) then [e] else [])
    ensures Lines(l + [e], vs + [v]) == Lines(l, vs) + LineOf(e, v)
  {
    hide Stays, LineOf, Kept, Lines;
    PassHead(l + [e], vs + [v]);
    PassNothing();
    if l == [] {
      assert (l + [e])[1..] == [] && (vs + [v])[1..] == [];
    } else {
      PassHead(l, vs);
      PassSnoc(l[1..], vs[1..], e, v);
      assert (l + [e])[1..] == l[1..] + [e] && (vs + [v])[1..] == vs[1..] + [v];
    }
  }

  /** The pass has made the visits `vs` to the front of the list `all`, and is in the middle of visit `v`. */
  ghost predicate InPass(all: seq<Entry>, before: seq<Delivery>, vs: seq<Visit>, v: Visit, s: State) {
    && |vs| <= |all|
    && var n := |vs|;
      var kept, sent := Kept(all[..n], vs), before + Lines(all[..n], vs);
      && s.logs == kept + all[n..]
      && match s.r
         case RVisiting(i) => i == |kept| && Deliveries(s.history) == sent
         case RFinding(i) => i == |kept| && n < |all| && Deliveries(s.history) == sent
         case RFound(i, id) =>
           && i == |kept| && n < |all| && Deliveries(s.history) == sent
           && id == all[n].clientId && v.readable && id in v.live
         case RSending(i, id, line) =>
           && i == |kept| && n < |all| && Deliveries(s.history) == sent
           && id == all[n].clientId && v.readable && id in v.live && v.line == Some(line)
         case RExcepting(i) =>
           && i == |kept| && n < |all| && Deliveries(s.history) == sent + LineOf(all[n], v)
           && (v.readable ==> all[n].clientId in v.live)
         case RReleasing => n == |all| && Deliveries(s.history) == sent
         case _ => false
  }

  lemma TakeOneMore(all: seq<Entry>, n: nat)
    requires n < |all|
    ensures all[..n + 1] == all[..n] + [all[n]] && all[n..] == [all[n]] + all[n + 1..]
  {
  }

  /** The visit `v` to the entry after the front is complete. */
  lemma NextVisit(all: seq<Entry>, vs: seq<Visit>, v: Visit)
    requires |vs| < |all|
    ensures var n := |vs|;
      && Kept(all[..n + 1], vs + [v]) == Kept(all[..n], vs) + (if Stays(all[n], v) then [all[n]] else [])
      && Lines(all[..n + 1], vs + [v]) == Lines(all[..n], vs) + LineOf(all[n], v)
      && all[n..] == [all[n]] + all[n + 1..]
  {
    hide Kept, Lines, Stays, LineOf;
    var front := all[..|vs|];
    TakeOneMore(all, |vs|);
    PassSnoc(front, vs, all[|vs|], v);
  }

  lemma EraseMiddle(front: seq<Entry>, e: Entry, back: seq<Entry>)
    ensures EraseAt(front + ([e] + back), |front|) == front + back
  {
  }

  lemma PassVisits(all: seq<Entry>, before: seq<Delivery>, vs: seq<Visit>, v: Visit, s: State, input: RInput)
    returns (vs': seq<Visit>, v': Visit)
    requires InPass(all, before, vs, v, s) && s.r.RVisiting?
    ensures InPass(all, before, vs', v', RStep(s, input))
  {
    hide Kept, Lines, Deliveries;
    vs', v' := vs, Visit(false, {}, None, false);
    assert LineOf(if |vs| < |all| then all[|vs|] else Entry([], 0, 0, 0), v') == [];
    var sent := before + Lines(all[..|vs|], vs);
    assert sent + [] == sent;
  }

  lemma PassFinds(all: seq<Entry>, before: seq<Delivery>, vs: seq<Visit>, v: Visit, s: State, input: RInput)
    returns (vs': seq<Visit>, v': Visit)
    requires InPass(all, before, vs, v, s) && (s.r.RFinding? || s.r.RFound?)
    ensures InPass(all, before, vs', v', RStep(s, input))
  {
    hide Kept, Lines, Deliveries, EraseAt;
    var n := |vs|;
    var kept, sent := Kept(all[..n], vs), before + Lines(all[..n], vs);
    var e := all[n];
    assert s.logs[|kept|] == e;
    if s.r.RFound? {
      vs', v' := vs, v.(line := input.line);
      assert sent + [] == sent;
    } else if e.clientId in s.clients {
      vs', v' := vs, Visit(true, s.clients.Keys, None, false);
    } else {
      v' := Visit(true, s.clients.Keys, None, false);
      vs' := vs + [v'];
      NextVisit(all, vs, v');
      EraseMiddle(kept, e, all[n + 1..]);
      DeliveriesSnoc(s.history, Orphaned(e.serial));
      assert kept + [] == kept && before + (Lines(all[..n], vs) + []) == sent && Deliveries(s.history) + [] == sent;
    }
  }

  lemma PassSends(all: seq<Entry>, before: seq<Delivery>, vs: seq<Visit>, v: Visit, s: State, input: RInput)
    requires InPass(all, before, vs, v, s) && s.r.RSending?
    ensures InPass(all, before, vs, v, RStep(s, input))
  {
    hide Kept, Lines, Deliveries, SessionOf;
    var n := |vs|;
    var kept := Kept(all[..n], vs);
    assert s.logs[|kept|] == all[n];
    DeliveriesSnoc(s.history, Sent(SessionOf(s, s.r.id), all[n], s.r.line));
  }

  lemma PassExcepts(all: seq<Entry>, before: seq<Delivery>, vs: seq<Visit>, v: Visit, s: State, input: RInput)
    returns (vs': seq<Visit>)
    requires InPass(all, before, vs, v, s) && s.r.RExcepting?
    ensures InPass(all, before, vs', v, RStep(s, input))
  {
    hide Kept, Lines, Deliveries, EraseAt;
    var n := |vs|;
    var kept, e := Kept(all[..n], vs), all[n];
    assert s.logs[|kept|] == e;
    var v' := v.(exceptional := input.flag);
    vs' := vs + [v'];
    NextVisit(all, vs, v');
    assert LineOf(e, v') == LineOf(e, v);
    assert before + (Lines(all[..n], vs) + LineOf(e, v)) == before + Lines(all[..n], vs) + LineOf(e, v);
    if input.flag {
      EraseMiddle(kept, e, all[n + 1..]);
      DeliveriesSnoc(s.history, Erased(e.serial));
      assert Deliveries(s.history) + [] == Deliveries(s.history) && kept + [] == kept;
    } else {
      assert kept + [e] + all[n + 1..] == kept + ([e] + all[n + 1..]);
    }
  }

  /** The other threads change neither the list nor the reader in the middle of its pass, and send nothing. */
  lemma OthersLeaveThePass(s: State, l: Label)
    requires Safe(s) && Enabled(s, l) && !l.DoR? && RHolds(s.r)
    ensures Apply(s, l).r == s.r && Apply(s, l).logs == s.logs
    ensures Deliveries(Apply(s, l).history) == Deliveries(s.history)
  {
    hide AStep, MStep, ACan, MCan, Keys, Cursors, History, Isolated, Requested, Closings, Obedient, Names;
    hide Wake, Deliveries;
    var n := Apply(s, l);
    match l
    case DoA(ok) =>
      AFrame(s, ok);
      DeliveriesSnoc(s.history, Cleared);
      assert Deliveries(s.history) + [] == Deliveries(s.history);
    case DoM(input, key) =>
      MShared(s, input, key);
      MAppends(s, input, key);
      if n.history != s.history {
        var e: Event :| n.history == s.history + [e] && !e.Sent?;
        DeliveriesSnoc(s.history, e);
        assert Deliveries(s.history) + [] == Deliveries(s.history);
      }
    case _ =>
  }

  lemma PassLabel(all: seq<Entry>, before: seq<Delivery>, vs: seq<Visit>, v: Visit, s: State, l: Label)
    returns (vs': seq<Visit>, v': Visit)
    requires Safe(s) && Enabled(s, l) && InPass(all, before, vs, v, s) && !s.r.RReleasing?
    ensures InPass(all, before, vs', v', Apply(s, l))
  {
    hide Safe, Kept, Lines, Deliveries, LineOf, MStep, AStep, RStep, MCan, ACan, RCan;
    vs', v' := vs, v;
    if !l.DoR? {
      OthersLeaveThePass(s, l);
    } else if s.r.RVisiting? {
      vs', v' := PassVisits(all, before, vs, v, s, l.rinput);
    } else if s.r.RFinding? || s.r.RFound? {
      vs', v' := PassFinds(all, before, vs, v, s, l.rinput);
    } else if s.r.RSending? {
      PassSends(all, before, vs, v, s, l.rinput);
    } else {
      vs' := PassExcepts(all, before, vs, v, s, l.rinput);
    }
  }

  lemma PassBegins(s: State, run: seq<Label>, v: Visit)
    requires s.r == RVisiting(0) && run == []
    ensures InPass(s.logs, Deliveries(s.history), [], v, Exec(s, run))
  {
    assert s.logs[..0] == [] && s.logs[0..] == s.logs;
    assert Deliveries(s.history) + [] == Deliveries(s.history);
  }

  lemma {:induction false} PassGoesOn(s: State, run: seq<Label>) returns (vs: seq<Visit>, v: Visit)
    requires Safe(s) && IsRun(s, run) && s.r == RVisiting(0)
    requires forall k | 0 <= k < |run| :: !Exec(s, run[..k]).r.RReleasing?
    ensures InPass(s.logs, Deliveries(s.history), vs, v, Exec(s, run))
    decreases |run|
  {
    hide Safe, Apply, Enabled, InPass, IsRun, Exec, Deliveries;
    if run == [] {
      vs, v := [], Visit(false, {}, None, false);
      PassBegins(s, run, v);
    } else {
      Last(s, run);
      var front := run[..|run| - 1];
      forall k | 0 <= k < |front|
        ensures !Exec(s, front[..k]).r.RReleasing?
      {
        assert front[..k] == run[..k];
      }
      vs, v := PassGoesOn(s, front);
      SafeAlong(s, front);
      assert front == run[..|run| - 1];
      vs, v := PassLabel(s.logs, Deliveries(s.history), vs, v, Exec(s, front), run[|run| - 1]);
    }
  }

  /**
   Whatever the other threads do in between, a pass ends with the list that `ReaderPass` leaves and has sent
   the lines that `ReaderPass` sends, for some outcomes of its visits.
   */
  lemma PassEnds(s: State, run: seq<Label>) returns (visits: seq<Visit>)
    requires Safe(s) && IsRun(s, run) && s.r == RVisiting(0) && Exec(s, run).r.RReleasing?
    requires forall k | 0 <= k < |run| :: !Exec(s, run[..k]).r.RReleasing?
    ensures |visits| == |s.logs|
    ensures Exec(s, run).logs == Kept(s.logs, visits)
    ensures Deliveries(Exec(s, run).history) == Deliveries(s.history) + Lines(s.logs, visits)
  {
    hide Safe, IsRun, Exec, Deliveries, Kept, Lines;
    var v;
    visits, v := PassGoesOn(s, run);
    assert s.logs[..|visits|] == s.logs;
  }
}
