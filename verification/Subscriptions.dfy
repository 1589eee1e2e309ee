/**
 The subscription list (log-server/log-server.cpp): the operations on `logs`, each a loop over the list
 under `logs_mutex`, and the commands of clients.
 */
module Subscriptions {
  import opened Bytes
  import opened Options
  import opened CStrings

  /**
   A `LogDescription` of the list: the file name and the id of the client. `session` and `serial` are
   history variables: the connection that asked for the log, and the number of the request.
   */
  datatype Entry = Entry(name: seq<byte>, clientId: int, session: nat, serial: nat)

  // ----- what the operations do to the list -----

  predicate Matches(e: Entry, clientId: int, name: seq<byte>) {
    e.clientId == clientId && e.name == name
  }

  /** `del`: the oldest entry of that client with that name goes. */
  function RemoveFirst(l: seq<Entry>, clientId: int, name: seq<byte>): seq<Entry> {
    if l == [] then []
    else if Matches(l[0], clientId, name) then l[1..]
    else [l[0]] + RemoveFirst(l[1..], clientId, name)
  }

  /** Disconnect: every entry of that client goes. */
  function Without(l: seq<Entry>, clientId: int): seq<Entry> {
    if l == [] then []
    else if l[0].clientId == clientId then Without(l[1..], clientId)
    else [l[0]] + Without(l[1..], clientId)
  }

  /** An exception on one log: the entry with that serial goes. */
  function RemoveSerial(l: seq<Entry>, serial: nat): seq<Entry> {
    if l == [] then []
    else if l[0].serial == serial then l[1..]
    else [l[0]] + RemoveSerial(l[1..], serial)
  }

  function EraseAt(l: seq<Entry>, i: nat): (r: seq<Entry>)
    requires i < |l|
    ensures |r| == |l| - 1
  {
    l[..i] + l[i + 1..]
  }

  lemma {:induction false} RemoveFirstAt(l: seq<Entry>, i: nat, clientId: int, name: seq<byte>)
    requires i < |l| && Matches(l[i], clientId, name)
    requires forall j | 0 <= j < i :: !Matches(l[j], clientId, name)
    ensures RemoveFirst(l, clientId, name) == EraseAt(l, i)
  {
    if i > 0 {
      assert !Matches(l[0], clientId, name);
      RemoveFirstAt(l[1..], i - 1, clientId, name);
    }
  }

  lemma {:induction false} RemoveFirstNone(l: seq<Entry>, clientId: int, name: seq<byte>)
    requires forall j | 0 <= j < |l| :: !Matches(l[j], clientId, name)
    ensures RemoveFirst(l, clientId, name) == l
  {
    if l != [] {
      RemoveFirstNone(l[1..], clientId, name);
    }
  }

  /** The entry that goes is the earliest of that client with that name; when there is none, nothing goes. */
  lemma RemoveFirstMeaning(l: seq<Entry>, clientId: int, name: seq<byte>)
    ensures (forall e | e in l :: e.clientId != clientId || e.name != name) ==> RemoveFirst(l, clientId, name) == l
    ensures forall i | 0 <= i < |l| && l[i].clientId == clientId && l[i].name == name
        && (forall j | 0 <= j < i :: l[j].clientId != clientId || l[j].name != name) ::
      RemoveFirst(l, clientId, name) == l[..i] + l[i + 1..]
  {
    hide RemoveFirst;
    if forall e | e in l :: e.clientId != clientId || e.name != name {
      RemoveFirstNone(l, clientId, name);
    }
    forall i | 0 <= i < |l| && l[i].clientId == clientId && l[i].name == name
        && (forall j | 0 <= j < i :: l[j].clientId != clientId || l[j].name != name)
      ensures RemoveFirst(l, clientId, name) == l[..i] + l[i + 1..]
    {
      RemoveFirstAt(l, i, clientId, name);
    }
  }

  /** The entries of other clients, and those with other names, all stay. */
  lemma {:induction false} RemoveFirstKeepsOthers(l: seq<Entry>, clientId: int, name: seq<byte>, e: Entry)
    requires e in l && (e.clientId != clientId || e.name != name)
    ensures e in RemoveFirst(l, clientId, name)
  {
    if e != l[0] {
      RemoveFirstKeepsOthers(l[1..], clientId, name, e);
    }
  }

  /** ... as many of each and in their order. */
  lemma {:induction false} WithoutRemoveFirst(l: seq<Entry>, clientId: int, name: seq<byte>)
    ensures Without(RemoveFirst(l, clientId, name), clientId) == Without(l, clientId)
  {
    if l != [] {
      WithoutRemoveFirst(l[1..], clientId, name);
    }
  }

  lemma {:induction false} WithoutErase(l: seq<Entry>, i: nat, clientId: int)
    requires i < |l| && l[i].clientId == clientId
    ensures Without(EraseAt(l, i), clientId) == Without(l, clientId)
  {
    if i == 0 {
      assert EraseAt(l, 0) == l[1..];
    } else {
      WithoutErase(l[1..], i - 1, clientId);
      assert EraseAt(l, i)[1..] == EraseAt(l[1..], i - 1);
    }
  }

  lemma {:induction false} WithoutNone(l: seq<Entry>, clientId: int)
    requires forall j | 0 <= j < |l| :: l[j].clientId != clientId
    ensures Without(l, clientId) == l
  {
    if l != [] {
      WithoutNone(l[1..], clientId);
    }
  }

  /** What is left after a disconnect: exactly the other clients' entries, ... */
  lemma {:induction false} WithoutMeaning(l: seq<Entry>, clientId: int)
    ensures forall e :: e in Without(l, clientId) <==> e in l && e.clientId != clientId
  {
    if l != [] {
      WithoutMeaning(l[1..], clientId);
      assert l == [l[0]] + l[1..];
    }
  }

  /** ... as many of each as there were, ... */
  lemma {:induction false} WithoutCounts(l: seq<Entry>, clientId: int, e: Entry)
    ensures multiset(Without(l, clientId))[e] == if e.clientId == clientId then 0 else multiset(l)[e]
  {
    if l != [] {
      WithoutCounts(l[1..], clientId, e);
      assert l == [l[0]] + l[1..];
    }
  }

  lemma WithoutHead(l: seq<Entry>, clientId: int)
    requires l != []
    ensures Without(l, clientId) == (if l[0].clientId == clientId then [] else [l[0]]) + Without(l[1..], clientId)
  {
  }

  /** ... and in their order: what comes before stays before. */
  lemma {:induction false} WithoutConcat(l: seq<Entry>, k: seq<Entry>, clientId: int)
    ensures Without(l + k, clientId) == Without(l, clientId) + Without(k, clientId)
  {
    if l == [] {
      assert l + k == k;
    } else {
      hide Without;
      WithoutHead(l, clientId);
      WithoutHead(l + k, clientId);
      assert (l + k)[0] == l[0] && (l + k)[1..] == l[1..] + k;
      WithoutConcat(l[1..], k, clientId);
    }
  }

  /** Serials grow along the list. */
  ghost predicate Ascending(l: seq<Entry>) {
    forall i, j | 0 <= i < j < |l| :: l[i].serial < l[j].serial
  }

  lemma {:induction false} RemoveSerialAt(l: seq<Entry>, i: nat)
    requires i < |l| && Ascending(l)
    ensures RemoveSerial(l, l[i].serial) == EraseAt(l, i)
  {
    if i > 0 {
      assert l[0].serial < l[i].serial;
      RemoveSerialAt(l[1..], i - 1);
      assert EraseAt(l, i)[1..] == EraseAt(l[1..], i - 1);
    }
  }

  // ----- commands -----

  datatype Command = Ignore | Add(name: seq<byte>) | Del(name: seq<byte>)

  const ADD: seq<byte> := [0x61, 0x64, 0x64] // "add"
  const DEL: seq<byte> := [0x64, 0x65, 0x6C] // "del"
  const DOTS: seq<byte> := [0x2E, 0x2E] // ".."
  const SPACE: seq<byte> := [0x20]

  /** `CheckLogName` and the tests of `OnMessage` on the C string of a message. */
  function ParseCommand(message: seq<byte>): Command {
    var s := CStr(message);
    if IndexOf(s, DOTS, 0) != -1 then Ignore
    else
      var space := IndexOf(s, SPACE, 0);
      if space == -1 then Ignore
      else
        var name := s[space + 1..];
        if ADD <= s then Add(name) else if DEL <= s then Del(name) else Ignore
  }

  /** What a message of a client makes of the list. */
  function Obeyed(
    l: seq<Entry>, message: seq<byte>, clientId: int, session: nat, serial: nat, openOk: bool): seq<Entry>
  {
    match ParseCommand(message)
    case Ignore => l
    case Add(name) => if openOk then l + [Entry(name, clientId, session, serial)] else l
    case Del(name) => RemoveFirst(l, clientId, name)
  }

  /** The first space of a message ends the command word; the rest is the name. */
  ghost predicate SplitsAt(s: seq<byte>, p: nat, name: seq<byte>) {
    p < |s| && s[p] == 0x20 && (forall k | 0 <= k < p :: s[k] != 0x20) && name == s[p + 1..]
  }

  /** Two dots in a row. */
  ghost predicate TwoDots(s: seq<byte>) {
    exists i | 0 <= i < |s| - 1 :: s[i] == 0x2E && s[i + 1] == 0x2E
  }

  lemma DotsIff(s: seq<byte>)
    ensures IndexOf(s, DOTS, 0) != -1 <==> TwoDots(s)
    ensures HasDots(s) <==> TwoDots(s)
  {
    hide IndexOf;
    forall i: nat | i < |s|
      ensures MatchAt(s, i, DOTS) <==> i + 1 < |s| && s[i] == 0x2E && s[i + 1] == 0x2E
    {
      if i + 1 < |s| {
        assert s[i..i + 2] == [s[i], s[i + 1]];
      }
    }
    var at := IndexOf(s, DOTS, 0);
    if at != -1 {
      assert s[at] == 0x2E && s[at + 1] == 0x2E;
    }
    if TwoDots(s) {
      var i: nat :| i < |s| - 1 && s[i] == 0x2E && s[i + 1] == 0x2E;
      assert MatchAt(s, i, DOTS);
    }
  }

  lemma SpaceIff(s: seq<byte>, p: nat)
    ensures IndexOf(s, SPACE, 0) == p <==> p < |s| && s[p] == 0x20 && forall k | 0 <= k < p :: s[k] != 0x20
  {
    hide IndexOf;
    forall i: nat | i < |s|
      ensures MatchAt(s, i, SPACE) <==> s[i] == 0x20
    {
      assert s[i..i + 1] == [s[i]];
    }
    if p < |s| && s[p] == 0x20 && forall k | 0 <= k < p :: s[k] != 0x20 {
      FirstMatch(s, SPACE, 0, p);
    }
  }

  /** A message is the command that its text says: "add" or "del" in front, a space, a name, and never two dots. */
  lemma ParseCommandIff(message: seq<byte>, name: seq<byte>)
    ensures var s := CStr(message);
      && (ParseCommand(message) == Add(name) <==>
            !TwoDots(s) && (exists p: nat :: SplitsAt(s, p, name)) && [0x61, 0x64, 0x64] <= s)
      && (ParseCommand(message) == Del(name) <==>
            !TwoDots(s) && (exists p: nat :: SplitsAt(s, p, name)) && [0x64, 0x65, 0x6C] <= s)
  {
    hide IndexOf, TwoDots, CStr;
    var s := CStr(message);
    DotsIff(s);
    var space := IndexOf(s, SPACE, 0);
    forall p: nat
      ensures SplitsAt(s, p, name) <==> space == p && name == s[p + 1..]
    {
      SpaceIff(s, p);
    }
    if space != -1 {
      SpaceIff(s, space);
      assert SplitsAt(s, space, s[space + 1..]);
    }
    AddIsNotDel(s);
  }

  lemma AddIsNotDel(s: seq<byte>)
    ensures !(ADD <= s && DEL <= s)
  {
    assert ADD <= s ==> s[0] == ADD[0] == 0x61;
    assert DEL <= s ==> s[0] == DEL[0] == 0x64;
  }

  predicate HasDots(name: seq<byte>) {
    exists i: nat | i < |name| :: MatchAt(name, i, DOTS)
  }

  lemma SuffixHasNoDots(s: seq<byte>, from: nat)
    requires from <= |s| && IndexOf(s, DOTS, 0) == -1
    ensures !HasDots(s[from..])
  {
    hide IndexOf;
    var name := s[from..];
    forall i: nat | i < |name|
      ensures !MatchAt(name, i, DOTS)
    {
      assert !MatchAt(s, from + i, DOTS);
      if i + 2 <= |name| {
        assert name[i..i + 2] == s[from + i..from + i + 2];
      }
    }
  }

  /** No command ever carries a name with "..". */
  lemma CommandNameHasNoDots(message: seq<byte>)
    ensures var c := ParseCommand(message); c != Ignore ==> !HasDots(c.name)
  {
    hide IndexOf, CStr, HasDots;
    var s, c := CStr(message), ParseCommand(message);
    if c != Ignore {
      SuffixHasNoDots(s, IndexOf(s, SPACE, 0) + 1);
    }
  }

  // ----- the loops -----

  /**
   One visit of the reader's pass: the outcomes of `FD_ISSET`, `GetNextLine` and `FD_ISSET` again, and the
   keys of the client map at the time of the `find`, as the reader does not own the map's mutex.
   */
  datatype Visit = Visit(readable: bool, live: set<int>, line: Option<seq<byte>>, exceptional: bool)

  /** A line that the pass sends to a client. */
  datatype Delivery = Delivery(clientId: int, line: seq<byte>)

  /** Whether the pass leaves an entry in the list. */
  predicate Stays(e: Entry, v: Visit) {
    !(v.readable && e.clientId !in v.live) && !v.exceptional
  }

  /** The line of a visit, if there is one to send. */
  function LineOf(e: Entry, v: Visit): seq<Delivery> {
    if v.readable && e.clientId in v.live && v.line.Some? then [Delivery(e.clientId, v.line.value)] else []
  }

  /** The list after a pass; visit `i` is that of entry `i`. */
  function Kept(l: seq<Entry>, visits: seq<Visit>): seq<Entry>
    requires |visits| == |l|
  {
    if l == [] then []
    else (if Stays(l[0], visits[0]) then [l[0]] else []) + Kept(l[1..], visits[1..])
  }

  /** The lines of a pass, in the order of the list. */
  function Lines(l: seq<Entry>, visits: seq<Visit>): seq<Delivery>
    requires |visits| == |l|
  {
    if l == [] then [] else LineOf(l[0], visits[0]) + Lines(l[1..], visits[1..])
  }

  class LogServer {
    var logs: seq<Entry>

    /** `StartReadingLog`, when the file can be opened; `signalled` tells whether the reader is woken. */
    method StartReadingLog(e: Entry, openOk: bool) returns (ret: int, signalled: bool)
      modifies this
      ensures ret == if openOk then 0 else -1
      ensures logs == if openOk then old(logs) + [e] else old(logs)
      ensures signalled <==> openOk && old(logs) == []
    {
      if !openOk {
        return -1, false;
      }
      logs := logs + [e];
      signalled := |logs| == 1;
      return 0, signalled;
    }

    /** `StopReadingLog`. */
    method StopReadingLog(clientId: int, name: seq<byte>)
      modifies this
      ensures logs == RemoveFirst(old(logs), clientId, name)
    {
      hide RemoveFirst;
      var it := 0;
      while it < |logs|
        invariant 0 <= it <= |logs| && logs == old(logs)
        invariant forall j | 0 <= j < it :: !Matches(logs[j], clientId, name)
      {
        if logs[it].clientId == clientId && logs[it].name == name {
          RemoveFirstAt(logs, it, clientId, name);
          logs := EraseAt(logs, it);
          return;
        } else {
          it := it + 1;
        }
      }
      RemoveFirstNone(logs, clientId, name);
    }

    /** `DeleteRequestsFromClient`, and so `OnDisconnect`. */
    method DeleteRequestsFromClient(clientId: int)
      modifies this
      ensures logs == Without(old(logs), clientId)
    {
      hide Without;
      var it := 0;
      while it < |logs|
        invariant 0 <= it <= |logs|
        invariant Without(logs, clientId) == Without(old(logs), clientId)
        invariant forall j | 0 <= j < it :: logs[j].clientId != clientId
        decreases |logs| - it
      {
        if logs[it].clientId == clientId {
          WithoutErase(logs, it, clientId);
          logs := EraseAt(logs, it);
        } else {
          it := it + 1;
        }
      }
      WithoutNone(logs, clientId);
    }

    /** `OnMessage`: what a message of the client does to the list. */
    method OnMessage(message: seq<byte>, clientId: int, session: nat, serial: nat, openOk: bool)
      modifies this
      ensures logs == Obeyed(old(logs), message, clientId, session, serial, openOk)
    {
      hide RemoveFirst;
      var s := CStr(message);
      if IndexOf(s, DOTS, 0) == -1 {
        var offset := IndexOf(s, SPACE, 0);
        if offset == -1 {
          return;
        }
        var name := s[offset + 1..];
        if ADD <= s {
          var _, _ := StartReadingLog(Entry(name, clientId, session, serial), openOk);
        } else if DEL <= s {
          StopReadingLog(clientId, name);
        }
      }
    }

    /** The reader's pass over the list in `Run`, with the iterator that erases as it goes. */
    method ReaderPass(visits: seq<Visit>) returns (sent: seq<Delivery>)
      requires |visits| == |logs|
      modifies this
      ensures logs == Kept(old(logs), visits)
      ensures sent == Lines(old(logs), visits)
    {
      hide Kept, Lines, EraseAt;
      ghost var all, done := logs, [];
      sent := [];
      var it, n := 0, 0;
      PassStart(all, visits);
      while it < |logs|
        invariant 0 <= n <= |all| && |visits| == |all|
        invariant it == |done| && logs == done + all[n..]
        invariant done + Kept(all[n..], visits[n..]) == Kept(all, visits)
        invariant sent + Lines(all[n..], visits[n..]) == Lines(all, visits)
        decreases |all| - n
      {
        var e, v := logs[it], visits[n];
        PassStep(all, visits, n, done);
        n := n + 1;
        if v.readable {
          if e.clientId !in v.live {
            logs := EraseAt(logs, it);
            continue;
          }
          if v.line.Some? {
            sent := sent + [Delivery(e.clientId, v.line.value)];
          }
        }
        if v.exceptional {
          logs := EraseAt(logs, it);
          continue;
        }
        done := done + [e];
        it := it + 1;
      }
      PassEnd(all, visits, n);
    }
  }

  lemma PassStart(l: seq<Entry>, visits: seq<Visit>)
    requires |visits| == |l|
    ensures l[0..] == l && visits[0..] == visits
    ensures [] + Kept(l, visits) == Kept(l, visits)
    ensures [] + Lines(l, visits) == Lines(l, visits)
    ensures [] + l == l
  {
  }

  lemma PassEnd(l: seq<Entry>, visits: seq<Visit>, n: nat)
    requires n <= |l| == |visits|
    ensures l[n..] == [] ==> Kept(l[n..], visits[n..]) == [] && Lines(l[n..], visits[n..]) == []
  {
  }

  /** One turn of the pass: what it adds to the lines, and what it makes of the list `done + l[n..]`. */
  lemma PassStep(l: seq<Entry>, visits: seq<Visit>, n: nat, done: seq<Entry>)
    requires n < |l| == |visits|
    ensures Kept(l[n..], visits[n..])
         == (if Stays(l[n], visits[n]) then [l[n]] else []) + Kept(l[n + 1..], visits[n + 1..])
    ensures Lines(l[n..], visits[n..]) == LineOf(l[n], visits[n]) + Lines(l[n + 1..], visits[n + 1..])
    ensures EraseAt(done + l[n..], |done|) == done + l[n + 1..]
    ensures done + l[n..] == done + [l[n]] + l[n + 1..]
  {
    assert l[n..][1..] == l[n + 1..] && visits[n..][1..] == visits[n + 1..];
  }
}
