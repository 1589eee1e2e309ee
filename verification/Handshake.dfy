/**
 The parser of the HTTP upgrade request (log-server/cwebsocket/websocket.c:54-172) against a declarative
 description of the requests it accepts.
 */
module Handshake {
  import opened Bytes
  import opened CStrings

  // ----- header fields -----

  datatype Field = Host | Origin | Protocol | Key | Version | Connection | Upgrade {
    /** The field names, as the constants of websocket.h spell them. */
    function Name(): (n: seq<byte>) {
      match this
      case Host => [0x48, 0x6F, 0x73, 0x74, 0x3A, 0x20] // "Host: "
      case Origin => [0x4F, 0x72, 0x69, 0x67, 0x69, 0x6E, 0x3A, 0x20] // "Origin: "
      case Protocol => SEC + [0x50, 0x72, 0x6F, 0x74, 0x6F, 0x63, 0x6F, 0x6C, 0x3A, 0x20] // "Protocol: "
      case Key => SEC + [0x4B, 0x65, 0x79, 0x3A, 0x20] // "Key: "
      case Version => SEC + [0x56, 0x65, 0x72, 0x73, 0x69, 0x6F, 0x6E, 0x3A, 0x20] // "Version: "
      case Connection => [0x43, 0x6F, 0x6E, 0x6E, 0x65, 0x63, 0x74, 0x69, 0x6F, 0x6E, 0x3A, 0x20] // "Connection: "
      case Upgrade => [0x55, 0x70, 0x67, 0x72, 0x61, 0x64, 0x65, 0x3A, 0x20] // "Upgrade: "
    }
  }

  /** "Sec-WebSocket-" */
  const SEC: seq<byte> := [0x53, 0x65, 0x63, 0x2D, 0x57, 0x65, 0x62, 0x53, 0x6F, 0x63, 0x6B, 0x65, 0x74, 0x2D]

  const UPGRADE_VALUE: seq<byte> := [0x75, 0x70, 0x67, 0x72, 0x61, 0x64, 0x65] // "upgrade"
  const WEBSOCKET_VALUE: seq<byte> := [0x77, 0x65, 0x62, 0x73, 0x6F, 0x63, 0x6B, 0x65, 0x74] // "websocket"
  const VERSION_VALUE: seq<byte> := [0x31, 0x33] // "13"
  const GET: seq<byte> := [0x47, 0x45, 0x54, 0x20] // "GET "

  /** Octets that neither end a line nor a string. */
  predicate LineOctets(b: seq<byte>) {
    forall i | 0 <= i < |b| :: b[i] != 0 && b[i] != 0x0D && b[i] != 0x0A
  }

  lemma SecFacts(b: seq<byte>)
    requires LineOctets(b)
    ensures LineOctets(SEC + b)
  {
    assert LineOctets(SEC);
  }

  lemma NameFacts(f: Field)
    ensures var n := f.Name(); |n| >= 6 && n[|n| - 1] == 0x20 && !IsSpace(n[0]) && LineOctets(n)
  {
    match f
    case Host =>
    case Origin =>
    case Protocol => SecFacts(f.Name()[|SEC|..]);
    case Key => SecFacts(f.Name()[|SEC|..]);
    case Version => SecFacts(f.Name()[|SEC|..]);
    case Connection =>
    case Upgrade =>
  }

  /** No line can start with two of the names, so the order of the tests in the loop does not matter. */
  lemma NamesApart(f: Field, g: Field, line: seq<byte>)
    requires f.Name() <= line && g.Name() <= line
    ensures f == g
  {
    assert line[0] == f.Name()[0] == g.Name()[0];
    if f in {Protocol, Key, Version} && g in {Protocol, Key, Version} {
      assert line[14] == f.Name()[14] == g.Name()[14];
    }
  }

  datatype Tag = NoField | Of(field: Field)

  /** The tests of the loop, in its order. */
  function TagOf(line: seq<byte>): Tag {
    if Host.Name() <= line then Of(Host)
    else if Origin.Name() <= line then Of(Origin)
    else if Protocol.Name() <= line then Of(Protocol)
    else if Key.Name() <= line then Of(Key)
    else if Version.Name() <= line then Of(Version)
    else if Connection.Name() <= line then Of(Connection)
    else if Upgrade.Name() <= line then Of(Upgrade)
    else NoField
  }

  lemma TagOfIff(line: seq<byte>, f: Field)
    ensures TagOf(line) == Of(f) <==> f.Name() <= line
  {
    if f.Name() <= line {
      match TagOf(line)
      case Of(g) => NamesApart(f, g, line);
      case NoField =>
    }
  }

  // ----- what the loop does with one line -----

  /** The locals of `wsParseHandshake` and the fields of `struct handshake` that decide the answer. */
  datatype State = State(host: bool, key: KeyValue, connection: bool, upgrade: bool, subprotocol: bool,
                         versionMismatch: bool, aborted: bool)

  datatype KeyValue = NoKey | KeyIs(value: seq<byte>)

  const START := State(false, NoKey, false, false, false, false, false)

  /** The value of a field, in full. */
  function FullValue(line: seq<byte>, f: Field): seq<byte>
    requires f.Name() <= line
  {
    line[|f.Name()|..]
  }

  /** `getUptoLinefeed`: the length goes through a `uint8_t`, so the copy is cut at a multiple of 256. */
  function CopiedValue(line: seq<byte>, f: Field): seq<byte>
    requires f.Name() <= line
  {
    var v := FullValue(line, f);
    v[..|v| % 256]
  }

  predicate Contains(s: seq<byte>, pat: seq<byte>)
    requires pat != []
  {
    IndexOf(s, pat, 0) != -1
  }

  /** One turn of the loop. An empty copy fails the assertion of `getUptoLinefeed`. */
  function Step(st: State, line: seq<byte>): State {
    match TagOf(line)
    case NoField => st
    case Of(f) =>
      if f == Protocol then st.(subprotocol := true)
      else if CopiedValue(line, f) == [] then st.(aborted := true)
      else StepValue(st, f, CopiedValue(line, f))
  }

  /** What the loop does with the copied value of a field. */
  function StepValue(st: State, f: Field, v: seq<byte>): State {
    match f
    case Host => st.(host := true)
    case Origin => st
    case Protocol => st
    case Key => st.(key := KeyIs(v))
    case Version => if VERSION_VALUE <= v then st else st.(versionMismatch := true)
    case Connection => if Contains(Lower(v), UPGRADE_VALUE) then st.(connection := true) else st
    case Upgrade => if WEBSOCKET_VALUE <= Lower(v) then st.(upgrade := true) else st
  }

  function Scan(st: State, lines: seq<seq<byte>>): State
    decreases |lines|
  {
    if lines == [] then st else Scan(Step(st, lines[0]), lines[1..])
  }

  // ----- lines -----

  /** The condition that ends the loop: the first octet is CR or the second is LF. */
  predicate StopsAt(s: seq<byte>, p: nat)
    requires p + 1 < |s|
  {
    s[p] == 0x0D || s[p + 1] == 0x0A
  }

  /** The lines the loop looks at, from position `p`; `blank` is where the blank line's CRLFCRLF starts. */
  function Examined(s: seq<byte>, p: nat, blank: nat): seq<seq<byte>>
    requires p <= blank + 2 && MatchAt(s, blank, BLANK)
    decreases blank + 2 - p
  {
    if p >= blank + 1 || StopsAt(s, p) then []
    else
      var q := LineEnd(s, p, blank);
      [s[p..q]] + Examined(s, q + 2, blank)
  }

  /** The CRLF that ends the line at `p`. */
  function LineEnd(s: seq<byte>, p: nat, blank: nat): (q: nat)
    requires p <= blank && MatchAt(s, blank, BLANK)
    ensures p <= q <= blank && q == IndexOf(s, CRLF, p)
  {
    BlankEndsLine(s, blank);
    IndexOf(s, CRLF, p)
  }

  lemma BlankEndsLine(s: seq<byte>, blank: nat)
    requires MatchAt(s, blank, BLANK)
    ensures MatchAt(s, blank, CRLF) && s[blank + 2] == 0x0D && blank + 3 < |s|
  {
    var w := s[blank..blank + 4];
    assert w == BLANK && w[2] == 0x0D;
    assert s[blank..blank + 2] == w[..2] == CRLF;
  }

  // ----- the parser -----

  datatype Answer = Incomplete | Error | Aborted | Opening(key: seq<byte>, frameLength: nat)

  /** Between "GET " and the first blank line: a second space, and something for `%s` to convert. */
  predicate RequestLineParses(s: seq<byte>)
    requires |s| >= 4
  {
    && GET <= s
    && IndexOf(s, [0x20], 4) != -1
    && exists i: nat | 4 <= i < |s| :: !IsSpace(s[i])
  }

  /** What `wsParseHandshake` answers for the C string `s`. */
  function ParseString(s: seq<byte>): Answer {
    var blank := IndexOf(s, BLANK, 0);
    if blank == -1 then Incomplete
    else
      assert |s| >= 4 by { BlankEndsLine(s, blank); }
      if !RequestLineParses(s) then Error
      else Conclude(Scan(START, Examined(s, LineEnd(s, 0, blank) + 2, blank)), blank + 4)
  }

  /** What `wsParseHandshake` answers for a buffer of octets, which the caller has ended with a NUL. */
  function ParseHandshake(b: seq<byte>): Answer {
    ParseString(CStr(b))
  }

  /** The final checks. */
  function Conclude(st: State, frameLength: nat): Answer {
    if st.aborted then Aborted
    else if !st.host || st.key == NoKey || !st.connection || !st.upgrade || st.subprotocol || st.versionMismatch then
      Error
    else Opening(st.key.value, frameLength)
  }

  // ----- the declarative description -----

  predicate HostLine(l: seq<byte>) { Host.Name() <= l }
  predicate KeyLine(l: seq<byte>) { Key.Name() <= l }
  predicate ProtocolLine(l: seq<byte>) { Protocol.Name() <= l }
  predicate BadVersionLine(l: seq<byte>) { Version.Name() <= l && !(VERSION_VALUE <= FullValue(l, Version)) }

  predicate ConnectionUpgradeLine(l: seq<byte>) {
    Connection.Name() <= l && Contains(Lower(FullValue(l, Connection)), UPGRADE_VALUE)
  }

  predicate UpgradeWebsocketLine(l: seq<byte>) {
    Upgrade.Name() <= l && WEBSOCKET_VALUE <= Lower(FullValue(l, Upgrade))
  }

  /** The header lines of a request the server opens a connection for. */
  ghost predicate Acceptable(lines: seq<seq<byte>>) {
    && (exists l | l in lines :: HostLine(l))
    && (exists l | l in lines :: KeyLine(l))
    && (exists l | l in lines :: ConnectionUpgradeLine(l))
    && (exists l | l in lines :: UpgradeWebsocketLine(l))
    && (forall l | l in lines :: !ProtocolLine(l) && !BadVersionLine(l))
  }

  /** Line `i` is the last one that carries a key. */
  ghost predicate LastKeyLine(lines: seq<seq<byte>>, i: nat) {
    i < |lines| && KeyLine(lines[i]) && forall j | i < j < |lines| :: !KeyLine(lines[j])
  }

  /** The value of every recognised line has a length that a nonzero `uint8_t` can hold. */
  predicate ValueFits(l: seq<byte>) {
    match TagOf(l)
    case NoField => true
    case Of(f) => f == Protocol || 1 <= |l| - |f.Name()| <= 255
  }

  ghost predicate ValuesFit(lines: seq<seq<byte>>) {
    forall l | l in lines :: ValueFits(l)
  }

  lemma CopyIsFull(l: seq<byte>, f: Field)
    requires TagOf(l) == Of(f) && f != Protocol && ValueFits(l)
    ensures f.Name() <= l && CopiedValue(l, f) == FullValue(l, f) != []
  {
    TagOfIff(l, f);
  }

  /** The 8-bit length loses nothing of a value exactly below 256 octets, and everything at multiples of 256. */
  lemma CopyMeaning(l: seq<byte>, f: Field)
    requires f.Name() <= l
    ensures var v, copy := FullValue(l, f), CopiedValue(l, f);
      && copy <= v && (copy == v <==> |v| < 256) && (copy == [] <==> |v| % 256 == 0)
  {
  }

  /** A line whose copied value fails the assertion. */
  predicate AbortLine(l: seq<byte>) {
    match TagOf(l)
    case NoField => false
    case Of(f) => f != Protocol && (|l| - |f.Name()|) % 256 == 0
  }

  lemma StepAborts(st: State, l: seq<byte>)
    ensures Step(st, l).aborted <==> st.aborted || AbortLine(l)
  {
    hide TagOf, Contains, CopiedValue, Lower, Field.Name;
    match TagOf(l)
    case NoField =>
    case Of(f) =>
      TagOfIff(l, f);
      CopyMeaning(l, f);
  }

  lemma {:induction false} ScanAborts(st: State, lines: seq<seq<byte>>)
    ensures Scan(st, lines).aborted <==> st.aborted || exists l | l in lines :: AbortLine(l)
    decreases |lines|
  {
    hide Step, AbortLine;
    if lines != [] {
      StepAborts(st, lines[0]);
      ScanAborts(Step(st, lines[0]), lines[1..]);
      assert lines == [lines[0]] + lines[1..];
    }
  }

  /** One line sets exactly the flags its own content calls for. */
  lemma StepMeaning(st: State, l: seq<byte>)
    requires ValueFits(l)
    ensures var r := Step(st, l);
      && r.aborted == st.aborted
      && r.host == (st.host || HostLine(l))
      && r.connection == (st.connection || ConnectionUpgradeLine(l))
      && r.upgrade == (st.upgrade || UpgradeWebsocketLine(l))
      && r.subprotocol == (st.subprotocol || ProtocolLine(l))
      && r.versionMismatch == (st.versionMismatch || BadVersionLine(l))
      && r.key == if KeyLine(l) then KeyIs(FullValue(l, Key)) else st.key
  {
    hide TagOf, Contains, CopiedValue, Lower, Field.Name;
    hide HostLine, KeyLine, ProtocolLine, BadVersionLine, ConnectionUpgradeLine, UpgradeWebsocketLine;
    LineTags(l);
    match TagOf(l)
    case NoField =>
    case Of(f) =>
      if f != Protocol {
        CopyIsFull(l, f);
      }
  }

  lemma LineTags(l: seq<byte>)
    ensures HostLine(l) <==> TagOf(l) == Of(Host)
    ensures KeyLine(l) <==> TagOf(l) == Of(Key)
    ensures ProtocolLine(l) <==> TagOf(l) == Of(Protocol)
    ensures Version.Name() <= l <==> TagOf(l) == Of(Version)
    ensures BadVersionLine(l) <==> TagOf(l) == Of(Version) && !(VERSION_VALUE <= FullValue(l, Version))
    ensures Connection.Name() <= l <==> TagOf(l) == Of(Connection)
    ensures ConnectionUpgradeLine(l) <==>
      TagOf(l) == Of(Connection) && Contains(Lower(FullValue(l, Connection)), UPGRADE_VALUE)
    ensures Upgrade.Name() <= l <==> TagOf(l) == Of(Upgrade)
    ensures UpgradeWebsocketLine(l) <==>
      TagOf(l) == Of(Upgrade) && WEBSOCKET_VALUE <= Lower(FullValue(l, Upgrade))
  {
    hide TagOf, Contains, Lower, Field.Name, FullValue;
    TagOfIff(l, Host);
    TagOfIff(l, Key);
    TagOfIff(l, Protocol);
    TagOfIff(l, Version);
    TagOfIff(l, Connection);
    TagOfIff(l, Upgrade);
  }

  /** The loop sets exactly the flags the lines call for, and the last key wins. */
  lemma {:induction false} ScanMeaning(st: State, lines: seq<seq<byte>>)
    requires ValuesFit(lines)
    ensures var r := Scan(st, lines);
      && r.aborted == st.aborted
      && (r.host <==> st.host || exists l | l in lines :: HostLine(l))
      && (r.connection <==> st.connection || exists l | l in lines :: ConnectionUpgradeLine(l))
      && (r.upgrade <==> st.upgrade || exists l | l in lines :: UpgradeWebsocketLine(l))
      && (r.subprotocol <==> st.subprotocol || exists l | l in lines :: ProtocolLine(l))
      && (r.versionMismatch <==> st.versionMismatch || exists l | l in lines :: BadVersionLine(l))
    ensures (forall l | l in lines :: !KeyLine(l)) ==> Scan(st, lines).key == st.key
    ensures forall i: nat | LastKeyLine(lines, i) :: Scan(st, lines).key == KeyIs(FullValue(lines[i], Key))
    decreases |lines|
  {
    hide ValueFits, Step, FullValue;
    hide HostLine, ConnectionUpgradeLine, UpgradeWebsocketLine, ProtocolLine, BadVersionLine;
    if lines != [] {
      var l, rest := lines[0], lines[1..];
      StepMeaning(st, l);
      ScanMeaning(Step(st, l), rest);
      assert lines == [l] + rest;
      forall i: nat | LastKeyLine(lines, i)
        ensures Scan(st, lines).key == KeyIs(FullValue(lines[i], Key))
      {
        if i > 0 {
          assert LastKeyLine(rest, i - 1);
        } else {
          assert forall k | k in rest :: !KeyLine(k);
        }
      }
    }
  }

  // ----- printed requests -----

  /** The content of a line: not empty, without NUL, and not ended before its end. CR and LF may stand alone. */
  predicate Plain(l: seq<byte>) {
    && l != []
    && (forall i | 0 <= i < |l| :: l[i] != 0)
    && (forall i | 0 <= i < |l| - 1 :: l[i] != 0x0D || l[i + 1] != 0x0A)
  }

  ghost predicate AllPlain(lines: seq<seq<byte>>) {
    forall i | 0 <= i < |lines| :: Plain(lines[i])
  }

  /** A line with CR as its first or LF as its second octet ends the loop early, as its condition uses `&&`. */
  predicate Stopper(l: seq<byte>) {
    l != [] && (l[0] == 0x0D || (|l| >= 2 && l[1] == 0x0A))
  }

  /** The lines before the first stopper. */
  function Seen(lines: seq<seq<byte>>): seq<seq<byte>>
    decreases |lines|
  {
    if lines == [] || Stopper(lines[0]) then [] else [lines[0]] + Seen(lines[1..])
  }

  lemma {:induction false} SeenIsAll(lines: seq<seq<byte>>)
    ensures Seen(lines) == lines <==> forall i | 0 <= i < |lines| :: !Stopper(lines[i])
    decreases |lines|
  {
    hide Stopper;
    if lines != [] {
      SeenIsAll(lines[1..]);
      assert lines == [lines[0]] + lines[1..];
      if Seen(lines) == lines {
        assert Seen(lines)[1..] == Seen(lines[1..]);
        forall i | 0 <= i < |lines|
          ensures !Stopper(lines[i])
        {
          assert i > 0 ==> lines[i] == lines[1..][i - 1];
        }
      }
    }
  }

  /** Header lines, each ended by CRLF, and the blank line. */
  function Body(lines: seq<seq<byte>>): (b: seq<byte>)
    ensures |b| >= 2
    decreases |lines|
  {
    if lines == [] then CRLF else lines[0] + CRLF + Body(lines[1..])
  }

  /** " HTTP/1.1" */
  const HTTP11: seq<byte> := [0x20, 0x48, 0x54, 0x54, 0x50, 0x2F, 0x31, 0x2E, 0x31]

  predicate Token(t: seq<byte>) {
    t != [] && forall i | 0 <= i < |t| :: t[i] != 0 && !IsSpace(t[i])
  }

  /** An upgrade request: `GET <token> HTTP/1.1`, header lines, and the blank line. */
  function Request(token: seq<byte>, lines: seq<seq<byte>>): seq<byte> {
    GET + token + HTTP11 + CRLF + Body(lines)
  }

  /** No line end begins within a line, nor right at the start of one. */
  lemma LineOpens(l: seq<byte>, after: seq<byte>, k: nat)
    requires Plain(l) && k < |l|
    ensures !MatchAt(l + CRLF + after, k, CRLF)
  {
    var s := l + CRLF + after;
    assert s[k] == l[k] && s[k + 1] == if k + 1 < |l| then l[k + 1] else 0x0D;
    LineEndOctets(s, k);
  }

  lemma LineEndOctets(s: seq<byte>, k: nat)
    requires k + 2 <= |s|
    ensures MatchAt(s, k, CRLF) <==> s[k] == 0x0D && s[k + 1] == 0x0A
  {
    assert s[k..k + 2] == [s[k], s[k + 1]];
  }

  lemma BlankIsTwoLineEnds(s: seq<byte>, k: nat)
    requires k + 4 <= |s|
    ensures MatchAt(s, k, BLANK) <==> MatchAt(s, k, CRLF) && MatchAt(s, k + 2, CRLF)
  {
    assert s[k..k + 4] == s[k..k + 2] + s[k + 2..k + 4];
    assert BLANK[..2] == CRLF && BLANK[2..] == CRLF;
    assert s[k..k + 4][..2] == s[k..k + 2] && s[k..k + 4][2..] == s[k + 2..k + 4];
  }

  lemma MatchInRest(front: seq<byte>, rest: seq<byte>, k: nat, pat: seq<byte>)
    ensures MatchAt(front + rest, |front| + k, pat) == MatchAt(rest, k, pat)
  {
    var s := front + rest;
    if k + |pat| <= |rest| {
      assert s[|front| + k..|front| + k + |pat|] == rest[k..k + |pat|];
    }
  }

  /** The first blank line of a line followed by header lines is the last one. */
  lemma {:induction false} NoEarlierBlank(l: seq<byte>, lines: seq<seq<byte>>, k: nat)
    requires Plain(l) && AllPlain(lines)
    requires var s := l + CRLF + Body(lines); k < |s| - 4
    ensures !MatchAt(l + CRLF + Body(lines), k, BLANK)
    decreases |lines|
  {
    hide MatchAt, Plain;
    var s := l + CRLF + Body(lines);
    BlankIsTwoLineEnds(s, k);
    if k < |l| {
      LineOpens(l, Body(lines), k);
    } else if k == |l| + 1 {
      LineEndOctets(s, k);
      assert s[k] == 0x0A;
    } else if lines != [] {
      var front, rest := l + CRLF, lines[0] + CRLF + Body(lines[1..]);
      assert s == front + rest && Plain(lines[0]);
      if k == |l| {
        assert |lines[0]| > 0 by { PlainIsNotEmpty(lines[0]); }
        LineOpens(lines[0], Body(lines[1..]), 0);
        MatchInRest(front, rest, 0, CRLF);
      } else {
        NoEarlierBlank(lines[0], lines[1..], k - |front|);
        MatchInRest(front, rest, k - |front|, BLANK);
      }
    }
  }

  lemma PlainIsNotEmpty(l: seq<byte>)
    requires Plain(l)
    ensures |l| > 0
  {
  }

  lemma BlankOctets(s: seq<byte>, k: nat)
    requires k + 4 <= |s|
    ensures MatchAt(s, k, BLANK) ==> s[k] == 0x0D && s[k + 2] == 0x0D
    ensures MatchAt(s, k, CRLF) ==> s[k] == 0x0D
  {
    assert s[k..k + 4][0] == s[k] && s[k..k + 4][2] == s[k + 2];
    assert s[k..k + 2][0] == s[k];
  }

  lemma BlankItself()
    ensures CRLF + CRLF == BLANK && MatchAt(BLANK, 0, BLANK)
  {
  }

  lemma {:induction false} BodyEndsBlank(l: seq<byte>, lines: seq<seq<byte>>)
    ensures var s := l + CRLF + Body(lines); |s| >= 4 && MatchAt(s, |s| - 4, BLANK)
    decreases |lines|
  {
    hide MatchAt;
    var s := l + CRLF + Body(lines);
    if lines == [] {
      assert s == l + BLANK;
      BlankItself();
      MatchInRest(l, BLANK, 0, BLANK);
    } else {
      var front, rest := l + CRLF, lines[0] + CRLF + Body(lines[1..]);
      BodyEndsBlank(lines[0], lines[1..]);
      assert s == front + rest;
      MatchInRest(front, rest, |rest| - 4, BLANK);
    }
  }

  /** The loop, started on printed header lines, sees the lines before the first stopper. */
  lemma {:induction false} ExaminedBody(front: seq<byte>, lines: seq<seq<byte>>, t: seq<byte>, blank: nat)
    requires AllPlain(lines) && blank + 4 == |front| + |Body(lines)|
    requires MatchAt(front + Body(lines) + t, blank, BLANK)
    ensures Examined(front + Body(lines) + t, |front|, blank) == Seen(lines)
    decreases |lines|
  {
    hide MatchAt, IndexOf, Stopper, StopsAt;
    if lines != [] {
      var s, l, rest := front + Body(lines) + t, lines[0], Body(lines[1..]);
      assert Plain(l);
      assert s == front + (l + CRLF) + (rest + t);
      LineInContext(front, l, rest + t);
      if !Stopper(l) {
        var front' := front + (l + CRLF);
        assert s == front' + rest + t;
        ExaminedBody(front', lines[1..], t, blank);
      }
    }
  }

  lemma LineInContext(front: seq<byte>, l: seq<byte>, after: seq<byte>)
    requires Plain(l)
    ensures var s, p := front + (l + CRLF) + after, |front|;
      && IndexOf(s, CRLF, p) == p + |l| && s[p..p + |l|] == l
      && (StopsAt(s, p) <==> Stopper(l))
  {
    hide IndexOf, Plain, MatchAt;
    var s, p, rest := front + (l + CRLF) + after, |front|, l + CRLF + after;
    assert s == front + rest;
    PlainIsNotEmpty(l);
    assert s[p] == l[0] && s[p + 1] == if |l| >= 2 then l[1] else 0x0D;
    forall k: nat | p <= k < p + |l|
      ensures !MatchAt(s, k, CRLF)
    {
      LineOpens(l, after, k - p);
      MatchInRest(front, rest, k - p, CRLF);
    }
    LineEndOctets(s, p + |l|);
    FirstMatch(s, CRLF, p, p + |l|);
  }

  function RequestLine(token: seq<byte>): seq<byte> { GET + token + HTTP11 }

  lemma RequestLinePlain(token: seq<byte>)
    requires Token(token)
    ensures Plain(RequestLine(token))
  {
    var r := RequestLine(token);
    forall i | 0 <= i < |r|
      ensures r[i] != 0 && r[i] != 0x0D
    { // a token holds no white space, and CR is white space
      assert r[i] == if i < 4 then GET[i] else if i < 4 + |token| then token[i - 4] else HTTP11[i - 4 - |token|];
    }
  }

  lemma {:induction false} BodyHasNoNul(lines: seq<seq<byte>>)
    requires AllPlain(lines)
    ensures forall i | 0 <= i < |Body(lines)| :: Body(lines)[i] != 0
    decreases |lines|
  {
    if lines != [] {
      BodyHasNoNul(lines[1..]);
      assert Plain(lines[0]);
    }
  }

  /** The blank line of a printed request is its own last four octets, whatever follows. */
  lemma BlankOfRequest(l: seq<byte>, lines: seq<seq<byte>>, t: seq<byte>)
    requires Plain(l) && AllPlain(lines)
    ensures var r := l + CRLF + Body(lines);
      && |r| >= 4 && IndexOf(r + t, BLANK, 0) == |r| - 4 && MatchAt(r + t, |r| - 4, BLANK)
  {
    hide MatchAt, IndexOf, Plain, Body;
    var r := l + CRLF + Body(lines);
    BodyEndsBlank(l, lines);
    MatchExtend(r, t, |r| - 4, BLANK);
    forall k: nat | k < |r| - 4
      ensures !MatchAt(r + t, k, BLANK)
    {
      NoEarlierBlank(l, lines, k);
      MatchExtend(r, t, k, BLANK);
    }
    FirstMatch(r + t, BLANK, 0, |r| - 4);
  }

  lemma PrintedRequestLineParses(token: seq<byte>, after: seq<byte>)
    requires Token(token)
    ensures RequestLineParses(RequestLine(token) + after)
  {
    hide IndexOf;
    var s := RequestLine(token) + after;
    assert s[..4] == GET;
    assert s[4] == token[0] && !IsSpace(s[4]);
    assert MatchAt(s, 4 + |token|, [0x20]) by { assert s[4 + |token|] == 0x20; }
  }

  /** The answer for a printed request is decided by its header lines alone, not by what follows. */
  lemma ParsePrinted(token: seq<byte>, lines: seq<seq<byte>>, t: seq<byte>)
    requires Token(token) && AllPlain(lines)
    ensures ParseHandshake(Request(token, lines) + t)
         == Conclude(Scan(START, Seen(lines)), |Request(token, lines)|)
  {
    hide MatchAt, IndexOf, Plain, Body, RequestLineParses, Examined, CStr, Scan, Conclude, RequestLine;
    var l, u := RequestLine(token), CStr(t);
    var r := l + CRLF + Body(lines);
    assert Request(token, lines) == r by { RequestIsLines(token, lines); }
    RequestLinePlain(token);
    assert CStr(r + t) == r + u by { PrintedHasNoNul(l, lines); CStrAppend(r, t); }
    BlankOfRequest(l, lines, u);
    assert r + u == l + (CRLF + Body(lines) + u);
    PrintedRequestLineParses(token, CRLF + Body(lines) + u);
    assert r + u == [] + (l + CRLF) + (Body(lines) + u);
    LineInContext([], l, Body(lines) + u);
    assert r + u == (l + CRLF) + Body(lines) + u;
    ExaminedBody(l + CRLF, lines, u, |r| - 4);
  }

  lemma RequestIsLines(token: seq<byte>, lines: seq<seq<byte>>)
    ensures Request(token, lines) == RequestLine(token) + CRLF + Body(lines)
  {
    hide Body;
  }

  lemma PrintedHasNoNul(l: seq<byte>, lines: seq<seq<byte>>)
    requires Plain(l) && AllPlain(lines)
    ensures var r := l + CRLF + Body(lines); forall i | 0 <= i < |r| :: r[i] != 0
  {
    hide Body;
    BodyHasNoNul(lines);
  }

  /**
   The parser answers OPENING exactly for the acceptable requests, with the value of the last key line
   and the length of the request; it answers ERROR for all others, whatever octets follow.
   */
  lemma OpeningIff(token: seq<byte>, lines: seq<seq<byte>>, t: seq<byte>)
    requires Token(token) && AllPlain(lines) && ValuesFit(Seen(lines))
    ensures var a := ParseHandshake(Request(token, lines) + t);
      && (a.Opening? <==> Acceptable(Seen(lines)))
      && (a == Error <==> !Acceptable(Seen(lines)))
      && (a.Opening? ==> a.frameLength == |Request(token, lines)|)
      && (a.Opening? ==> forall i: nat | LastKeyLine(Seen(lines), i) :: a.key == FullValue(Seen(lines)[i], Key))
  {
    hide Scan, ParseHandshake, Request, Seen, ValueFits;
    hide HostLine, ConnectionUpgradeLine, UpgradeWebsocketLine, ProtocolLine, BadVersionLine;
    ParsePrinted(token, lines, t);
    var seen := Seen(lines);
    ScanMeaning(START, seen);
    if exists l | l in seen :: KeyLine(l) {
      LastKeyExists(seen);
    }
  }

  /** The process ends exactly when a seen line has a recognised value whose length is a multiple of 256. */
  lemma AbortedIff(token: seq<byte>, lines: seq<seq<byte>>, t: seq<byte>)
    requires Token(token) && AllPlain(lines)
    ensures ParseHandshake(Request(token, lines) + t) == Aborted <==> exists l | l in Seen(lines) :: AbortLine(l)
  {
    hide Scan, ParseHandshake, Request, Seen, AbortLine;
    ParsePrinted(token, lines, t);
    ScanAborts(START, Seen(lines));
  }

  lemma {:induction false} LastKeyExists(lines: seq<seq<byte>>)
    requires exists l | l in lines :: KeyLine(l)
    ensures exists i: nat :: LastKeyLine(lines, i)
    decreases |lines|
  {
    hide KeyLine;
    var n := |lines| - 1;
    if KeyLine(lines[n]) {
      assert LastKeyLine(lines, n);
    } else {
      var front := lines[..n];
      assert lines == front + [lines[n]];
      LastKeyExists(front);
      var i: nat :| LastKeyLine(front, i);
      assert LastKeyLine(lines, i);
    }
  }

  /** A stopper of either kind hides an otherwise acceptable request: with it first, the answer is ERROR. */
  lemma StopperHidesRequest(token: seq<byte>, stopper: seq<byte>, lines: seq<seq<byte>>, t: seq<byte>)
    requires Token(token) && Plain(stopper) && AllPlain(lines) && Stopper(stopper)
    ensures ParseHandshake(Request(token, [stopper] + lines) + t) == Error
  {
    hide ParseHandshake, Request, Stopper, Plain;
    assert Seen([stopper] + lines) == [];
    ParsePrinted(token, [stopper] + lines, t);
  }

  // ----- stability -----

  lemma {:induction false} ExaminedExtend(s: seq<byte>, u: seq<byte>, p: nat, blank: nat)
    requires p <= blank + 2 && MatchAt(s, blank, BLANK) && MatchAt(s + u, blank, BLANK)
    ensures Examined(s + u, p, blank) == Examined(s, p, blank)
    decreases blank + 2 - p
  {
    hide MatchAt, IndexOf;
    BlankEndsLine(s, blank);
    if p <= blank && !StopsAt(s, p) {
      var q := LineEnd(s, p, blank);
      IndexOfExtend(s, u, CRLF, p);
      ExaminedExtend(s, u, q + 2, blank);
      assert (s + u)[p..q] == s[p..q];
    }
  }

  /** Where an examined line stands in the request. */
  ghost predicate Inside(s: seq<byte>, p: nat, l: seq<byte>) {
    exists q: nat :: p <= q && MatchAt(s, q, l)
  }

  lemma {:induction false} ExaminedInside(s: seq<byte>, p: nat, blank: nat)
    requires p <= blank + 2 && MatchAt(s, blank, BLANK)
    ensures forall l | l in Examined(s, p, blank) :: Inside(s, p, l)
    decreases blank + 2 - p
  {
    hide IndexOf;
    BlankEndsLine(s, blank);
    if p <= blank && !StopsAt(s, p) {
      var q := LineEnd(s, p, blank);
      ExaminedInside(s, q + 2, blank);
      assert MatchAt(s, p, s[p..q]);
    }
  }

  lemma {:induction false} ScanNothing(st: State, lines: seq<seq<byte>>)
    requires forall l | l in lines :: TagOf(l) == NoField
    ensures Scan(st, lines) == st
    decreases |lines|
  {
    hide TagOf;
    if lines != [] {
      assert TagOf(lines[0]) == NoField;
      ScanNothing(st, lines[1..]);
    }
  }

  /** A recognised field cannot stand in a request whose request line does not parse. */
  lemma FieldMakesRequestLineParse(s: seq<byte>, p: nat, l: seq<byte>)
    requires 4 <= p && Inside(s, p, l) && TagOf(l).Of? && |s| >= 4 && GET <= s
    ensures RequestLineParses(s)
  {
    hide Field.Name, TagOf, IsSpace;
    var f, q: nat := TagOf(l).field, (var q: nat :| p <= q && MatchAt(s, q, l); q);
    TagOfIff(l, f);
    NameFacts(f);
    var n := |f.Name()| - 1;
    assert s[q..q + |l|] == l;
    assert s[q] == l[0] == f.Name()[0];
    assert s[q + n] == l[n] == f.Name()[n];
    assert MatchAt(s, q + n, [0x20]);
  }

  lemma RequestLineEnd(s: seq<byte>, blank: nat)
    requires MatchAt(s, blank, BLANK) && GET <= s
    ensures LineEnd(s, 0, blank) >= 4
  {
    hide IndexOf;
    var q := LineEnd(s, 0, blank);
    BlankEndsLine(s, blank);
    BlankOctets(s, q);
    assert s[0] == GET[0] && s[1] == GET[1] && s[2] == GET[2] && s[3] == GET[3];
  }

  /** When the request line does not parse, the header lines would not have been accepted either. */
  lemma BadRequestLineIsError(s: seq<byte>, blank: nat)
    requires MatchAt(s, blank, BLANK) && |s| >= 4 && GET <= s && !RequestLineParses(s)
    ensures Conclude(Scan(START, Examined(s, LineEnd(s, 0, blank) + 2, blank)), blank + 4) == Error
  {
    hide RequestLineParses, TagOf, MatchAt, IndexOf, Examined, Inside;
    var p := LineEnd(s, 0, blank) + 2;
    RequestLineEnd(s, blank);
    ExaminedInside(s, p, blank);
    forall l | l in Examined(s, p, blank)
      ensures TagOf(l) == NoField
    {
      if TagOf(l).Of? {
        FieldMakesRequestLineParse(s, p, l);
      }
    }
    ScanNothing(START, Examined(s, p, blank));
  }

  lemma RequestLineParsesExtend(s: seq<byte>, u: seq<byte>)
    requires |s| >= 4 && RequestLineParses(s)
    ensures RequestLineParses(s + u)
  {
    hide IndexOf, IsSpace;
    var i: nat :| 4 <= i < |s| && !IsSpace(s[i]);
    assert (s + u)[i] == s[i];
    IndexOfExtend(s, u, [0x20], 4);
  }

  lemma ParseStringStable(s: seq<byte>, u: seq<byte>)
    requires ParseString(s) != Incomplete
    ensures ParseString(s + u) == ParseString(s)
  {
    hide IndexOf, MatchAt, RequestLineParses, Examined, Scan, Conclude;
    var blank: nat := IndexOf(s, BLANK, 0);
    IndexOfExtend(s, u, BLANK, 0);
    BlankEndsLine(s, blank);
    IndexOfExtend(s, u, CRLF, 0);
    ExaminedExtend(s, u, LineEnd(s, 0, blank) + 2, blank);
    if RequestLineParses(s) {
      RequestLineParsesExtend(s, u);
    } else if GET <= s {
      BadRequestLineIsError(s, blank);
    } else {
      NotGet(s, u);
    }
  }

  lemma NotGet(s: seq<byte>, u: seq<byte>)
    requires |s| >= 4 && !(GET <= s)
    ensures !RequestLineParses(s + u)
  {
    assert (s + u)[..4] == s[..4];
  }

  /** Once there is an answer, more octets do not change it: the request can be cut anywhere. */
  lemma ParseStable(b: seq<byte>, t: seq<byte>)
    requires ParseHandshake(b) != Incomplete
    ensures ParseHandshake(b + t) == ParseHandshake(b)
  {
    hide ParseString, CStr;
    CStrExtend(b, t);
    var s, s' := CStr(b), CStr(b + t);
    assert s' == s + s'[|s|..];
    ParseStringStable(s, s'[|s|..]);
  }

  /** The length of a request the parser accepts is that of a prefix of the buffer. */
  lemma OpeningLength(b: seq<byte>)
    requires ParseHandshake(b).Opening?
    ensures 4 <= ParseHandshake(b).frameLength <= |b|
  {
    hide RequestLineParses, Examined, Scan;
    BlankEndsLine(CStr(b), IndexOf(CStr(b), BLANK, 0));
  }

  /** A proper prefix of a printed request is INCOMPLETE, whether the request is acceptable or not. */
  lemma PrintedPrefixIncomplete(token: seq<byte>, lines: seq<seq<byte>>, k: nat)
    requires Token(token) && AllPlain(lines) && k < |Request(token, lines)|
    ensures ParseHandshake(Request(token, lines)[..k]) == Incomplete
  {
    hide MatchAt, IndexOf, Plain, Body, RequestLine, RequestLineParses, Examined, Scan, Conclude;
    var l, r := RequestLine(token), Request(token, lines);
    RequestIsLines(token, lines);
    RequestLinePlain(token);
    PrintedHasNoNul(l, lines);
    BlankOfRequest(l, lines, []);
    assert r + [] == r;
    var front := r[..k];
    CStrExtend(front, []);
    assert forall i | 0 <= i < |front| :: front[i] == r[i];
    var at := IndexOf(front, BLANK, 0);
    assert front + r[k..] == r;
    if at != -1 {
      MatchFits(front, at, BLANK);
      MatchExtend(front, r[k..], at, BLANK);
    }
  }

  lemma SpaceFound(s: seq<byte>, from: nat)
    requires from <= |s| && IndexOf(s, [0x20], from) != -1
    ensures var i := IndexOf(s, [0x20], from); from <= i < |s| && s[i] == 0x20
  {
    var i := IndexOf(s, [0x20], from);
    assert s[i] == s[i..i + 1][0];
  }

  /** The requests that the request line alone makes bad: no "GET ", no second space, or nothing after it. */
  lemma BadRequestLines(s: seq<byte>)
    requires IndexOf(s, BLANK, 0) != -1 && |s| >= 4
    requires || s[0] != 0x47 || s[1] != 0x45 || s[2] != 0x54 || s[3] != 0x20
             || (forall i | 4 <= i < |s| :: s[i] != 0x20)
             || (forall i | 4 <= i < |s| :: IsSpace(s[i]))
    ensures ParseString(s) == Error
  {
    hide IsSpace, Examined, Scan, Conclude;
    if IndexOf(s, [0x20], 4) != -1 {
      SpaceFound(s, 4);
    }
  }

  /** A proper prefix of an acceptable request, without octets after it, is INCOMPLETE. */
  lemma PrefixIncomplete(r: seq<byte>, k: nat)
    requires ParseHandshake(r).Opening? && ParseHandshake(r).frameLength == |r| && k < |r|
    ensures ParseHandshake(r[..k]) == Incomplete
  {
    hide ParseHandshake;
    var front := r[..k];
    if ParseHandshake(front) != Incomplete {
      ParseStable(front, r[k..]);
      assert front + r[k..] == r;
      OpeningLength(front);
    }
  }

  // ----- the loop -----

  /** Reading on at position `p` of the request, the test for `f` and the value agree with the line. */
  lemma FieldAt(s: seq<byte>, p: nat, blank: nat, f: Field)
    requires p <= blank && MatchAt(s, blank, BLANK)
    ensures var q := LineEnd(s, p, blank); var n := |f.Name()|;
      && (MatchAt(s, p, f.Name()) <==> f.Name() <= s[p..q])
      && (MatchAt(s, p, f.Name()) ==>
        p + n <= q && IndexOf(s, CRLF, p + n) == q && FullValue(s[p..q], f) == s[p + n..q])
  {
    hide IndexOf, Field.Name;
    NameFacts(f);
    var q, n := LineEnd(s, p, blank), |f.Name()|;
    BlankEndsLine(s, blank);
    BlankOctets(s, q);
    if f.Name() <= s[p..q] {
      assert s[p..p + n] == s[p..q][..n];
    }
    if q < p + n <= |s| {
      NoMatchOverCr(s, p, f.Name(), q);
    }
    if MatchAt(s, p, f.Name()) {
      IndexOfLater(s, CRLF, p, p + n);
      assert s[p..q][..n] == s[p..p + n];
      assert s[p..q][n..] == s[p + n..q];
    }
  }

  lemma NoMatchOverCr(s: seq<byte>, p: nat, pat: seq<byte>, q: nat)
    requires p <= q < p + |pat| <= |s| && s[q] == 0x0D && 0x0D !in pat
    ensures !MatchAt(s, p, pat)
  {
    assert s[p..p + |pat|][q - p] == s[q];
  }

  lemma StepKeepsAborted(st: State, l: seq<byte>)
    requires st.aborted
    ensures Step(st, l).aborted
  {
    hide TagOf, CopiedValue, Contains, Lower;
    match TagOf(l) case NoField => case Of(f) => TagOfIff(l, f);
  }

  lemma {:induction false} AbortedStays(st: State, lines: seq<seq<byte>>)
    requires st.aborted
    ensures Scan(st, lines).aborted
    decreases |lines|
  {
    hide Step;
    if lines != [] {
      StepKeepsAborted(st, lines[0]);
      AbortedStays(Step(st, lines[0]), lines[1..]);
    }
  }

  lemma FrontOfSlice(s: seq<byte>, from: nat, end: nat, n: nat)
    requires from <= end <= |s| && n <= end - from
    ensures s[from..from + n] == s[from..end][..n]
  {
  }

  /** `getUptoLinefeed` from position `from`. */
  method GetUptoLinefeed(s: seq<byte>, from: nat) returns (copy: seq<byte>)
    requires from <= |s| && IndexOf(s, CRLF, from) != -1
    ensures var v := s[from..IndexOf(s, CRLF, from)];
      && copy == v[..|v| % 256] && copy <= v
      && (copy == v <==> |v| < 256) && (copy == [] <==> |v| % 256 == 0)
  {
    hide IndexOf;
    var end := IndexOf(s, CRLF, from);
    var newLength := (end - from) % 256;
    copy := s[from..from + newLength];
    FrontOfSlice(s, from, end, newLength);
  }

  /**
   The chain of tests in the loop for the line at `p`: the new flags and the cursor, which a recognised
   name moves past itself. The process is aborted when a copied value is empty.
   */
  method TestLine(s: seq<byte>, p: nat, st: State, ghost blank: nat) returns (next: State, cursor: nat)
    requires p <= blank && blank + 4 <= |s| && MatchAt(s, blank, BLANK)
    ensures next == Step(st, s[p..LineEnd(s, p, blank)])
    ensures p <= cursor <= LineEnd(s, p, blank)
  {
    hide IndexOf, MatchAt, Field.Name, StepValue, CopiedValue, TagOf;
    ghost var line := s[p..LineEnd(s, p, blank)];
    var tag := FindTag(s, p, blank);
    next, cursor := st, p;
    if tag.Of? {
      FieldAt(s, p, blank, tag.field);
      cursor := p + |tag.field.Name()|;
      if tag.field == Protocol {
        next := st.(subprotocol := true);
      } else {
        var copy := GetUptoLinefeed(s, cursor);
        CopiedIs(line, tag.field, copy);
        next := if copy == [] then st.(aborted := true) else StepValue(st, tag.field, copy);
      }
    }
  }

  /** The comparisons with the field names, in the order of the source. */
  method FindTag(s: seq<byte>, p: nat, ghost blank: nat) returns (tag: Tag)
    requires p <= blank && blank + 4 <= |s| && MatchAt(s, blank, BLANK)
    ensures tag == TagOf(s[p..LineEnd(s, p, blank)])
    ensures tag.Of? ==> MatchAt(s, p, tag.field.Name())
  {
    hide IndexOf, MatchAt, Field.Name;
    forall f: Field
      ensures MatchAt(s, p, f.Name()) <==> f.Name() <= s[p..LineEnd(s, p, blank)]
    {
      FieldAt(s, p, blank, f);
    }
    if MatchAt(s, p, Host.Name()) { return Of(Host); }
    if MatchAt(s, p, Origin.Name()) { return Of(Origin); }
    if MatchAt(s, p, Protocol.Name()) { return Of(Protocol); }
    if MatchAt(s, p, Key.Name()) { return Of(Key); }
    if MatchAt(s, p, Version.Name()) { return Of(Version); }
    if MatchAt(s, p, Connection.Name()) { return Of(Connection); }
    if MatchAt(s, p, Upgrade.Name()) { return Of(Upgrade); }
    return NoField;
  }

  lemma CopiedIs(line: seq<byte>, f: Field, copy: seq<byte>)
    requires f.Name() <= line
    requires var v := FullValue(line, f); copy == v[..|v| % 256]
    ensures copy == CopiedValue(line, f)
  {
  }

  /** No line ends one octet before the blank line. */
  lemma LineEndGap(s: seq<byte>, p: nat, blank: nat)
    requires p <= blank && MatchAt(s, blank, BLANK)
    ensures LineEnd(s, p, blank) != blank - 1
  {
    hide IndexOf;
    BlankEndsLine(s, blank);
    assert s[blank] == s[blank..blank + 4][0] == 0x0D;
    if blank > 0 {
      assert s[blank - 1..blank + 1][1] == s[blank];
    }
  }

  lemma ExaminedNext(s: seq<byte>, p: nat, blank: nat, st: State)
    requires p <= blank && MatchAt(s, blank, BLANK) && blank + 3 < |s| && !StopsAt(s, p)
    ensures var q := LineEnd(s, p, blank);
      Scan(st, Examined(s, p, blank)) == Scan(Step(st, s[p..q]), Examined(s, q + 2, blank))
  {
    hide IndexOf, MatchAt, Step;
    var q := LineEnd(s, p, blank);
    assert Examined(s, p, blank)[1..] == Examined(s, q + 2, blank);
  }

  lemma ExaminedEnd(s: seq<byte>, p: nat, blank: nat, st: State)
    requires MatchAt(s, blank, BLANK) && blank + 3 < |s|
    requires p == blank + 2 || (p <= blank && StopsAt(s, p))
    ensures Scan(st, Examined(s, p, blank)) == st
  {
    hide IndexOf, MatchAt, Step;
  }

  /**
   `wsParseHandshake`. The cursor never passes the blank line, and each turn of the loop moves it on.
   */
  method WsParseHandshake(inputFrame: array<byte>, inputLength: nat) returns (a: Answer)
    requires inputLength < inputFrame.Length && inputFrame[inputLength] == 0
    ensures a == ParseHandshake(inputFrame[..inputLength])
  {
    hide IndexOf, MatchAt, RequestLineParses, Step, Examined, Scan, CStr;
    var s := CStr(inputFrame[..inputLength]); // what the string functions see
    var frameEnd := IndexOf(s, BLANK, 0);
    if frameEnd == -1 {
      return Incomplete;
    }
    ghost var blank: nat := frameEnd;
    BlankEndsLine(s, blank);
    if !RequestLineParses(s) {
      return Error;
    }
    var st, inputPtr := START, LineEnd(s, 0, frameEnd) + 2;
    LineEndGap(s, 0, blank);
    ghost var start := inputPtr;
    while inputPtr < inputLength && inputFrame[inputPtr] != 0x0D && inputFrame[inputPtr + 1] != 0x0A
      invariant start <= inputPtr <= blank || inputPtr == blank + 2
      invariant !st.aborted
      invariant Scan(st, Examined(s, inputPtr, blank)) == Scan(START, Examined(s, start, blank))
      decreases blank + 2 - inputPtr
    {
      assert s[inputPtr] == inputFrame[inputPtr] && s[inputPtr + 1] == inputFrame[inputPtr + 1];
      ghost var p := inputPtr;
      ExaminedNext(s, p, blank, st);
      st, inputPtr := TestLine(s, inputPtr, st, blank);
      if st.aborted {
        AbortedStays(st, Examined(s, LineEnd(s, p, blank) + 2, blank));
        return Aborted;
      }
      IndexOfLater(s, CRLF, p, inputPtr);
      LineEndGap(s, p, blank);
      inputPtr := IndexOf(s, CRLF, inputPtr) + 2;
    }
    assert s[inputPtr] == inputFrame[inputPtr] && s[inputPtr + 1] == inputFrame[inputPtr + 1];
    ExaminedEnd(s, inputPtr, blank, st);
    return Conclude(st, frameEnd + 4);
  }
}
