/** The C string functions the handshake parser uses, on octets. */
module CStrings {
  import opened Bytes

  const CRLF: seq<byte> := [0x0D, 0x0A]
  const BLANK: seq<byte> := [0x0D, 0x0A, 0x0D, 0x0A]

  /** The string at the front of a buffer: everything before the first NUL. */
  function CStr(b: seq<byte>): (s: seq<byte>)
    ensures |s| <= |b| && s == b[..|s|]
    ensures forall i | 0 <= i < |s| :: s[i] != 0
  {
    if b == [] || b[0] == 0 then [] else [b[0]] + CStr(b[1..])
  }

  lemma {:induction false} CStrExtend(b: seq<byte>, t: seq<byte>)
    ensures CStr(b) <= CStr(b + t)
    ensures (forall i | 0 <= i < |b| :: b[i] != 0) ==> CStr(b) == b
  {
    if b != [] && b[0] != 0 {
      CStrExtend(b[1..], t);
      assert (b + t)[1..] == b[1..] + t;
    }
  }

  lemma {:induction false} CStrAppend(b: seq<byte>, t: seq<byte>)
    requires forall i | 0 <= i < |b| :: b[i] != 0
    ensures CStr(b + t) == b + CStr(t)
  {
    if b == [] {
      assert b + t == t;
    } else {
      CStrAppend(b[1..], t);
      assert (b + t)[1..] == b[1..] + t;
    }
  }

  predicate MatchAt(s: seq<byte>, i: nat, pat: seq<byte>) {
    i + |pat| <= |s| && s[i..i + |pat|] == pat
  }

  /** `strstr(s + from, pat) - s`, or -1: the first match at `from` or later. */
  function IndexOf(s: seq<byte>, pat: seq<byte>, from: nat): (r: int)
    requires from <= |s| && pat != []
    ensures r == -1 || (from <= r < |s| && MatchAt(s, r, pat))
    ensures forall k: nat | from <= k && (r == -1 || k < r) :: !MatchAt(s, k, pat)
    decreases |s| - from
  {
    if from + |pat| > |s| then -1
    else if MatchAt(s, from, pat) then from
    else IndexOf(s, pat, from + 1)
  }

  /** The first match is characterised by its two properties. */
  lemma FirstMatch(s: seq<byte>, pat: seq<byte>, from: nat, r: nat)
    requires from <= r <= |s| && pat != [] && MatchAt(s, r, pat)
    requires forall k: nat | from <= k < r :: !MatchAt(s, k, pat)
    ensures IndexOf(s, pat, from) == r
  {
    hide MatchAt;
  }

  lemma MatchExtend(s: seq<byte>, t: seq<byte>, i: nat, pat: seq<byte>)
    requires i + |pat| <= |s|
    ensures MatchAt(s + t, i, pat) == MatchAt(s, i, pat)
  {
    assert (s + t)[i..i + |pat|] == s[i..i + |pat|];
  }

  /** A match that has been found stays the first one when octets are appended. */
  lemma IndexOfExtend(s: seq<byte>, t: seq<byte>, pat: seq<byte>, from: nat)
    requires from <= |s| && pat != [] && IndexOf(s, pat, from) != -1
    ensures IndexOf(s + t, pat, from) == IndexOf(s, pat, from)
  {
    hide IndexOf, MatchAt;
    var r: nat := IndexOf(s, pat, from);
    assert r + |pat| <= |s| by { MatchFits(s, r, pat); }
    forall k: nat | from <= k < r
      ensures !MatchAt(s + t, k, pat)
    {
      MatchExtend(s, t, k, pat);
    }
    MatchExtend(s, t, r, pat);
    FirstMatch(s + t, pat, from, r);
  }

  lemma MatchFits(s: seq<byte>, i: nat, pat: seq<byte>)
    requires MatchAt(s, i, pat)
    ensures i + |pat| <= |s|
  {
  }

  /** Searching from a later point before the match finds the same match. */
  lemma IndexOfLater(s: seq<byte>, pat: seq<byte>, from: nat, later: nat)
    requires from <= later <= |s| && pat != []
    requires later <= IndexOf(s, pat, from)
    ensures IndexOf(s, pat, later) == IndexOf(s, pat, from)
  {
    hide IndexOf, MatchAt;
    FirstMatch(s, pat, later, IndexOf(s, pat, from));
  }

  /** `tolower` in the C locale. */
  function ToLower(c: byte): byte {
    if 0x41 <= c <= 0x5A then c + 0x20 else c
  }

  function Lower(s: seq<byte>): (r: seq<byte>)
    ensures |r| == |s|
  {
    seq(|s|, i requires 0 <= i < |s| => ToLower(s[i]))
  }

  /** `isspace` in the C locale. */
  predicate IsSpace(c: byte) {
    c == 0x20 || 0x09 <= c <= 0x0D
  }
}
