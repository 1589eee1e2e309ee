/**
 Base64 (log-server/cwebsocket/base64_enc.c) against a decoder written from section 4 of
 RFC 4648.
 */
module Base64 {
  import opened Bytes
  import opened Options

  const PAD: byte := 0x3D // '='

  // ----- the encoder of the source -----

  /** `bit6toAscii`: the character of a 6-bit group; the two top bits are masked away. */
  function Bit6ToAscii(a: byte): byte {
    var v := a & 0x3F;
    if v <= 25 then v + 0x41
    else if v <= 51 then v - 26 + 0x61
    else if v <= 61 then v - 52 + 0x30
    else if v == 62 then 0x2B
    else 0x2F
  }

  function Group0(x: byte): byte { x >> 2 }
  function Group1(x: byte, y: byte): byte { ((x << 4) | (y >> 4)) & 0x3F }
  function Group2(y: byte, z: byte): byte { ((y << 2) | (z >> 6)) & 0x3F }
  function Group3(z: byte): byte { z & 0x3F }

  /** Four characters for three octets. */
  function Quad(x: byte, y: byte, z: byte): (q: seq<byte>)
    ensures |q| == 4
  {
    [Bit6ToAscii(Group0(x)), Bit6ToAscii(Group1(x, y)), Bit6ToAscii(Group2(y, z)), Bit6ToAscii(Group3(z))]
  }

  /** What is written for the one or two octets after the last full group. */
  function Tail(s: seq<byte>): (t: seq<byte>)
    requires |s| < 3
    ensures |t| == EncodedLength(|s|)
  {
    if |s| == 0 then []
    else if |s| == 1 then [Bit6ToAscii(Group0(s[0])), Bit6ToAscii(Group1(s[0], 0)), PAD, PAD]
    else [Bit6ToAscii(Group0(s[0])), Bit6ToAscii(Group1(s[0], s[1])), Bit6ToAscii(Group2(s[1], 0)), PAD]
  }

  /** The text of `s`: its full groups in order, then the tail. */
  function Encode(s: seq<byte>): (e: seq<byte>)
    ensures |e| == EncodedLength(|s|)
  {
    if |s| < 3 then Tail(s) else Quad(s[0], s[1], s[2]) + Encode(s[3..])
  }

  function EncodedLength(n: nat): nat { 4 * ((n + 2) / 3) }

  /** Only the full groups of `s`; the loop of `base64enc` has written this much after each turn. */
  function Groups(s: seq<byte>): (e: seq<byte>)
    ensures |e| == 4 * (|s| / 3)
  {
    if |s| < 3 then [] else Quad(s[0], s[1], s[2]) + Groups(s[3..])
  }

  lemma {:induction false} GroupsSnoc(s: seq<byte>, t: seq<byte>)
    requires |s| % 3 == 0 && |t| == 3
    ensures Groups(s + t) == Groups(s) + Quad(t[0], t[1], t[2])
  {
    hide Quad;
    if |s| == 0 {
      var q := Quad(t[0], t[1], t[2]);
      assert s + t == t && t[3..] == [];
      assert Groups(t) == q + [] == q;
      assert Groups(s) + q == q;
    } else {
      GroupsSnoc(s[3..], t);
      var q, r := Quad(s[0], s[1], s[2]), Groups(s[3..]);
      assert (s + t)[3..] == s[3..] + t;
      assert Groups(s + t) == q + (r + Quad(t[0], t[1], t[2]));
    }
  }

  lemma EmptyGroups()
    ensures Groups([]) == []
  {
  }

  /** The text of the first `i + 1` groups of `src`. */
  lemma GroupsNext(src: seq<byte>, i: nat)
    requires 3 * i + 3 <= |src|
    ensures Groups(src[..3 * (i + 1)]) == Groups(src[..3 * i]) + Quad(src[3 * i], src[3 * i + 1], src[3 * i + 2])
  {
    hide Quad, Groups;
    var group := src[3 * i..3 * i + 3];
    GroupsSnoc(src[..3 * i], group);
    assert src[..3 * (i + 1)] == src[..3 * i] + group;
  }

  /** The text of `src` is that of its `n` full groups, then the tail. */
  lemma EncodeIsGroupsAndTail(src: seq<byte>, n: nat)
    requires n == |src| / 3
    ensures Encode(src) == Groups(src[..3 * n]) + Tail(src[3 * n..])
  {
    hide Quad, Tail;
    EncodeSplit(src[..3 * n], src[3 * n..]);
    assert src == src[..3 * n] + src[3 * n..];
  }

  lemma {:induction false} EncodeSplit(s: seq<byte>, t: seq<byte>)
    requires |s| % 3 == 0 && |t| < 3
    ensures Encode(s + t) == Groups(s) + Tail(t)
  {
    hide Quad, Tail;
    if |s| == 0 {
      assert s + t == t;
    } else {
      EncodeSplit(s[3..], t);
      assert (s + t)[3..] == s[3..] + t;
    }
  }

  /** The inner loop: the characters of the four groups in `a`, one by one. */
  method PutSextets(dest: array<byte>, d: nat, a: array<byte>)
    requires d + 4 <= dest.Length && a.Length == 4 && a != dest
    modifies dest
    ensures forall k | 0 <= k < 4 :: dest[d + k] == Bit6ToAscii(a[k])
    ensures dest[..d] == old(dest[..d]) && dest[d + 4..] == old(dest[d + 4..])
  {
    hide Bit6ToAscii;
    var j := 0;
    while j < 4
      invariant 0 <= j <= 4
      invariant forall k | 0 <= k < j :: dest[d + k] == Bit6ToAscii(a[k])
      invariant dest[..d] == old(dest[..d]) && dest[d + 4..] == old(dest[d + 4..])
    {
      dest[d + j] := Bit6ToAscii(a[j]);
      j := j + 1;
    }
  }

  /** One turn of the loop over full groups. */
  method PutQuad(dest: array<byte>, d: nat, x: byte, y: byte, z: byte)
    requires d + 4 <= dest.Length
    modifies dest
    ensures dest[d..d + 4] == Quad(x, y, z)
    ensures dest[..d] == old(dest[..d]) && dest[d + 4..] == old(dest[d + 4..])
    ensures dest[..d + 4] == old(dest[..d]) + Quad(x, y, z)
  {
    hide Bit6ToAscii;
    var a := new byte[4];
    a[0] := x >> 2;
    a[1] := ((x << 4) | (y >> 4)) & 0x3F;
    a[2] := ((y << 2) | (z >> 6)) & 0x3F;
    a[3] := z & 0x3F;
    PutSextets(dest, d, a);
    assert dest[d + 0] == Bit6ToAscii(a[0]) && dest[d + 1] == Bit6ToAscii(a[1]);
    assert dest[d + 2] == Bit6ToAscii(a[2]) && dest[d + 3] == Bit6ToAscii(a[3]);
  }

  /** The switch on `length % 3`: the characters of the last one or two octets. */
  method PutTail(dest: array<byte>, d: nat, rest: seq<byte>) returns (end: nat)
    requires |rest| < 3
    requires d + |Tail(rest)| <= dest.Length
    modifies dest
    ensures end == d + |Tail(rest)|
    ensures dest[d..end] == Tail(rest)
    ensures dest[..d] == old(dest[..d]) && dest[end..] == old(dest[end..])
  {
    hide Bit6ToAscii;
    end := d;
    if |rest| == 1 {
      var a0, a1 := rest[0] >> 2, (rest[0] << 4) & 0x3F;
      dest[d], dest[d + 1], dest[d + 2], dest[d + 3] := Bit6ToAscii(a0), Bit6ToAscii(a1), PAD, PAD;
      end := d + 4;
    } else if |rest| == 2 {
      var a0, a1, a2 := rest[0] >> 2, ((rest[0] << 4) | (rest[1] >> 4)) & 0x3F, (rest[1] << 2) & 0x3F;
      dest[d], dest[d + 1], dest[d + 2], dest[d + 3] := Bit6ToAscii(a0), Bit6ToAscii(a1), Bit6ToAscii(a2), PAD;
      end := d + 4;
    }
  }

  lemma Halves(a: seq<byte>, b: seq<byte>, d: nat, n: nat)
    requires d + n <= |a| == |b| && a[d..] == b[d..]
    ensures a[d + n..] == b[d + n..]
  {
    assert a[d..][n..] == a[d + n..] && b[d..][n..] == b[d + n..];
  }

  /** The loop over full groups. */
  method PutGroups(dest: array<byte>, src: seq<byte>) returns (d: nat)
    requires 4 * (|src| / 3) <= dest.Length
    modifies dest
    ensures d == 4 * (|src| / 3)
    ensures dest[..d] == Groups(src[..3 * (|src| / 3)])
    ensures dest[d..] == old(dest[d..])
  {
    hide Quad, Groups;
    ghost var was := dest[..];
    d := 0;
    assert src[..0] == [] && Groups([]) == [] by { EmptyGroups(); }
    var i := 0;
    while i < |src| / 3
      invariant 0 <= i <= |src| / 3 && d == 4 * i
      invariant dest[..d] == Groups(src[..3 * i])
      invariant dest[d..] == was[d..]
    {
      GroupsNext(src, i);
      Halves(dest[..], was, d, 4);
      PutQuad(dest, d, src[i * 3 + 0], src[i * 3 + 1], src[i * 3 + 2]);
      d, i := d + 4, i + 1;
    }
  }

  /**
   `base64enc`: writes the text of `src` and a NUL at the front of `dest` and nothing else.
   The caller must own the room for both, and `length` is a `uint16_t`.
   */
  method Base64Enc(dest: array<byte>, src: seq<byte>)
    requires |src| < 0x1_0000
    requires EncodedLength(|src|) + 1 <= dest.Length
    modifies dest
    ensures dest[..EncodedLength(|src|)] == Encode(src)
    ensures dest[EncodedLength(|src|)] == 0
    ensures dest[EncodedLength(|src|) + 1..] == old(dest[EncodedLength(|src|) + 1..])
  {
    hide Tail, Groups, Encode;
    ghost var was, size := dest[..], EncodedLength(|src|);
    var d := PutGroups(dest, src);
    var n := |src| / 3;
    EncodeIsGroupsAndTail(src, n);
    ghost var front := dest[..d];
    var end := PutTail(dest, d, src[3 * n..]);
    assert end == size;
    assert dest[..d] == front;
    assert dest[..end] == front + dest[d..end] == Encode(src);
    assert dest[end..] == was[d..][end - d..] == was[end..];
    PutNul(dest, end);
    assert dest[end + 1..] == was[end..][1..] == was[end + 1..];
  }

  /** `*dest='\0'`. */
  method PutNul(dest: array<byte>, end: nat)
    requires end < dest.Length
    modifies dest
    ensures dest[end] == 0
    ensures dest[..end] == old(dest[..end]) && dest[end + 1..] == old(dest[end..])[1..]
  {
    dest[end] := 0;
  }

  // ----- the decoder of section 4 of RFC 4648 -----

  /** The 6-bit value of a character of table 1 of RFC 4648. */
  function SextetOf(c: byte): Option<byte> {
    if 0x41 <= c <= 0x5A then Some(c - 0x41)
    else if 0x61 <= c <= 0x7A then Some(c - 0x61 + 26)
    else if 0x30 <= c <= 0x39 then Some(c - 0x30 + 52)
    else if c == 0x2B then Some(62)
    else if c == 0x2F then Some(63)
    else None
  }

  /** The octets of a group, from the 6-bit values of its characters; `last` allows padding. */
  function DecodeSextets(a: Option<byte>, b: Option<byte>, c: Option<byte>, d: Option<byte>,
                         pad2: bool, pad3: bool): Option<seq<byte>> {
    match (a, b, c, d)
    case (Some(a), Some(b), Some(c), Some(d)) =>
      Some([(a << 2) | (b >> 4), (b << 4) | (c >> 2), (c << 6) | d])
    case (Some(a), Some(b), Some(c), None) =>
      if pad3 && c & 0x03 == 0 then Some([(a << 2) | (b >> 4), (b << 4) | (c >> 2)]) else None
    case (Some(a), Some(b), None, None) =>
      if pad2 && pad3 && b & 0x0F == 0 then Some([(a << 2) | (b >> 4)]) else None
    case _ => None
  }

  /** The octets of one group of four characters; `last` allows padding. */
  function DecodeQuad(q: seq<byte>, last: bool): Option<seq<byte>>
    requires |q| == 4
  {
    DecodeSextets(SextetOf(q[0]), SextetOf(q[1]), SextetOf(q[2]), SextetOf(q[3]),
                  last && q[2] == PAD, last && q[3] == PAD)
  }

  /** A strict decoder: whole groups only, padding only at the end, unused bits zero. */
  function Decode(e: seq<byte>): Option<seq<byte>> {
    if e == [] then Some([])
    else if |e| < 4 then None
    else
      match (DecodeQuad(e[..4], |e| == 4), Decode(e[4..]))
      case (Some(front), Some(rest)) => Some(front + rest)
      case _ => None
  }

  lemma SextetOfAscii(a: byte)
    requires a < 64
    ensures SextetOf(Bit6ToAscii(a)) == Some(a)
  {
  }

  predicate InAlphabet(c: byte) {
    SextetOf(c).Some?
  }

  lemma PadIsNotInAlphabet()
    ensures !InAlphabet(PAD)
  {
  }

  lemma GroupsAreSextets(x: byte, y: byte, z: byte)
    ensures Group0(x) < 64 && Group1(x, y) < 64 && Group2(y, z) < 64 && Group3(z) < 64
  {
  }

  /** The four groups hold every bit of the three octets. */
  lemma BitsRecombine(x: byte, y: byte, z: byte)
    ensures (Group0(x) << 2) | (Group1(x, y) >> 4) == x
    ensures (Group1(x, y) << 4) | (Group2(y, z) >> 2) == y
    ensures (Group2(y, z) << 6) | Group3(z) == z
    ensures Group1(x, 0) & 0x0F == 0
    ensures Group2(y, 0) & 0x03 == 0
  {
  }

  lemma QuadRoundTrip(x: byte, y: byte, z: byte, last: bool)
    ensures DecodeQuad(Quad(x, y, z), last) == Some([x, y, z])
  {
    hide Bit6ToAscii, SextetOf;
    GroupsAreSextets(x, y, z);
    SextetOfAscii(Group0(x));
    SextetOfAscii(Group1(x, y));
    SextetOfAscii(Group2(y, z));
    SextetOfAscii(Group3(z));
    BitsRecombine(x, y, z);
  }

  lemma TailRoundTrip(s: seq<byte>)
    requires 1 <= |s| < 3
    ensures DecodeQuad(Tail(s), true) == Some(s)
  {
    hide Bit6ToAscii, SextetOf;
    PadIsNotInAlphabet();
    var x, y := s[0], if |s| == 1 then 0 else s[1];
    GroupsAreSextets(x, y, 0);
    SextetOfAscii(Group0(x));
    SextetOfAscii(Group1(x, y));
    SextetOfAscii(Group2(y, 0));
    BitsRecombine(x, y, 0);
    assert s == if |s| == 1 then [x] else [x, y];
  }

  /** The decoder of RFC 4648 inverts the encoder on every input. */
  lemma {:induction false} DecodeEncode(s: seq<byte>)
    ensures Decode(Encode(s)) == Some(s)
  {
    hide Quad, Tail, DecodeQuad;
    if |s| == 0 {
      assert Encode(s) == [] == s;
    } else if |s| < 3 {
      TailRoundTrip(s);
      DecodeStep(Tail(s), [], s, []);
      assert Tail(s) + [] == Encode(s) && s + [] == s;
    } else {
      var q, x := Quad(s[0], s[1], s[2]), [s[0], s[1], s[2]];
      DecodeEncode(s[3..]);
      QuadRoundTrip(s[0], s[1], s[2], Encode(s[3..]) == []);
      DecodeStep(q, Encode(s[3..]), x, s[3..]);
      assert s == x + s[3..];
    }
  }

  lemma DecodeStep(q: seq<byte>, e: seq<byte>, x: seq<byte>, y: seq<byte>)
    requires |q| == 4 && DecodeQuad(q, e == []) == Some(x) && Decode(e) == Some(y)
    ensures Decode(q + e) == Some(x + y)
  {
    hide DecodeQuad;
    assert (q + e)[..4] == q && (q + e)[4..] == e;
  }

  /** Different inputs never share a text. */
  lemma EncodeInjective(s: seq<byte>, t: seq<byte>)
    requires Encode(s) == Encode(t)
    ensures s == t
  {
    DecodeEncode(s);
    DecodeEncode(t);
  }

  /** The number of padding characters of a text of `n` octets. */
  function PadCount(n: nat): nat { if n % 3 == 0 then 0 else 3 - n % 3 }

  lemma QuadAlphabet(x: byte, y: byte, z: byte)
    ensures forall c | c in Quad(x, y, z) :: InAlphabet(c)
  {
    hide Bit6ToAscii, SextetOf;
    GroupsAreSextets(x, y, z);
    SextetOfAscii(Group0(x));
    SextetOfAscii(Group1(x, y));
    SextetOfAscii(Group2(y, z));
    SextetOfAscii(Group3(z));
  }

  /** Every character is of the alphabet, except the final padding. */
  lemma {:induction false} EncodeAlphabet(s: seq<byte>)
    ensures forall i | 0 <= i < |Encode(s)| - PadCount(|s|) :: InAlphabet(Encode(s)[i])
    ensures forall i | |Encode(s)| - PadCount(|s|) <= i < |Encode(s)| :: Encode(s)[i] == PAD
  {
    hide InAlphabet, Bit6ToAscii;
    if |s| >= 3 {
      hide Quad;
      EncodeAlphabet(s[3..]);
      QuadAlphabet(s[0], s[1], s[2]);
      var q, r := Quad(s[0], s[1], s[2]), Encode(s[3..]);
      assert Encode(s) == q + r && PadCount(|s|) == PadCount(|s[3..]|);
      assert forall i | 4 <= i < |q + r| :: (q + r)[i] == r[i - 4];
    } else if |s| > 0 {
      QuadAlphabet(s[0], if |s| == 1 then 0 else s[1], 0);
    }
  }
}
