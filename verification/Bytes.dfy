/** Octets, as the C sources handle them, and the few conversions the other modules share. */
module Bytes {

  /** `unsigned char` / `uint8_t`. */
  type byte = bv8

  /** The octet of a number that fits in one. */
  function ByteOf(n: nat): (b: byte)
    requires n < 256
    ensures b as nat == n
  {
    if n == 0 then 0 else ByteOf(n - 1) + 1
  }

  /** The octet of an ASCII character. */
  function Octet(c: char): byte {
    if c as int < 128 then c as byte else 0
  }

  /** The octets of a string literal of the source. */
  function Ascii(s: string): (b: seq<byte>)
    ensures |b| == |s|
  {
    seq(|s|, i requires 0 <= i < |s| => Octet(s[i]))
  }

  lemma AsciiConcat(s: string, t: string)
    ensures Ascii(s + t) == Ascii(s) + Ascii(t)
  {
    hide Octet;
  }

  // ----- the characters of the source's texts, as ISO 646 numbers them -----

  lemma UpperAtoI()
    ensures Octet('A') == 0x41 && Octet('B') == 0x42 && Octet('C') == 0x43 && Octet('D') == 0x44
    ensures Octet('E') == 0x45 && Octet('F') == 0x46 && Octet('G') == 0x47 && Octet('H') == 0x48
    ensures Octet('I') == 0x49
  {
  }

  lemma UpperJtoR()
    ensures Octet('J') == 0x4A && Octet('K') == 0x4B && Octet('L') == 0x4C && Octet('M') == 0x4D
    ensures Octet('N') == 0x4E && Octet('O') == 0x4F && Octet('P') == 0x50 && Octet('Q') == 0x51
    ensures Octet('R') == 0x52
  {
  }

  lemma UpperStoZ()
    ensures Octet('S') == 0x53 && Octet('T') == 0x54 && Octet('U') == 0x55 && Octet('V') == 0x56
    ensures Octet('W') == 0x57 && Octet('X') == 0x58 && Octet('Y') == 0x59 && Octet('Z') == 0x5A
  {
  }

  lemma LowerAtoI()
    ensures Octet('a') == 0x61 && Octet('b') == 0x62 && Octet('c') == 0x63 && Octet('d') == 0x64
    ensures Octet('e') == 0x65 && Octet('f') == 0x66 && Octet('g') == 0x67 && Octet('h') == 0x68
    ensures Octet('i') == 0x69
  {
  }

  lemma LowerJtoR()
    ensures Octet('j') == 0x6A && Octet('k') == 0x6B && Octet('l') == 0x6C && Octet('m') == 0x6D
    ensures Octet('n') == 0x6E && Octet('o') == 0x6F && Octet('p') == 0x70 && Octet('q') == 0x71
    ensures Octet('r') == 0x72
  {
  }

  lemma LowerStoZ()
    ensures Octet('s') == 0x73 && Octet('t') == 0x74 && Octet('u') == 0x75 && Octet('v') == 0x76
    ensures Octet('w') == 0x77 && Octet('x') == 0x78 && Octet('y') == 0x79 && Octet('z') == 0x7A
  {
  }

  lemma Digits()
    ensures Octet('0') == 0x30 && Octet('1') == 0x31 && Octet('2') == 0x32 && Octet('3') == 0x33
    ensures Octet('4') == 0x34 && Octet('5') == 0x35 && Octet('6') == 0x36 && Octet('7') == 0x37
    ensures Octet('8') == 0x38 && Octet('9') == 0x39
  {
  }

  lemma Signs()
    ensures Octet(' ') == 0x20 && Octet(':') == 0x3A && Octet('-') == 0x2D && Octet('/') == 0x2F
    ensures Octet('.') == 0x2E && Octet(',') == 0x2C && Octet('+') == 0x2B && Octet('=') == 0x3D
  {
  }

  lemma Controls()
    ensures Octet('\r') == 0x0D && Octet('\n') == 0x0A
  {
  }

  lemma Iso646()
    ensures Octet('A') == 0x41 && Octet('B') == 0x42 && Octet('C') == 0x43 && Octet('D') == 0x44
    ensures Octet('E') == 0x45 && Octet('F') == 0x46 && Octet('G') == 0x47 && Octet('H') == 0x48
    ensures Octet('I') == 0x49
    ensures Octet('J') == 0x4A && Octet('K') == 0x4B && Octet('L') == 0x4C && Octet('M') == 0x4D
    ensures Octet('N') == 0x4E && Octet('O') == 0x4F && Octet('P') == 0x50 && Octet('Q') == 0x51
    ensures Octet('R') == 0x52
    ensures Octet('S') == 0x53 && Octet('T') == 0x54 && Octet('U') == 0x55 && Octet('V') == 0x56
    ensures Octet('W') == 0x57 && Octet('X') == 0x58 && Octet('Y') == 0x59 && Octet('Z') == 0x5A
    ensures Octet('a') == 0x61 && Octet('b') == 0x62 && Octet('c') == 0x63 && Octet('d') == 0x64
    ensures Octet('e') == 0x65 && Octet('f') == 0x66 && Octet('g') == 0x67 && Octet('h') == 0x68
    ensures Octet('i') == 0x69
    ensures Octet('j') == 0x6A && Octet('k') == 0x6B && Octet('l') == 0x6C && Octet('m') == 0x6D
    ensures Octet('n') == 0x6E && Octet('o') == 0x6F && Octet('p') == 0x70 && Octet('q') == 0x71
    ensures Octet('r') == 0x72
    ensures Octet('s') == 0x73 && Octet('t') == 0x74 && Octet('u') == 0x75 && Octet('v') == 0x76
    ensures Octet('w') == 0x77 && Octet('x') == 0x78 && Octet('y') == 0x79 && Octet('z') == 0x7A
    ensures Octet('0') == 0x30 && Octet('1') == 0x31 && Octet('2') == 0x32 && Octet('3') == 0x33
    ensures Octet('4') == 0x34 && Octet('5') == 0x35 && Octet('6') == 0x36 && Octet('7') == 0x37
    ensures Octet('8') == 0x38 && Octet('9') == 0x39
    ensures Octet(' ') == 0x20 && Octet(':') == 0x3A && Octet('-') == 0x2D && Octet('/') == 0x2F
    ensures Octet('.') == 0x2E && Octet(',') == 0x2C && Octet('+') == 0x2B && Octet('=') == 0x3D
    ensures Octet('\r') == 0x0D && Octet('\n') == 0x0A
  {
    hide Octet;
    UpperAtoI();
    UpperJtoR();
    UpperStoZ();
    LowerAtoI();
    LowerJtoR();
    LowerStoZ();
    Digits();
    Signs();
    Controls();
  }

  /** `n` zero octets, as `memset(p, 0, n)` leaves them. */
  function Zeros(n: nat): (b: seq<byte>)
    ensures |b| == n && forall i | 0 <= i < n :: b[i] == 0
  {
    seq(n, _ => 0)
  }

  // ----- numbers in several octets -----

  /** The low `k` octets of `n`, highest first. */
  function BigEndianOctets(n: nat, k: nat): (b: seq<byte>)
    ensures |b| == k
  {
    if k == 0 then [] else BigEndianOctets(n / 256, k - 1) + [ByteOf(n % 256)]
  }

  /** The number that octets stand for, highest first. */
  function BigEndian(b: seq<byte>): nat {
    if b == [] then 0 else 256 * BigEndian(b[..|b| - 1]) + b[|b| - 1] as nat
  }

  function Pow256(k: nat): (p: nat)
    ensures p > 0
  {
    if k == 0 then 1 else 256 * Pow256(k - 1)
  }

  lemma {:induction false} BigEndianRoundTrip(n: nat, k: nat)
    requires n < Pow256(k)
    ensures BigEndian(BigEndianOctets(n, k)) == n
  {
    hide ByteOf;
    if k > 0 {
      BigEndianRoundTrip(n / 256, k - 1);
      var b := BigEndianOctets(n, k);
      assert b[..k - 1] == BigEndianOctets(n / 256, k - 1);
    }
  }

  /** The memory of an unsigned number of `k` octets on a little-endian host. */
  function Memory(n: nat, k: nat): (b: seq<byte>)
    ensures |b| == k
  {
    if k == 0 then [] else [ByteOf(n % 256)] + Memory(n / 256, k - 1)
  }

  lemma {:induction false} MemoryReversed(n: nat, k: nat, i: nat)
    requires i < k
    ensures Memory(n, k)[k - 1 - i] == BigEndianOctets(n, k)[i]
  {
    hide ByteOf;
    if i < k - 1 {
      MemoryReversed(n / 256, k - 1, i);
    }
  }

  /** The number in memory octets on a little-endian host, lowest octet first. */
  function HostNumber(b: seq<byte>): nat {
    if b == [] then 0 else b[0] as nat + 256 * HostNumber(b[1..])
  }

  function Reversed(b: seq<byte>): (r: seq<byte>)
    ensures |r| == |b|
  {
    if b == [] then [] else Reversed(b[1..]) + [b[0]]
  }

  lemma {:induction false} HostNumberIsReversed(b: seq<byte>)
    ensures HostNumber(b) == BigEndian(Reversed(b))
  {
    if b != [] {
      HostNumberIsReversed(b[1..]);
      var r := Reversed(b);
      assert r[..|r| - 1] == Reversed(b[1..]) && r[|r| - 1] == b[0];
    }
  }

  lemma SameOctet(a: byte, b: byte)
    ensures a as nat == b as nat <==> a == b
  {
  }

  lemma SameDigits(x: nat, y: nat, u: nat, v: nat)
    requires u < 256 && v < 256 && 256 * x + u == 256 * y + v
    ensures x == y && u == v
  {
  }

  lemma BigEndianLast(b: seq<byte>)
    requires b != []
    ensures BigEndian(b) == 256 * BigEndian(b[..|b| - 1]) + b[|b| - 1] as nat
  {
  }

  lemma SameEnds(a: seq<byte>, b: seq<byte>)
    requires |a| == |b| > 0 && a[..|a| - 1] == b[..|a| - 1] && a[|a| - 1] == b[|a| - 1]
    ensures a == b
  {
    assert a == a[..|a| - 1] + [a[|a| - 1]] && b == b[..|a| - 1] + [b[|a| - 1]];
  }

  lemma {:induction false} BigEndianInjective(a: seq<byte>, b: seq<byte>)
    requires |a| == |b| && BigEndian(a) == BigEndian(b)
    ensures a == b
  {
    hide BigEndian;
    if a != [] {
      var last := |a| - 1;
      BigEndianLast(a);
      BigEndianLast(b);
      SameDigits(BigEndian(a[..last]), BigEndian(b[..last]), a[last] as nat, b[last] as nat);
      SameOctet(a[last], b[last]);
      BigEndianInjective(a[..last], b[..last]);
      SameEnds(a, b);
    }
  }

  /** The two byte orders give the same number exactly for octets that read the same backwards. */
  lemma HostOrderAgreesIff(b: seq<byte>)
    ensures HostNumber(b) == BigEndian(b) <==> Reversed(b) == b
  {
    HostNumberIsReversed(b);
    if HostNumber(b) == BigEndian(b) {
      BigEndianInjective(Reversed(b), b);
    }
  }

  lemma {:induction false} HostNumberBound(b: seq<byte>)
    ensures HostNumber(b) < Pow256(|b|)
  {
    if b != [] {
      HostNumberBound(b[1..]);
    }
  }
}
