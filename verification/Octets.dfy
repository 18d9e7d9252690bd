/** Octets, the big-endian numbers made of them, and what a decoder of 3GPP TS 24.008 information
    elements can answer. */
module Octets {
  type Octet = n: nat | n < 256
  type ThreeBits = n: nat | n < 8
  type Word32 = n: nat | n < 0x1_0000_0000

  const VALUE_DOESNT_MATCH: int := -4
  const UNEXPECTED_IEI: int := -2
  const BUFFER_TOO_SHORT: int := -12

  /** Ok: the value and how many octets it took. Error: the code returned. Overrun: an octet after
      the end of the buffer would be read. Abort: an assertion ends the process. */
  datatype Decoded<+T> = Ok(value: T, used: nat) | Error(code: int) | Overrun | Abort

  /** The low octet of a number. */
  function Low(n: int): (o: Octet) { n % 256 }

  function U16(n: nat): (s: seq<Octet>)
    requires n < 0x1_0000
    ensures |s| == 2
  {
    [n / 256, n % 256]
  }

  function FromU16(s: seq<Octet>): (n: nat)
    requires |s| == 2
    ensures n < 0x1_0000
  {
    s[0] as nat * 256 + s[1] as nat
  }

  function U32(n: nat): (s: seq<Octet>)
    requires n < 0x1_0000_0000
    ensures |s| == 4
  {
    U16(n / 0x1_0000) + U16(n % 0x1_0000)
  }

  function FromU32(s: seq<Octet>): (n: nat)
    requires |s| == 4
    ensures n < 0x1_0000_0000
  {
    FromU16(s[..2]) * 0x1_0000 + FromU16(s[2..])
  }

  lemma U16RoundTrip(n: nat)
    requires n < 0x1_0000
    ensures FromU16(U16(n)) == n
  {
  }

  lemma U32RoundTrip(n: nat)
    requires n < 0x1_0000_0000
    ensures FromU32(U32(n)) == n
  {
    assert U32(n)[..2] == U16(n / 0x1_0000) && U32(n)[2..] == U16(n % 0x1_0000);
    U16RoundTrip(n / 0x1_0000);
    U16RoundTrip(n % 0x1_0000);
  }

  // ---------------------------------------------------------------- buffers

  /** The buffer b is like b0, but s has been written into it at `at`. */
  ghost predicate Written(b: seq<Octet>, b0: seq<Octet>, at: nat, s: seq<Octet>) {
    && |b| == |b0|
    && at + |s| <= |b|
    && b[..at] == b0[..at]
    && b[at..at + |s|] == s
    && b[at + |s|..] == b0[at + |s|..]
  }

  lemma WrittenTwice(b: seq<Octet>, b1: seq<Octet>, b0: seq<Octet>, at: nat, s: seq<Octet>, t: seq<Octet>)
    requires Written(b1, b0, at, s) && Written(b, b1, at + |s|, t)
    ensures Written(b, b0, at, s + t)
  {
    var n := at + |s|;
    assert b[..at] == b[..n][..at] && b1[..n][..at] == b1[..at];
    assert b[at..n] == b[..n][at..] && b1[..n][at..] == b1[at..n];
    assert b[at..n + |t|] == b[at..n] + b[n..n + |t|];
    assert b1[n + |t|..] == b1[n..][|t|..] && b0[n + |t|..] == b0[n..][|t|..];
  }

  /** Contents written first and the length octet before them afterwards. */
  lemma LengthFirst(b: seq<Octet>, b1: seq<Octet>, b0: seq<Octet>, at: nat, x: Octet, s: seq<Octet>)
    requires Written(b1, b0, at + 1, s) && b == b1[at := x]
    ensures Written(b, b0, at, [x] + s)
  {
    assert b[..at] == b1[..at + 1][..at] && b0[..at + 1][..at] == b0[..at];
    assert b[at + 1..at + 1 + |s|] == b1[at + 1..at + 1 + |s|];
    assert b[at..at + 1 + |s|] == [b[at]] + b[at + 1..at + 1 + |s|];
    assert b[at + 1 + |s|..] == b1[at + 1 + |s|..];
  }

  /** An element: its identifier, if it has one, is written first, then the contents, and the length
      octet between them last. */
  lemma ElementWritten(b: seq<Octet>, b2: seq<Octet>, b1: seq<Octet>, b0: seq<Octet>, withIei: bool, iei: Octet, len: Octet, s: seq<Octet>)
    requires if withIei then Written(b1, b0, 0, [iei]) else b1 == b0
    requires Written(b2, b1, if withIei then 2 else 1, s) && b == b2[(if withIei then 1 else 0) := len]
    ensures Written(b, b0, 0, (if withIei then [iei] else []) + [len] + s)
  {
    hide Written;
    LengthFirst(b, b2, b1, if withIei then 1 else 0, len, s);
    if withIei {
      WrittenTwice(b, b1, b0, 0, [iei], [len] + s);
      assert [iei] + ([len] + s) == [iei] + [len] + s;
    } else {
      assert [] + [len] + s == [len] + s;
    }
  }

  /** `memcpy` into a buffer. */
  method CopyOctets(buffer: array<Octet>, at: nat, s: seq<Octet>)
    requires at + |s| <= buffer.Length
    modifies buffer
    ensures Written(buffer[..], old(buffer[..]), at, s)
  {
    for i := 0 to |s|
      invariant forall j :: 0 <= j < at ==> buffer[j] == old(buffer[j])
      invariant forall j :: 0 <= j < i ==> buffer[at + j] == s[j]
      invariant forall j :: at + i <= j < buffer.Length ==> buffer[j] == old(buffer[j])
    {
      buffer[at + i] := s[i];
    }
  }

  method PutOctet(buffer: array<Octet>, at: nat, x: Octet)
    requires at < buffer.Length
    modifies buffer
    ensures buffer[..] == old(buffer[..])[at := x] && Written(buffer[..], old(buffer[..]), at, [x])
  {
    buffer[at] := x;
  }

  // ---------------------------------------------------------------- sequences

  /** A part of a part of a buffer. */
  lemma Part(b: seq<Octet>, at: nat, n: nat, x: nat, y: nat)
    requires at + n <= |b| && x <= y <= n
    ensures b[at..at + n][x..y] == b[at + x..at + y]
    ensures x < n ==> b[at..at + n][x] == b[at + x]
  {
    var p := b[at..at + n];
    assert forall j :: 0 <= j < y - x ==> p[x..y][j] == p[x + j] == b[at + x + j];
  }

  /** Where the middle of three parts of a buffer stands. */
  lemma Middle(a: seq<Octet>, m: seq<Octet>, c: seq<Octet>)
    ensures (a + m + c)[|a|..|a| + |m|] == m
  {
  }

  lemma Reassociate(a: seq<Octet>, b: seq<Octet>, c: seq<Octet>, d: seq<Octet>)
    ensures a + (b + c) + d == (a + b) + c + d
    ensures a + b + (c + d) == (a + b) + c + d
  {
  }

  lemma FirstThen(pre: seq<Octet>, x: Octet, m: seq<Octet>, post: seq<Octet>)
    ensures pre + ([x] + m) + post == pre + [x] + m + post && (pre + ([x] + m) + post)[|pre|] == x
  {
  }
}
