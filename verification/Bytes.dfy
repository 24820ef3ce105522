/** Bytes, byte strings and big-endian integers shared by the box filter and the WebSocket framing. */
module Bytes {

  type byte = x: int | 0 <= x < 256

  /** The concatenation of a list of byte strings (or of any strings). */
  function Concat<T>(ss: seq<seq<T>>): seq<T> {
    if ss == [] then [] else ss[0] + Concat(ss[1..])
  }

  lemma ConcatCons<T>(first: seq<T>, rest: seq<seq<T>>)
    ensures Concat([first] + rest) == first + Concat(rest)
  {
    assert ([first] + rest)[1..] == rest;
  }

  lemma {:induction false} ConcatAppend<T>(a: seq<seq<T>>, b: seq<seq<T>>)
    ensures Concat(a + b) == Concat(a) + Concat(b)
  {
    if a == [] {
      assert a + b == b;
    } else {
      assert (a + b)[1..] == a[1..] + b;
      ConcatAppend(a[1..], b);
    }
  }

  lemma Regroup<T>(a: seq<T>, b: seq<T>, c: seq<T>)
    ensures a + (b + c) == (a + b) + c
  {
  }

  lemma TailOfSum<T>(a: seq<T>, b: seq<T>)
    requires a != []
    ensures (a + b)[0] == a[0] && (a + b)[1..] == a[1..] + b
  {
  }

  /** A 32-bit big-endian read: what `ntohl` returns for the four bytes at the front. */
  function ReadU32(s: seq<byte>): (n: nat)
    requires |s| >= 4
    ensures n < 0x1_0000_0000
  {
    var a: int, b: int, c: int, d: int := s[0], s[1], s[2], s[3];
    a * 0x100_0000 + b * 0x1_0000 + c * 0x100 + d
  }

  /** The number octets spell in network byte order: the first counts most. */
  function Number(s: seq<byte>): nat {
    if s == [] then 0 else Number(s[..|s| - 1]) * 256 + s[|s| - 1] as nat
  }

  lemma NumberGrows(s: seq<byte>, b: byte)
    ensures Number(s + [b]) == Number(s) * 256 + b as int
  {
    assert (s + [b])[..|s|] == s;
  }

  /** A size is read in network byte order. */
  lemma ReadIsNumber(s: seq<byte>)
    requires |s| >= 4
    ensures ReadU32(s) == Number(s[..4])
    ensures ReadU32(s) == ((s[0] as int * 256 + s[1] as int) * 256 + s[2] as int) * 256 + s[3] as int
  {
    assert s[..4] == [] + [s[0]] + [s[1]] + [s[2]] + [s[3]];
    NumberGrows([], s[0]);
    NumberGrows([] + [s[0]], s[1]);
    NumberGrows([] + [s[0]] + [s[1]], s[2]);
    NumberGrows([] + [s[0]] + [s[1]] + [s[2]], s[3]);
  }

  /** The four bytes `htonl` leaves in memory. */
  function WriteU32(n: nat): (s: seq<byte>)
    requires n < 0x1_0000_0000
    ensures |s| == 4
  {
    [n / 0x100_0000, n / 0x1_0000 % 0x100, n / 0x100 % 0x100, n % 0x100]
  }

  lemma WriteReadU32(s: seq<byte>)
    requires |s| >= 4
    ensures WriteU32(ReadU32(s)) == s[..4]
  {
    var n := ReadU32(s);
    var a: int, b: int, c: int := s[0], s[1], s[2];
    assert n / 0x100 == a * 0x1_0000 + b * 0x100 + c;
    assert n / 0x1_0000 == a * 0x100 + b;
    assert n / 0x100_0000 == a;
    assert n % 0x100 == s[3];
  }

  lemma ReadWriteU32(n: nat)
    requires n < 0x1_0000_0000
    ensures ReadU32(WriteU32(n)) == n
  {
    var a, b, c := n / 0x100, n / 0x1_0000, n / 0x100_0000;
    assert b == a / 0x100 && c == b / 0x100;
  }
}
