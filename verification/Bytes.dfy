/** Octets, 16-bit big-endian integers and the growable byte buffer the codecs work on. */
module Bytes {

  type byte = b: int | 0 <= b < 0x100
  type u16 = n: int | 0 <= n < 0x1_0000

  function U16(hi: byte, lo: byte): u16 {
    hi * 0x100 + lo
  }

  function Hi(n: u16): byte {
    n / 0x100
  }

  function Lo(n: u16): byte {
    n % 0x100
  }

  lemma U16RoundTrip(hi: byte, lo: byte)
    ensures Hi(U16(hi, lo)) == hi && Lo(U16(hi, lo)) == lo
  {
  }

  lemma U16Rebuilt(n: u16)
    ensures U16(Hi(n), Lo(n)) == n
  {
  }

  /** A cast of a length to `u16`: the value wraps. */
  function Truncate(n: nat): u16 {
    if n < 0x1_0000 then n else n % 0x1_0000
  }

  lemma TruncateWraps(n: nat)
    ensures Truncate(n) == n % 65536
  {
  }

  function Concat<T>(chunks: seq<seq<T>>): seq<T> {
    if chunks == [] then [] else chunks[0] + Concat(chunks[1..])
  }

  lemma {:induction false} ConcatAppend<T>(a: seq<seq<T>>, b: seq<seq<T>>)
    ensures Concat(a + b) == Concat(a) + Concat(b)
  {
    if a == [] {
      assert a + b == b;
    } else {
      ConcatAppend(a[1..], b);
      assert (a + b)[0] == a[0] && (a + b)[1..] == a[1..] + b;
      SeqAssoc(a[0], Concat(a[1..]), Concat(b));
    }
  }

  lemma SeqAssoc<T>(a: seq<T>, b: seq<T>, c: seq<T>)
    ensures a + b + c == a + (b + c)
  {
  }

  lemma SeqSplit<T>(a: seq<T>, n: nat)
    requires n <= |a|
    ensures a[..n] + a[n..] == a
  {
  }

  /** The `BytesMut` buffer: readers take bytes off the front, writers add to the back. */
  class BytesMut {
    var data: seq<byte>

    constructor ()
      ensures data == []
    {
      data := [];
    }

    method GetU8() returns (b: byte)
      requires |data| >= 1
      modifies this
      ensures b == old(data)[0] && data == old(data)[1..]
    {
      b := data[0];
      data := data[1..];
    }

    method GetU16() returns (n: u16)
      requires |data| >= 2
      modifies this
      ensures n == U16(old(data)[0], old(data)[1]) && data == old(data)[2..]
    {
      n := U16(data[0], data[1]);
      data := data[2..];
    }

    method SplitTo(n: nat) returns (front: seq<byte>)
      requires n <= |data|
      modifies this
      ensures front == old(data)[..n] && data == old(data)[n..]
    {
      front := data[..n];
      data := data[n..];
    }

    method PutU8(b: byte)
      modifies this
      ensures data == old(data) + [b]
    {
      data := data + [b];
    }

    method PutU16(n: u16)
      modifies this
      ensures data == old(data) + [Hi(n), Lo(n)]
    {
      data := data + [Hi(n), Lo(n)];
    }

    method Extend(bytes: seq<byte>)
      modifies this
      ensures data == old(data) + bytes
    {
      data := data + bytes;
    }
  }
}
