/** The Evbuffer wrapper: a byte queue stored as a chain of extents. Every operation
    is proved against the flat string the chain spells, so that no caller can see
    where one extent ends and the next begins. */
module Evbuffers {
  import opened Options
  import opened Lines

  type byte = b: int | 0 <= b < 256

  /** The flat contents of a chain of extents. */
  function Flatten<T>(extents: seq<seq<T>>): seq<T> {
    if extents == [] then [] else extents[0] + Flatten(extents[1..])
  }

  lemma {:induction false} FlattenConcat<T>(a: seq<seq<T>>, b: seq<seq<T>>)
    ensures Flatten(a + b) == Flatten(a) + Flatten(b)
  {
    if a == [] {
      assert a + b == b;
    } else {
      assert (a + b)[1..] == a[1..] + b;
      FlattenConcat(a[1..], b);
    }
  }

  lemma FlattenSnoc<T>(a: seq<seq<T>>, x: seq<T>)
    ensures Flatten(a + [x]) == Flatten(a) + x
  {
    FlattenConcat(a, [x]);
    assert Flatten([x]) == x;
  }

  /** The first `n` elements, or all of them when there are fewer. */
  function Take<T>(s: seq<T>, n: nat): seq<T> {
    if n <= |s| then s[..n] else s
  }

  /** What is left after `Take`. */
  function Drop<T>(s: seq<T>, n: nat): seq<T> {
    if n <= |s| then s[n..] else []
  }

  /** The two parts make up the whole, and the first is as long as it can be. */
  lemma TakeAndDrop<T>(s: seq<T>, n: nat)
    ensures Take(s, n) + Drop(s, n) == s
    ensures |Take(s, n)| == if n <= |s| then n else |s|
  {}

  lemma DropDrop<T>(s: seq<T>, m: nat, n: nat)
    ensures Drop(Drop(s, m), n) == Drop(s, m + n)
  {}

  /** The effect of evbuffer_drain on the chain: whole extents are unlinked, then the
      front of the next one is cut. */
  function DrainExtents<T>(extents: seq<seq<T>>, n: nat): seq<seq<T>> {
    if extents == [] || n == 0 then extents
    else if |extents[0]| <= n then DrainExtents(extents[1..], n - |extents[0]|)
    else [extents[0][n..]] + extents[1..]
  }

  lemma DropConcat<T>(a: seq<T>, b: seq<T>, n: nat)
    ensures Drop(a + b, n) == if |a| <= n then Drop(b, n - |a|) else a[n..] + b
  {}

  lemma {:induction false} DrainIsDrop<T>(extents: seq<seq<T>>, n: nat)
    ensures Flatten(DrainExtents(extents, n)) == Drop(Flatten(extents), n)
  {
    if extents != [] && n > 0 {
      DropConcat(extents[0], Flatten(extents[1..]), n);
      if |extents[0]| <= n {
        DrainIsDrop(extents[1..], n - |extents[0]|);
      } else {
        assert ([extents[0][n..]] + extents[1..])[1..] == extents[1..];
      }
    }
  }

  /** Copying `n` elements out of extent `i` is what is next of the first `left` elements. */
  lemma TakeNext<T>(extents: seq<seq<T>>, i: nat, left: nat, n: nat)
    requires i < |extents| && n == (if left < |extents[i]| then left else |extents[i]|)
    ensures Take(Flatten(extents[i..]), left) == extents[i][..n] + Take(Flatten(extents[i + 1..]), left - n)
  {
    assert extents[i..][1..] == extents[i + 1..];
    TakeConcat(extents[i], Flatten(extents[i + 1..]), left);
  }

  lemma CopyNext<T>(out: seq<T>, extents: seq<seq<T>>, i: nat, left: nat, n: nat)
    requires i < |extents| && n == (if left < |extents[i]| then left else |extents[i]|)
    ensures out + extents[i][..n] + Take(Flatten(extents[i + 1..]), left - n) == out + Take(Flatten(extents[i..]), left)
  {
    hide Take, Flatten;
    TakeNext(extents, i, left, n);
    Associate(out, extents[i][..n], Take(Flatten(extents[i + 1..]), left - n));
  }

  lemma NothingMore<T>(out: seq<T>, extents: seq<seq<T>>, left: nat)
    requires extents == [] || left == 0
    ensures out + Take(Flatten(extents), left) == out
  {
    TakeNothing(extents, left);
  }

  lemma TakeConcat<T>(a: seq<T>, b: seq<T>, left: nat)
    ensures Take(a + b, left) == Take(a, left) + (if left > |a| then Take(b, left - |a|) else [])
  {}

  lemma TakeNothing<T>(extents: seq<seq<T>>, left: nat)
    requires extents == [] || left == 0
    ensures Take(Flatten(extents), left) == []
  {}

  class Evbuffer<T> {
    var extents: seq<seq<T>>

    ghost function Contents(): seq<T>
      reads this
    {
      Flatten(extents)
    }

    constructor ()
      ensures Contents() == []
    {
      extents := [];
    }

    method GetLength() returns (n: nat)
      ensures n == |Contents()|
    {
      n := 0;
      var i := 0;
      while i < |extents|
        invariant i <= |extents|
        invariant n + |Flatten(extents[i..])| == |Contents()|
      {
        n := n + |extents[i]|;
        i := i + 1;
      }
    }

    /** Appends; the data becomes an extent of its own, as after evbuffer_add of a fresh chain. */
    method Add(data: seq<T>)
      modifies this
      ensures Contents() == old(Contents()) + data
    {
      FlattenSnoc(extents, data);
      extents := extents + [data];
    }

    method Drain(n: nat)
      modifies this
      ensures Contents() == Drop(old(Contents()), n)
    {
      DrainIsDrop(extents, n);
      extents := DrainExtents(extents, n);
    }

    /** Walks the extents, as `for_each_` does, until `upto` elements are copied. */
    method Copyout(upto: nat) returns (out: seq<T>)
      ensures out == Take(Contents(), upto)
    {
      hide Take, Flatten;
      out := [];
      var left: int, i := upto, 0;
      assert extents[0..] == extents;
      while i < |extents|
        invariant i <= |extents| && left >= 0
        invariant out + Take(Flatten(extents[i..]), left) == Take(Contents(), upto)
      {
        var n := |extents[i]|;
        if left < n { n := left; }
        CopyNext(out, extents, i, left, n);
        out := out + extents[i][..n];
        left := left - n;
        i := i + 1;
        if left == 0 { break; }
      }
      NothingMore(out, extents[i..], left);
    }

    method Remove(upto: nat) returns (out: seq<T>)
      modifies this
      ensures out == Take(old(Contents()), upto)
      ensures Contents() == Drop(old(Contents()), upto)
    {
      out := Copyout(upto);
      if |out| > 0 {
        Drain(|out|);
      }
    }
  }

  /** Reads one line in the EVBUFFER_EOL_CRLF style: an LF, optionally after a CR, ends it.
      The caller cannot tell an empty line, which is consumed, from a missing line. */
  method Readln(buffer: Evbuffer<char>) returns (line: string)
    modifies buffer
    ensures match FirstLine(old(buffer.Contents()))
            case None => line == "" && buffer.Contents() == old(buffer.Contents())
            case Some(cut) => line == cut.line.text && buffer.Contents() == cut.rest
  {
    var flat := Flatten(buffer.extents);
    var found := SearchEol(flat);
    if found.None? {
      return "";
    }
    var e := found.value;
    line := buffer.Remove(e.position);
    buffer.Drain(e.length);
    DropDrop(flat, e.position, e.length);
  }

  /** The value that two bytes in network order stand for. */
  function FromBigEndian(bytes: seq<byte>): nat {
    if bytes == [] then 0 else FromBigEndian(bytes[..|bytes| - 1]) * 256 + bytes[|bytes| - 1]
  }

  /** htons and htonl followed by a copy of memory: most significant byte first. */
  function BigEndian(num: nat, width: nat): (bytes: seq<byte>)
    ensures |bytes| == width
  {
    if width == 0 then [] else BigEndian(num / 256, width - 1) + [num % 256]
  }

  function Pow256(width: nat): (p: nat)
    ensures p > 0
  {
    if width == 0 then 1 else 256 * Pow256(width - 1)
  }

  lemma {:induction false} BigEndianRoundTrip(num: nat, width: nat)
    requires num < Pow256(width)
    ensures FromBigEndian(BigEndian(num, width)) == num
  {
    if width > 0 {
      BigEndianRoundTrip(num / 256, width - 1);
      var b := BigEndian(num, width);
      assert b[..|b| - 1] == BigEndian(num / 256, width - 1);
    }
  }

  /** Network order: the first byte weighs most. */
  lemma MostSignificantFirst(a: byte, b: byte, c: byte, d: byte)
    ensures FromBigEndian([a, b]) == a * 0x100 + b
    ensures FromBigEndian([a, b, c, d]) == a * 0x100_0000 + b * 0x1_0000 + c * 0x100 + d
  {
    TwoBytes(a, b);
    assert [a, b, c, d][..3] == [a, b, c] && [a, b, c][..2] == [a, b];
    assert FromBigEndian([a, b, c]) == FromBigEndian([a, b]) * 256 + c;
  }

  lemma TwoBytes(a: byte, b: byte)
    ensures FromBigEndian([a, b]) == a * 0x100 + b
  {
    assert [a, b][..1] == [a] && [a][..0] == [];
    assert FromBigEndian([a]) == FromBigEndian([]) * 256 + a;
  }

  type uint8 = n: int | 0 <= n < 0x100
  type uint16 = n: int | 0 <= n < 0x1_0000
  type uint32 = n: int | 0 <= n < 0x1_0000_0000

  method AddUint8(buffer: Evbuffer<byte>, num: uint8)
    modifies buffer
    ensures buffer.Contents() == old(buffer.Contents()) + [num]
  {
    buffer.Add([num]);
  }

  method AddUint16(buffer: Evbuffer<byte>, num: uint16)
    modifies buffer
    ensures buffer.Contents() == old(buffer.Contents()) + BigEndian(num, 2)
    ensures FromBigEndian(BigEndian(num, 2)) == num
  {
    BigEndianRoundTrip(num, 2);
    buffer.Add([num / 256, num % 256]);
    assert BigEndian(num, 2) == [num / 256, num % 256] by { assert BigEndian(num / 256, 1) == BigEndian(num / 256 / 256, 0) + [num / 256 % 256]; }
  }

  method AddUint32(buffer: Evbuffer<byte>, num: uint32)
    modifies buffer
    ensures buffer.Contents() == old(buffer.Contents()) + BigEndian(num, 4)
    ensures FromBigEndian(BigEndian(num, 4)) == num
  {
    BigEndianRoundTrip(num, 4);
    buffer.Add(BigEndian(num, 4));
  }
}
