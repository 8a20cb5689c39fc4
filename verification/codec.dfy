/**
 * The broker's frame codec: bytes arrive one at a time and are buffered until
 * a NUL byte ends the frame (section "STOMP Frames" of STOMP 1.2); encoding a
 * frame appends one NUL. The growable buffer is the Java byte array plus its
 * fill count `len`, whose capacity doubles when full.
 */
module Codec {
  import opened Wrappers
  import Text

  newtype byte = b: int | 0 <= b < 256

  /** The frame terminator. */
  const Nul: byte := 0

  /** Capacity of a fresh decoder's buffer. */
  const InitialCapacity: nat := 1024

  predicate NulFree(m: seq<byte>) {
    forall k :: 0 <= k < |m| ==> m[k] != Nul
  }

  /** The decoder state: `bytes` is the backing array, whose length is the
      capacity, and its first `len` bytes are the ones buffered since the
      last terminator. */
  datatype Buffer = Buffer(bytes: seq<byte>, len: nat) {
    predicate Valid() {
      0 < |bytes| && len <= |bytes|
    }

    function Contents(): seq<byte>
      requires Valid()
    {
      bytes[..len]
    }
  }

  function Fresh(): (d: Buffer)
    ensures d.Valid() && d.Contents() == [] && |d.bytes| == InitialCapacity
  {
    Buffer(seq(InitialCapacity, _ => Nul), 0)
  }

  /** `Arrays.copyOf`: the first `n` bytes of `a`, padded with zeros. */
  function CopyOf(a: seq<byte>, n: nat): (r: seq<byte>)
    ensures |r| == n
    ensures forall k :: 0 <= k < n ==> r[k] == if k < |a| then a[k] else Nul
  {
    if n <= |a| then a[..n] else a + seq(n - |a|, _ => Nul)
  }

  /** Appends one byte, doubling the capacity first when the buffer is full. */
  function Push(buf: Buffer, b: byte): (r: Buffer)
    requires buf.Valid()
    ensures r.Valid()
    ensures r.len == buf.len + 1 && r.bytes[buf.len] == b
    ensures r.Contents() == buf.Contents() + [b]
    ensures buf.len < |buf.bytes| ==> |r.bytes| == |buf.bytes|
    ensures buf.len >= |buf.bytes| ==> |r.bytes| == 2 * |buf.bytes|
  {
    var grown := if buf.len >= |buf.bytes| then CopyOf(buf.bytes, buf.len * 2) else buf.bytes;
    Buffer(grown[buf.len := b], buf.len + 1)
  }

  /** The same step on an array, as the source writes it: copy into a
      twice-as-large array when full, then store at index `len`. */
  method PushByte(buf: Buffer, b: byte) returns (r: Buffer)
    requires buf.Valid()
    ensures r.Valid() && r.len == buf.len + 1
    ensures r.Contents() == buf.Contents() + [b]
    ensures r == Push(buf, b)
  {
    var capacity := if buf.len >= |buf.bytes| then buf.len * 2 else |buf.bytes|;
    var arr := new byte[capacity];
    var i := 0;
    while i < capacity
      invariant 0 <= i <= capacity
      invariant forall k :: 0 <= k < i ==> arr[k] == if k < |buf.bytes| then buf.bytes[k] else Nul
    {
      arr[i] := if i < |buf.bytes| then buf.bytes[i] else Nul;
      i := i + 1;
    }
    arr[buf.len] := b;
    r := Buffer(arr[..], buf.len + 1);
  }

  /** Hands out the buffered bytes and empties the buffer. */
  function PopString(buf: Buffer): (r: (Buffer, seq<byte>))
    requires buf.Valid()
    ensures r.0.Valid() && r.0.Contents() == [] && r.1 == buf.Contents()
    ensures r.0.bytes == buf.bytes
  {
    (buf.(len := 0), buf.Contents())
  }

  /** One byte in: a NUL completes the frame, anything else is buffered. */
  function DecodeNextByte(buf: Buffer, b: byte): (r: (Buffer, Option<seq<byte>>))
    requires buf.Valid()
    ensures r.0.Valid()
    ensures b == Nul ==> r.1 == Some(buf.Contents()) && r.0.len == 0
    ensures b != Nul ==> r.1 == None && r.0.len == buf.len + 1
    ensures b != Nul ==> r.0.Contents() == buf.Contents() + [b]
  {
    if b == Nul then
      var (buf', frame) := PopString(buf);
      (buf', Some(frame))
    else
      (Push(buf, b), None)
  }

  /** The frame bytes followed by one terminator. */
  function Encode(m: seq<byte>): (r: seq<byte>)
    ensures |r| == |m| + 1 && r[..|m|] == m && r[|m|] == Nul
  {
    m + [Nul]
  }

  /** The frames a single decoding step completes: none or one. */
  function Emitted(out: Option<seq<byte>>): seq<seq<byte>> {
    if out.Some? then [out.value] else []
  }

  /** Feeds a byte sequence one byte at a time, collecting completed frames. */
  function Feed(buf: Buffer, bs: seq<byte>): (r: (Buffer, seq<seq<byte>>))
    requires buf.Valid()
    ensures r.0.Valid()
    decreases |bs|
  {
    if bs == [] then (buf, [])
    else
      var step := DecodeNextByte(buf, bs[0]);
      var rest := Feed(step.0, bs[1..]);
      (rest.0, Emitted(step.1) + rest.1)
  }

  /** Chunking does not matter: feeding `a + b` is feeding `a`, then `b`. */
  lemma {:induction false} FeedAppend(buf: Buffer, a: seq<byte>, b: seq<byte>)
    requires buf.Valid()
    ensures Feed(buf, a + b).0 == Feed(Feed(buf, a).0, b).0
    ensures Feed(buf, a + b).1 == Feed(buf, a).1 + Feed(Feed(buf, a).0, b).1
    decreases |a|
  {
    if a == [] {
      assert a + b == b;
    } else {
      assert (a + b)[0] == a[0];
      assert (a + b)[1..] == a[1..] + b;
      var step := DecodeNextByte(buf, a[0]);
      FeedAppend(step.0, a[1..], b);
      var mid := Feed(step.0, a[1..]);
      assert Feed(buf, a) == (mid.0, Emitted(step.1) + mid.1);
      assert Feed(buf, a + b) == (Feed(step.0, a[1..] + b).0, Emitted(step.1) + Feed(step.0, a[1..] + b).1);
      Text.AppendAssoc(Emitted(step.1), mid.1, Feed(mid.0, b).1);
    }
  }

  /** NUL-free bytes are buffered and complete no frame. */
  lemma {:induction false} FeedNulFree(buf: Buffer, m: seq<byte>)
    requires buf.Valid() && NulFree(m)
    ensures Feed(buf, m).1 == []
    ensures Feed(buf, m).0.Contents() == buf.Contents() + m
    decreases |m|
  {
    if m != [] {
      var buf1 := DecodeNextByte(buf, m[0]).0;
      FeedNulFree(buf1, m[1..]);
      assert buf1.Contents() == buf.Contents() + [m[0]];
      Text.HeadTail(m);
      Text.AppendAssoc(buf.Contents(), [m[0]], m[1..]);
    }
  }

  /** Decoding an encoded frame: nothing until the terminator, then the
      buffered prefix followed by the frame, and an empty buffer. */
  lemma FeedEncoded(buf: Buffer, m: seq<byte>)
    requires buf.Valid() && NulFree(m)
    ensures Feed(buf, Encode(m)[..|m|]).1 == []
    ensures Feed(buf, Encode(m)).1 == [buf.Contents() + m]
    ensures Feed(buf, Encode(m)).0.Contents() == []
  {
    assert Encode(m)[..|m|] == m;
    FeedNulFree(buf, m);
    FeedAppend(buf, m, [Nul]);
    FeedTerminator(Feed(buf, m).0);
  }

  /** A lone terminator completes the buffered frame. */
  lemma FeedTerminator(buf: Buffer)
    requires buf.Valid()
    ensures Feed(buf, [Nul]).1 == [buf.Contents()]
    ensures Feed(buf, [Nul]).0.Contents() == []
  {
    var step := DecodeNextByte(buf, Nul);
    assert [Nul][1..] == [];
    assert Feed(step.0, []) == (step.0, []);
  }

  /** The round trip: a fresh decoder gives back exactly the encoded frame. */
  lemma RoundTrip(m: seq<byte>)
    requires NulFree(m)
    ensures Feed(Fresh(), Encode(m)[..|m|]).1 == []
    ensures Feed(Fresh(), Encode(m)).1 == [m]
    ensures Feed(Fresh(), Encode(m)).0.Contents() == []
  {
    FeedEncoded(Fresh(), m);
    assert Fresh().Contents() + m == m;
  }

  /** The wire image of several frames, one after the other. */
  function EncodeAll(ms: seq<seq<byte>>): seq<byte> {
    if ms == [] then [] else Encode(ms[0]) + EncodeAll(ms[1..])
  }

  predicate AllNulFree(ms: seq<seq<byte>>) {
    forall k :: 0 <= k < |ms| ==> NulFree(ms[k])
  }

  /** Several encoded frames decode to the same frames, in order, and leave
      the decoder empty. */
  lemma {:induction false} MultiFrame(buf: Buffer, ms: seq<seq<byte>>)
    requires buf.Valid() && buf.Contents() == [] && AllNulFree(ms)
    ensures Feed(buf, EncodeAll(ms)).1 == ms
    ensures Feed(buf, EncodeAll(ms)).0.Contents() == []
    decreases |ms|
  {
    if ms != [] {
      FeedAppend(buf, Encode(ms[0]), EncodeAll(ms[1..]));
      FeedEncoded(buf, ms[0]);
      assert buf.Contents() + ms[0] == ms[0];
      MultiFrame(Feed(buf, Encode(ms[0])).0, ms[1..]);
      Text.HeadTail(ms);
    }
  }

  /** A payload that already ends in NUL, encoded once more, reaches the
      decoder as the payload and then an empty frame. */
  lemma DoubleTerminator(m: seq<byte>)
    requires NulFree(m)
    ensures Feed(Fresh(), Encode(m + [Nul])).1 == [m, []]
    ensures Feed(Fresh(), Encode(m + [Nul])).0.Contents() == []
  {
    assert EncodeAll([m, []]) == Encode(m) + EncodeAll([[]]);
    assert EncodeAll([[]]) == Encode([]) + EncodeAll([]);
    assert Encode(m + [Nul]) == EncodeAll([m, []]);
    MultiFrame(Fresh(), [m, []]);
  }
}
