/** tailWriter: a writer that keeps the last max bytes of everything written to it.

    Tail is the writer's state as a value and Wrote one Write on it, case by case; the class
    below does the same in place on a backing array.  The lemmas say what any sequence of
    writes leaves behind, however the stream was cut into chunks. */
module TailWriter {

  newtype byte = x: int | 0 <= x < 256

  datatype Tail = Tail(max: nat, buf: seq<byte>, truncated: bool, total: nat)

  function Empty(max: nat): Tail { Tail(max, [], false, 0) }

  /** One Write of p. */
  function Wrote(w: Tail, p: seq<byte>): Tail
    requires |w.buf| <= w.max
  {
    var w' := w.(total := w.total + |p|);
    if p == [] then w'
    else if |p| >= w.max then w'.(buf := p[|p| - w.max..], truncated := true)
    else if |w.buf| + |p| > w.max then
      var keep := w.max - |p|;
      w'.(buf := w.buf[|w.buf| - keep..] + p, truncated := true)
    else w'.(buf := w.buf + p)
  }

  function WroteAll(max: nat, chunks: seq<seq<byte>>): (w: Tail)
    ensures w.max == max && |w.buf| <= max
  {
    if chunks == [] then Empty(max) else Wrote(WroteAll(max, chunks[..|chunks| - 1]), chunks[|chunks| - 1])
  }

  function Stream(chunks: seq<seq<byte>>): seq<byte> {
    if chunks == [] then [] else Stream(chunks[..|chunks| - 1]) + chunks[|chunks| - 1]
  }

  /** The last n bytes of s, or all of them. */
  function LastBytes(s: seq<byte>, n: nat): seq<byte> { if |s| <= n then s else s[|s| - n..] }

  /** Length of the first chunk that is not empty. */
  function FirstLength(chunks: seq<seq<byte>>): nat {
    if chunks == [] then 0 else if chunks[0] != [] then |chunks[0]| else FirstLength(chunks[1..])
  }

  lemma {:induction false} FirstLengthSnoc(chunks: seq<seq<byte>>, p: seq<byte>)
    ensures FirstLength(chunks + [p]) == if FirstLength(chunks) != 0 then FirstLength(chunks) else |p|
  {
    if chunks == [] {
      assert [p][1..] == [];
    } else {
      assert (chunks + [p])[1..] == chunks[1..] + [p];
      FirstLengthSnoc(chunks[1..], p);
    }
  }

  lemma {:induction false} NoBytesYet(chunks: seq<seq<byte>>)
    ensures Stream(chunks) == [] <==> FirstLength(chunks) == 0
  {
    if chunks != [] {
      var n := |chunks| - 1;
      NoBytesYet(chunks[..n]);
      FirstLengthSnoc(chunks[..n], chunks[n]);
      assert chunks == chunks[..n] + [chunks[n]];
    }
  }

  /** Dropping the old head and appending keeps exactly the tail of the longer stream. */
  lemma WroteKeepsTail(s: seq<byte>, p: seq<byte>, w: Tail)
    requires w.buf == LastBytes(s, w.max)
    ensures Wrote(w, p).buf == LastBytes(s + p, w.max)
  {
    if p == [] {
      assert s + p == s;
    } else if |p| >= w.max {
      assert (s + p)[|s + p| - w.max..] == p[|p| - w.max..];
    } else if |w.buf| + |p| > w.max {
      var keep := w.max - |p|;
      assert w.buf[|w.buf| - keep..] == s[|s| - keep..];
      assert (s + p)[|s + p| - w.max..] == s[|s| - keep..] + p;
    }
  }

  /** After any writes: the buffer is the last max bytes of the stream, the total is its length,
      and the flag is up if the stream overflowed, or if its first bytes came as one chunk of
      exactly max bytes. */
  lemma {:induction false} TailOfStream(max: nat, chunks: seq<seq<byte>>)
    ensures
      var w, s := WroteAll(max, chunks), Stream(chunks);
      && w.buf == LastBytes(s, max)
      && w.total == |s|
      && (w.truncated <==> |s| > max || (s != [] && FirstLength(chunks) == max))
  {
    if chunks != [] {
      var n := |chunks| - 1;
      var init, p := chunks[..n], chunks[n];
      TailOfStream(max, init);
      WroteKeepsTail(Stream(init), p, WroteAll(max, init));
      assert chunks == init + [p];
      FirstLengthSnoc(init, p);
      NoBytesYet(init);
    }
  }

  /** How the stream was cut into chunks shows neither in the bytes kept nor in the total. */
  lemma ChunkingIsInvisible(max: nat, chunks: seq<seq<byte>>, chunks': seq<seq<byte>>)
    requires Stream(chunks) == Stream(chunks')
    ensures WroteAll(max, chunks).buf == WroteAll(max, chunks').buf
    ensures WroteAll(max, chunks).total == WroteAll(max, chunks').total
  {
    TailOfStream(max, chunks);
    TailOfStream(max, chunks');
  }

  /** A lowered flag promises that nothing was lost. */
  lemma NotTruncatedIsComplete(max: nat, chunks: seq<seq<byte>>)
    requires !WroteAll(max, chunks).truncated
    ensures WroteAll(max, chunks).buf == Stream(chunks)
  {
    TailOfStream(max, chunks);
  }

  /** The documented meaning of the flag, "more than max bytes were written", fails exactly when
      the stream has max > 0 bytes and all of them came in one chunk. */
  lemma DocumentedFlag(max: nat, chunks: seq<seq<byte>>)
    ensures
      (WroteAll(max, chunks).truncated <==> |Stream(chunks)| > max)
      <==> !(max > 0 && |Stream(chunks)| == max == FirstLength(chunks))
  {
    TailOfStream(max, chunks);
  }

  /** The smallest such stream: one byte written to a one-byte tail. */
  lemma DocumentedFlagFails(b: byte)
    ensures WroteAll(1, [[b]]).truncated && |Stream([[b]])| == 1 && WroteAll(1, [[b]]).buf == [b]
  {
    assert [[b]][..0] == [];
    assert Stream([[b]]) == [b];
    assert [b][0..] == [b];
  }

  /** The writer itself: data is the slice's backing array and len the slice's length. */
  class Writer {
    const max: nat
    var data: array<byte>
    var len: nat
    var truncated: bool
    var total: nat

    ghost predicate Valid()
      reads this, data
    {
      len <= data.Length && len <= max
    }

    ghost function Model(): Tail
      reads this, data
      requires Valid()
    {
      Tail(max, data[..len], truncated, total)
    }

    constructor (max: nat)
      ensures Valid() && fresh(data) && Model() == Empty(max)
    {
      this.max := max;
      data := new byte[if max < 4096 then max else 4096];
      len, truncated, total := 0, false, 0;
    }

    /** Growing the slice: the bytes move to a larger array. */
    method Grow(capacity: nat)
      requires len <= data.Length < capacity
      modifies this`data
      ensures fresh(data) && data.Length == capacity
      ensures data[..len] == old(data[..len])
    {
      var bigger := new byte[capacity];
      for i := 0 to len
        modifies bigger
        invariant bigger[..i] == data[..i]
      {
        bigger[i] := data[i];
      }
      data := bigger;
    }

    /** append(buf, p...): in place while the capacity lasts, else in a larger array. */
    method Append(p: seq<byte>)
      requires len <= data.Length
      modifies this`data, this`len, data
      ensures data == old(data) || fresh(data)
      ensures len == old(len) + |p| <= data.Length
      ensures data[..len] == old(data[..len]) + p
    {
      if len + |p| > data.Length {
        Grow(2 * data.Length + len + |p|);
      }
      ghost var before := data[..len];
      for i := 0 to |p|
        modifies data
        invariant data[..len] == before
        invariant forall k :: 0 <= k < i ==> data[len + k] == p[k]
      {
        data[len + i] := p[i];
      }
      len := len + |p|;
      assert data[..len] == before + p;
    }

    /** copy(buf, buf[len-keep:]) then buf[:keep], within the same array. */
    method Shift(keep: nat)
      requires keep <= len <= data.Length
      modifies this`len, data
      ensures len == keep
      ensures data[..len] == old(data[len - keep..len])
    {
      var from := len - keep;
      for i := 0 to keep
        modifies data
        invariant data[..i] == old(data[from..from + i])
        invariant forall k :: i <= k < data.Length ==> data[k] == old(data[k])
      {
        data[i] := data[from + i];
      }
      len := keep;
    }

    method Write(p: seq<byte>) returns (n: nat)
      requires Valid()
      modifies this, data
      ensures Valid() && (data == old(data) || fresh(data))
      ensures Model() == Wrote(old(Model()), p)
      ensures n == |p|
    {
      total := total + |p|;
      n := |p|;
      if n == 0 {
        return;
      }
      if n >= max {
        len := 0;
        Append(p[n - max..]);
        truncated := true;
        assert data[..len] == p[n - max..];
        return;
      }
      if len + n > max {
        Shift(max - n);
        Append(p);
        truncated := true;
        return;
      }
      Append(p);
    }

    /** String */
    method Text() returns (s: seq<byte>)
      requires Valid()
      ensures s == Model().buf
    {
      s := data[..len];
    }
  }

  /** An SSH session writing a container's output, chunk by chunk, to a fresh writer. */
  method Drain(max: nat, chunks: seq<seq<byte>>) returns (text: seq<byte>, total: nat, truncated: bool)
    ensures text == LastBytes(Stream(chunks), max)
    ensures total == |Stream(chunks)|
    ensures truncated <==> total > max || (total > 0 && FirstLength(chunks) == max)
  {
    var w := new Writer(max);
    for i := 0 to |chunks|
      invariant w.Valid() && fresh(w) && fresh(w.data)
      invariant w.Model() == WroteAll(max, chunks[..i])
    {
      var n := w.Write(chunks[i]);
      assert chunks[..i + 1][..i] == chunks[..i];
    }
    assert chunks[..|chunks|] == chunks;
    TailOfStream(max, chunks);
    text := w.Text();
    total, truncated := w.total, w.truncated;
  }
}
