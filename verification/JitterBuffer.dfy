/** The client's jitter buffer: a ring of samples that behaves as a bounded queue. */
module JitterBuffer {
  import opened Bytes

  // ----- the queue it stands for -----

  function Min(a: nat, b: nat): nat { if a < b then a else b }

  /** Writing appends the longest prefix that fits. */
  function Enqueue(queue: seq<i16>, data: seq<i16>, capacity: nat): seq<i16>
    requires |queue| <= capacity
  {
    queue + data[..Min(|data|, capacity - |queue|)]
  }

  function Silence(n: nat): seq<i16> {
    seq(n, _ => 0)
  }

  /** Reading takes the front of the queue and fills up with silence. */
  function Served(queue: seq<i16>, count: nat): (out: seq<i16>)
    ensures |out| == count
  {
    queue[..Min(count, |queue|)] + Silence(count - Min(count, |queue|))
  }

  function Dequeue(queue: seq<i16>, count: nat): seq<i16> {
    queue[Min(count, |queue|)..]
  }

  /** What is written is kept in order up to the first sample that finds the queue full, and nothing behind it. */
  lemma EnqueueMeans(queue: seq<i16>, data: seq<i16>, capacity: nat)
    requires |queue| <= capacity
    ensures var q := Enqueue(queue, data, capacity);
      && queue <= q <= queue + data && |q| <= capacity && (q == queue + data || |q| == capacity)
  {
    var n := Min(|data|, capacity - |queue|);
    assert queue + data == queue + data[..n] + data[n..];
  }

  /** What is read is the front of the queue, then silence, and the rest stays. */
  lemma ServeMeans(queue: seq<i16>, count: nat)
    ensures var out, rest := Served(queue, count), Dequeue(queue, count);
      && |out| == count && (forall i :: 0 <= i < count ==> out[i] == if i < |queue| then queue[i] else 0)
      && (if count <= |queue| then queue == out + rest else rest == [])
  {
    if count <= |queue| {
      assert queue == queue[..count] + queue[count..] && Served(queue, count) == queue[..count];
    }
  }

  datatype Op = Write(data: seq<i16>) | Read(count: nat)

  /** A run of writes and reads: what is left, what was taken in, and what was handed out, without silence. */
  datatype Tally = Tally(queue: seq<i16>, accepted: seq<i16>, played: seq<i16>)

  function Run(ops: seq<Op>, capacity: nat): (t: Tally)
    ensures |t.queue| <= capacity
  {
    if ops == [] then Tally([], [], [])
    else
      var t := Run(ops[..|ops| - 1], capacity);
      match ops[|ops| - 1]
      case Write(data) =>
        var taken := data[..Min(|data|, capacity - |t.queue|)];
        Tally(Enqueue(t.queue, data, capacity), t.accepted + taken, t.played)
      case Read(count) =>
        Tally(Dequeue(t.queue, count), t.accepted, t.played + t.queue[..Min(count, |t.queue|)])
  }

  /** Nothing is lost, repeated or reordered between acceptance and playing. */
  lemma {:induction false} PlayedIsPrefixOfAccepted(ops: seq<Op>, capacity: nat)
    ensures var t := Run(ops, capacity); t.accepted == t.played + t.queue && t.played <= t.accepted
  {
    if ops != [] {
      var t := Run(ops[..|ops| - 1], capacity);
      PlayedIsPrefixOfAccepted(ops[..|ops| - 1], capacity);
      match ops[|ops| - 1]
      case Write(data) => Associative(t.played, t.queue, data[..Min(|data|, capacity - |t.queue|)]);
      case Read(count) =>
        var m := Min(count, |t.queue|);
        assert t.queue == t.queue[..m] + t.queue[m..];
        Associative(t.played, t.queue[..m], t.queue[m..]);
    }
  }

  lemma Associative(a: seq<i16>, b: seq<i16>, c: seq<i16>)
    ensures a + (b + c) == a + b + c
  {
  }

  // ----- the ring -----

  /** Index of a position at most one lap ahead. */
  function Wrap(pos: nat, size: nat): (i: nat)
    requires pos < 2 * size
    ensures i < size
  {
    if pos < size then pos else pos - size
  }

  /** n samples of the ring from start on. */
  function Lap(ring: seq<i16>, start: nat, n: nat): (q: seq<i16>)
    requires n <= |ring| && (start < |ring| || n == 0)
    ensures |q| == n && forall k :: 0 <= k < n ==> q[k] == ring[Wrap(start + k, |ring|)]
  {
    seq(n, k requires 0 <= k < n => ring[Wrap(start + k, |ring|)])
  }

  lemma LapPut(ring: seq<i16>, start: nat, n: nat, x: i16)
    requires n < |ring| && start < |ring|
    ensures Lap(ring[Wrap(start + n, |ring|) := x], start, n + 1) == Lap(ring, start, n) + [x]
  {
    var after := Lap(ring[Wrap(start + n, |ring|) := x], start, n + 1);
    forall k | 0 <= k < n ensures after[k] == Lap(ring, start, n)[k] {
      assert Wrap(start + k, |ring|) != Wrap(start + n, |ring|);
    }
  }

  lemma LapTake(ring: seq<i16>, start: nat, n: nat)
    requires 0 < n <= |ring| && start < |ring|
    ensures Lap(ring, start, n)[0] == ring[start]
    ensures Lap(ring, Wrap(start + 1, |ring|), n - 1) == Lap(ring, start, n)[1..]
  {
    var rest := Lap(ring, Wrap(start + 1, |ring|), n - 1);
    forall k | 0 <= k < n - 1 ensures rest[k] == Lap(ring, start, n)[1 + k] {
      assert Wrap(Wrap(start + 1, |ring|) + k, |ring|) == Wrap(start + 1 + k, |ring|);
    }
  }

  lemma NextPosition(pos: nat, size: nat)
    requires pos < size
    ensures (pos + 1) % size == Wrap(pos + 1, size)
  {
    if pos + 1 < size {
      assert (pos + 1) % size == pos + 1;
    } else {
      assert (pos + 1) % size == 0;
    }
  }

  class Buffer {
    const sampleRate: nat
    const capacity: nat
    const buffer: array<i16>
    var writePos: nat
    var readPos: nat
    var available: nat

    ghost predicate Valid()
      reads this
    {
      && buffer.Length == capacity && available <= capacity
      && (if capacity == 0 then readPos == 0 && writePos == 0
          else readPos < capacity && writePos == Wrap(readPos + available, capacity))
    }

    ghost function Contents(): (q: seq<i16>)
      requires Valid()
      reads this, buffer
      ensures |q| == available
    {
      Lap(buffer[..], readPos, available)
    }

    /** The capacity is computed in 32-bit unsigned arithmetic. */
    constructor (capacityMs: nat, sampleRate: nat)
      ensures Valid() && Contents() == [] && capacity == capacityMs * sampleRate % 0x1_0000_0000 / 1000
      ensures fresh(buffer)
    {
      this.sampleRate := sampleRate;
      capacity := capacityMs * sampleRate % 0x1_0000_0000 / 1000;
      buffer := new i16[capacityMs * sampleRate % 0x1_0000_0000 / 1000](_ => 0);
      writePos, readPos, available := 0, 0, 0;
    }

    method Put(x: i16)
      requires Valid() && available < capacity
      modifies this`writePos, this`available, buffer
      ensures Valid() && Contents() == old(Contents()) + [x]
    {
      NextPosition(writePos, capacity);
      LapPut(buffer[..], readPos, available, x);
      ghost var ring := buffer[..];
      buffer[writePos] := x;
      assert buffer[..] == ring[writePos := x];
      writePos := (writePos + 1) % capacity;
      available := available + 1;
    }

    method Take() returns (x: i16)
      requires Valid() && available > 0
      modifies this`readPos, this`available
      ensures Valid() && x == old(Contents())[0] && Contents() == old(Contents())[1..]
    {
      NextPosition(readPos, capacity);
      LapTake(buffer[..], readPos, available);
      x := buffer[readPos];
      readPos := (readPos + 1) % capacity;
      available := available - 1;
    }

    method WriteSamples(data: seq<i16>)
      requires Valid()
      modifies this`writePos, this`available, buffer
      ensures Valid() && Contents() == Enqueue(old(Contents()), data, capacity)
    {
      var i := 0;
      ghost var before := Contents();
      assert before + data[..0] == before;
      while i < |data| && available < capacity
        invariant 0 <= i <= |data| && Valid()
        invariant Contents() == before + data[..i] && i <= capacity - |before|
      {
        Put(data[i]);
        assert before + data[..i] + [data[i]] == before + data[..i + 1];
        i := i + 1;
      }
    }

    method ReadSamples(out: array<i16>, count: nat) returns (n: nat)
      requires Valid() && count <= out.Length && out != buffer
      modifies this`readPos, this`available, out
      ensures Valid() && n == count
      ensures out[..count] == Served(old(Contents()), count) && out[count..] == old(out[count..])
      ensures Contents() == Dequeue(old(Contents()), count)
    {
      ghost var before := Contents();
      var i := 0;
      while i < count && available > 0
        invariant 0 <= i <= count && i <= |before| && Valid() && Contents() == before[i..]
        invariant out[..i] == before[..i] && out[count..] == old(out[count..])
      {
        var x := Take();
        assert x == before[i];
        out[i] := x;
        i := i + 1;
      }
      ghost var m := i;
      while i < count
        invariant m <= i <= count && Valid() && Contents() == before[m..]
        invariant out[..i] == before[..m] + Silence(i - m) && out[count..] == old(out[count..])
      {
        out[i] := 0;
        assert out[..i + 1] == out[..i] + [0];
        assert Silence(i + 1 - m) == Silence(i - m) + [0];
        i := i + 1;
      }
      n := i;
    }

    method Clear()
      requires Valid()
      modifies this, buffer
      ensures Valid() && Contents() == [] && forall k :: 0 <= k < buffer.Length ==> buffer[k] == 0
    {
      writePos, readPos, available := 0, 0, 0;
      forall k | 0 <= k < buffer.Length {
        buffer[k] := 0;
      }
    }
  }

  /** A run on the ring gives what the run on the queue says. */
  method Replay(b: Buffer, ops: seq<Op>) returns (played: seq<i16>)
    requires b.Valid() && b.Contents() == []
    modifies b, b.buffer
    ensures b.Valid() && b.Contents() == Run(ops, b.capacity).queue && played == Run(ops, b.capacity).played
  {
    played := [];
    for i := 0 to |ops|
      invariant b.Valid() && b.Contents() == Run(ops[..i], b.capacity).queue
          && played == Run(ops[..i], b.capacity).played
    {
      assert ops[..i + 1][..i] == ops[..i];
      match ops[i]
      case Write(data) => b.WriteSamples(data);
      case Read(count) =>
        var heard := Min(count, b.available);
        var out := new i16[count](_ => 0);
        var n := b.ReadSamples(out, count);
        assert out[..heard] == out[..count][..heard];
        played := played + out[..heard];
    }
    assert ops[..|ops|] == ops;
  }
}
