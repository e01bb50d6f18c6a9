/**
 The receive ring of the TLS task: a drop-tail queue that keeps one slot free and counts what it drops.
 */
module TlsRing {
  import opened Bytes
  import opened CyclicBuffer
  import opened RingArithmetic

  const WANT_READ := -2

  function Min(a: int, b: int): int { if a < b then a else b }

  /** The part of `data` a drop-tail queue with this much room takes. */
  function Taken(data: seq<byte>, room: nat): seq<byte> {
    data[..Min(|data|, room)]
  }

  lemma TakenNext(data: seq<byte>, room: nat, i: nat)
    requires i < |data|
    ensures Taken(data[..i + 1], room) == Taken(data[..i], room) + (if i < room then [data[i]] else [])
    ensures |Taken(data[..i], room)| == Min(i, room)
    ensures Taken(data[..0], room) == []
  {
  }

  lemma TakenLength(data: seq<byte>, room: nat)
    ensures |Taken(data, room)| == Min(|data|, room)
    ensures data == [] ==> Taken(data, room) == []
  {
  }

  lemma WrappedSum(x: nat)
    ensures Wrapped(Wrapped(x) + 1) == Wrapped(x + 1) && (x < WORD ==> Wrapped(x) == x)
  {
    WrappedNext(x);
  }

  class RingBuffer {
    var buffer: array<byte>
    var head: nat
    var tail: nat
    var overflowCount: u32

    ghost predicate Valid()
      reads this
    {
      head < buffer.Length && tail < buffer.Length
    }

    ghost function Contents(): seq<byte>
      requires Valid()
      reads this, buffer
    {
      Arc(buffer[..], tail, head)
    }

    /** How many more bytes fit: one slot stays free. */
    ghost function Room(): int
      requires Valid()
      reads this, buffer
    {
      buffer.Length - 1 - |Contents()|
    }

    /** The drop-tail queue the ring stands for, with its history left out. */
    ghost function AsQueue(): Queue
      requires Valid()
      reads this, buffer
    {
      Queue(Contents(), buffer.Length - 1, [], 0, [])
    }

    constructor (size: nat)
      requires size > 0
      ensures Valid() && fresh(buffer) && buffer.Length == size && Contents() == [] && overflowCount == 0
    {
      buffer := new byte[size];
      head, tail, overflowCount := 0, 0, 0;
    }

    /** One iteration of RB_Write: the byte goes in, or is counted as lost. */
    method WriteByte(b: byte)
      requires Valid()
      modifies this, buffer
      ensures Valid() && buffer == old(buffer)
      ensures Contents() == old(Contents()) + (if old(Room()) > 0 then [b] else [])
      ensures overflowCount == if old(Room()) > 0 then old(overflowCount) else Wrapped(old(overflowCount) + 1)
      ensures old(Room()) >= 0
      ensures Contents() == Step(old(AsQueue()), Put(b)).items
      ensures overflowCount == Wrapped(old(overflowCount) + Step(old(AsQueue()), Put(b)).lost)
    {
      NextIsModulo(head, buffer.Length);
      ArcPush(buffer[..], tail, head, b);
      var nextHead := (head + 1) % buffer.Length;
      if nextHead != tail {
        buffer[head] := b;
        assert buffer[..] == old(buffer[..])[head := b];
        head := nextHead;
      } else {
        overflowCount := Wrapped(overflowCount + 1);
      }
    }

    /** RB_Write: the longest prefix that fits is queued; the rest is dropped and counted. */
    method Write(data: seq<byte>)
      requires Valid()
      modifies this, buffer
      ensures Valid() && buffer == old(buffer) && old(Room()) >= 0
      ensures Contents() == old(Contents()) + Taken(data, old(Room()))
      ensures overflowCount == Wrapped(old(overflowCount) + |data| - |Taken(data, old(Room()))|)
    {
      hide Arc, Taken, Wrapped;
      ArcPush(buffer[..], tail, head, 0);
      ghost var c0, room, o0: nat := Contents(), Room(), overflowCount;
      ghost var lost: nat := 0;
      WrappedSum(o0);
      TakenLength(data[..0], room);
      for i := 0 to |data|
        invariant Valid() && buffer == old(buffer)
        invariant Contents() == c0 + Taken(data[..i], room)
        invariant lost == i - Min(i, room) && overflowCount == Wrapped(o0 + lost)
      {
        TakenNext(data, room, i);
        WrappedSum(o0 + lost);
        lost := if i < room then lost else lost + 1;
        WriteByte(data[i]);
      }
      assert data[..|data|] == data;
      TakenLength(data, room);
    }

    /** RB_Read: copy out at most `len` bytes, oldest first. */
    method Read(data: array<byte>, len: int) returns (count: nat)
      requires Valid() && len <= data.Length && data != buffer
      modifies this, data
      ensures Valid() && buffer == old(buffer) && overflowCount == old(overflowCount)
      ensures count == if len < 0 then 0 else Min(len, |old(Contents())|)
      ensures data[..count] == old(Contents())[..count]
      ensures data[count..] == old(data[..])[count..]
      ensures Contents() == old(Contents())[count..]
    {
      hide Arc;
      count := 0;
      ghost var c0, d0 := Contents(), data[..];
      EmptyIff();
      while count < len && tail != head
        invariant Valid() && buffer == old(buffer) && overflowCount == old(overflowCount)
        invariant 0 < count ==> count <= len
        invariant count <= |c0| && Contents() == c0[count..]
        invariant count <= data.Length
        invariant forall j :: 0 <= j < count ==> data[j] == c0[j]
        invariant forall j :: count <= j < data.Length ==> data[j] == d0[j]
        invariant tail == head <==> count == |c0|
        decreases len - count
      {
        var b := ReadByte();
        data[count] := b;
        count := count + 1;
        EmptyIff();
      }
    }

    /** One iteration of RB_Read. */
    method ReadByte() returns (b: byte)
      requires Valid() && tail != head
      modifies this`tail
      ensures Valid()
      ensures old(Contents()) == [b] + Contents()
      ensures Contents() == Step(old(AsQueue()), Take).items && [b] == Step(old(AsQueue()), Take).taken
    {
      ArcPop(buffer[..], tail, head);
      NextIsModulo(tail, buffer.Length);
      b := buffer[tail];
      tail := (tail + 1) % buffer.Length;
    }

    lemma EmptyIff()
      requires Valid()
      ensures tail == head <==> Contents() == []
    {
    }

    /** RB_IsEmpty */
    method IsEmpty() returns (empty: bool)
      requires Valid()
      ensures empty <==> Contents() == []
    {
      ArcPop(buffer[..], tail, head);
      empty := head == tail;
    }

    /** RB_Available */
    method Available() returns (count: nat)
      requires Valid()
      ensures count == |Contents()|
    {
      count := if head >= tail then head - tail else buffer.Length - (tail - head);
    }

    /** EmbedReceive: forget the overflow report, then read, or ask to be called again. */
    method EmbedReceive(data: array<byte>, sz: int) returns (result: int)
      requires Valid() && sz <= data.Length && data != buffer
      modifies this, data
      ensures Valid() && buffer == old(buffer) && overflowCount == 0
      ensures old(Contents()) == [] ==> result == -2 && Contents() == [] && data[..] == old(data[..])
      ensures old(Contents()) != [] ==>
                result == (if sz < 0 then 0 else Min(sz, |old(Contents())|))
      ensures old(Contents()) != [] ==>
                data[..result] == old(Contents())[..result] && Contents() == old(Contents())[result..]
    {
      if overflowCount > 0 {
        overflowCount := 0;
      }
      var empty := IsEmpty();
      if empty {
        return WANT_READ;
      }
      result := Read(data, sz);
    }

    /** The reset at the start and the end of a session. */
    method Reset()
      requires Valid()
      modifies this
      ensures Valid() && buffer == old(buffer) && Contents() == [] && overflowCount == 0
    {
      head, tail, overflowCount := 0, 0, 0;
    }
  }

  // ----- producer and consumer steps in any order

  /** A drop-tail queue with its history. */
  datatype Queue = Queue(items: seq<byte>, capacity: nat, accepted: seq<byte>, lost: nat, taken: seq<byte>)

  /** Put: one iteration of RB_Write. Take: one iteration of RB_Read. */
  datatype Event = Put(b: byte) | Take

  function Step(q: Queue, e: Event): Queue {
    match e
    case Put(b) =>
      if |q.items| < q.capacity then q.(items := q.items + [b], accepted := q.accepted + [b]) else q.(lost := q.lost + 1)
    case Take =>
      if q.items == [] then q else q.(items := q.items[1..], taken := q.taken + [q.items[0]])
  }

  function Run(q: Queue, events: seq<Event>): Queue
    decreases |events|
  {
    if events == [] then q else Run(Step(q, events[0]), events[1..])
  }

  function Offered(events: seq<Event>): seq<byte> {
    if events == [] then [] else (if events[0].Put? then [events[0].b] else []) + Offered(events[1..])
  }

  /** Nothing is invented, reordered or counted twice: what was read, followed by what is queued, is what was
      accepted; and every byte offered was accepted or counted as lost. */
  lemma {:induction false} QueueConserves(q: Queue, events: seq<Event>)
    requires q.accepted == q.taken + q.items && |q.items| <= q.capacity
    ensures var r := Run(q, events);
      && r.accepted == r.taken + r.items && |r.items| <= r.capacity
      && |r.accepted| + r.lost == |q.accepted| + q.lost + |Offered(events)|
      && q.accepted <= r.accepted && q.taken <= r.taken
    decreases |events|
  {
    if events != [] {
      QueueConserves(Step(q, events[0]), events[1..]);
    }
  }

  /** A burst with no reads between its bytes loses exactly its tail. */
  lemma {:induction false} BurstKeepsPrefix(q: Queue, data: seq<byte>)
    requires |q.items| <= q.capacity
    ensures var r := Run(q, Puts(data));
      && r.items == q.items + Taken(data, q.capacity - |q.items|)
      && r.accepted == q.accepted + Taken(data, q.capacity - |q.items|)
      && r.lost == q.lost + |data| - |Taken(data, q.capacity - |q.items|)|
    decreases |data|
  {
    if data != [] {
      var next := Step(q, Put(data[0]));
      assert Puts(data)[1..] == Puts(data[1..]);
      BurstKeepsPrefix(next, data[1..]);
      var room := q.capacity - |q.items|;
      if room > 0 {
        assert Taken(data, room) == [data[0]] + Taken(data[1..], room - 1);
      }
    }
  }

  function Puts(data: seq<byte>): seq<Event> {
    seq(|data|, i requires 0 <= i < |data| => Put(data[i]))
  }
}
