/**
 The USB receive stream of the terminal: positions are advanced before use, and a packet becomes visible
 only when all of it has been stored.
 */
module UsbStream {
  import opened Bytes
  import opened CyclicBuffer

  lemma NextInjective(p: nat, q: nat, size: nat)
    requires p < size && q < size
    ensures Next(p, size) < size
    ensures Next(p, size) == Next(q, size) <==> p == q
  {
  }

  class Stream {
    var buffer: array<byte>
    var wrPtr: nat
    var rdPtr: nat

    ghost predicate Valid()
      reads this
    {
      wrPtr < buffer.Length && rdPtr < buffer.Length
    }

    /** The committed bytes not yet read. */
    ghost function Unread(): seq<byte>
      requires Valid()
      reads this, buffer
    {
      Arc(buffer[..], Next(rdPtr, buffer.Length), Next(wrPtr, buffer.Length))
    }

    constructor (size: nat)
      requires size > 0
      ensures Valid() && fresh(buffer) && buffer.Length == size && Unread() == []
    {
      buffer := new byte[size];
      wrPtr, rdPtr := 0, 0;
    }

    /** _usb_rx_handler in terminal mode: the packet is queued whole or not at all, and unread bytes stay.
        So does the byte at the read position, which getchar loads after it has moved that position. */
    method RxHandler(data: seq<byte>)
      requires Valid()
      modifies this`wrPtr, buffer
      ensures Valid() && buffer == old(buffer)
      ensures Unread() == if |old(Unread())| + |data| < buffer.Length then old(Unread()) + data else old(Unread())
      ensures buffer[rdPtr] == old(buffer[rdPtr])
    {
      hide Arc, Next;
      var size := buffer.Length;
      var wr: nat := wrPtr;
      ghost var q0, from := Unread(), Next(rdPtr, size);
      NextInjective(rdPtr, wrPtr, size);
      NextInjective(wrPtr, rdPtr, size);
      ArcPush(buffer[..], from, Next(wrPtr, size), 0);
      for i := 0 to |data|
        invariant Valid() && wr < size && wrPtr == old(wrPtr)
        invariant Next(wr, size) < size && Next(wrPtr, size) < size
        invariant Arc(buffer[..], from, Next(wr, size)) == q0 + data[..i]
        invariant Unread() == q0
        invariant |q0| + i < size
        invariant buffer[rdPtr] == old(buffer[rdPtr])
      {
        ghost var to := Next(wr, size);
        ghost var b0 := buffer[..];
        ArcPush(b0, from, to, data[i]);
        NextInjective(rdPtr, to, size);
        wr := NextPosition(wr, size);
        if wr == rdPtr {
          return;  // overflow: nothing of this packet is committed
        }
        buffer[wr] := data[i];
        assert buffer[..] == b0[to := data[i]];
        NextInjective(wr, rdPtr, size);
        ArcPush(buffer[..], from, Next(wr, size), 0);
        SameLength(b0, buffer[..], from, Next(wrPtr, size));
        ArcPrefix(buffer[..], from, Next(wrPtr, size), Next(wr, size), |q0|);
        assert (q0 + data[..i] + [data[i]])[..|q0|] == q0;
        assert q0 + data[..i] + [data[i]] == q0 + data[..i + 1];
      }
      assert data[..|data|] == data;
      wrPtr := wr;
    }

    lemma SameLength(b: seq<byte>, c: seq<byte>, from: nat, to: nat)
      requires |b| == |c| && from < |b| && to < |b|
      ensures |Arc(b, from, to)| == |Arc(c, from, to)|
    {
    }

    /** _usb_getchar: the oldest unread byte, or -1. */
    method GetChar() returns (ch: int)
      requires Valid()
      modifies this`rdPtr
      ensures Valid()
      ensures -1 <= ch < 256
      ensures old(Unread()) == [] ==> ch == -1 && Unread() == []
      ensures old(Unread()) != [] ==> ch >= 0 && old(Unread()) == [ch] + Unread()
    {
      hide Arc;
      var size := buffer.Length;
      NextInjective(rdPtr, wrPtr, size);
      ArcPop(buffer[..], Next(rdPtr, size), Next(wrPtr, size));
      if rdPtr == wrPtr {
        return -1;
      }
      rdPtr := NextPosition(rdPtr, size);
      NextInjective(rdPtr, wrPtr, size);
      ch := buffer[rdPtr];
    }

    /** tty_flush_usb_rx */
    method Flush()
      requires Valid()
      modifies this
      ensures Valid() && buffer == old(buffer) && Unread() == []
    {
      wrPtr, rdPtr := 0, 0;
    }
  }

  /** if (++p >= size) p = 0 */
  method NextPosition(p: nat, size: nat) returns (q: nat)
    requires p < size
    ensures q == Next(p, size) < size
  {
    q := p + 1;
    if q >= size {
      q := 0;
    }
  }
}
