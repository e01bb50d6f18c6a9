/** Endpoint descriptors of the USB device controller: reservation by address, release, and lookup by callbacks. */
module UsbSlots {
  import opened Bytes
  import opened UsbStatus

  const DIRECTION := 0x80

  /** The descriptor of one direction and number: the driver keeps one table for OUT and one for IN. */
  datatype SlotRef = SlotRef(inward: bool, number: nat)

  datatype Option<T> = None | Some(value: T)

  /** A descriptor; `endpoint` identifies the endpoint object of the device stack it points back to. */
  datatype Slot = Slot(status: Word, endpoint: nat, index: nat, inward: bool)

  /** _stm32_ed_get with bidirectional endpoints */
  function SlotOf(address: byte, maxEd: nat, devEndpoints: nat): Option<SlotRef> {
    var number := address % DIRECTION;
    if number >= maxEd || number >= devEndpoints then None
    else Some(SlotRef(address >= DIRECTION, number))
  }

  lemma SlotInTable(address: byte, maxEd: nat, devEndpoints: nat)
    ensures var r := SlotOf(address, maxEd, devEndpoints);
            r.Some? ==> r.value == SlotRef(address >= DIRECTION, address % DIRECTION) && r.value.number < maxEd
  {
  }

  /** An address is a direction bit and a number: it has a descriptor exactly when the number is below both the length of
      the tables and the endpoints of the device, and that is the one of its direction and number. */
  lemma SlotExistsIff(number: nat, inward: bool, address: byte, maxEd: nat, devEndpoints: nat)
    requires number < 128 && address == number + if inward then 128 else 0
    ensures SlotOf(address, maxEd, devEndpoints)
         == if number < maxEd && number < devEndpoints then Some(SlotRef(inward, number)) else None
  {
    assert address % 128 == number;
  }

  /** Different addresses never share a descriptor. */
  lemma SlotsAreDistinct(a: byte, b: byte, maxEd: nat, devEndpoints: nat)
    requires SlotOf(a, maxEd, devEndpoints).Some?
    ensures SlotOf(a, maxEd, devEndpoints) == SlotOf(b, maxEd, devEndpoints) <==> a == b
  {
  }

  /** The descriptor a completion callback uses: endpoint 0 has one for both directions. */
  function CallbackSlot(epnum: nat, inward: bool): SlotRef {
    var n := epnum % 16;
    if inward && n != 0 then SlotRef(true, n) else SlotRef(false, n)
  }

  /** A callback for an endpoint, whose number is in the low four bits of what the HAL passes, reaches the descriptor
      reserved for its address, except for the IN side of endpoint 0, which has to be created by its OUT address. */
  lemma CallbackReachesOwnSlot(address: byte, maxEd: nat, devEndpoints: nat, high: nat)
    requires maxEd <= 16 && SlotOf(address, maxEd, devEndpoints).Some?
    ensures address != DIRECTION <==>
            SlotOf(address, maxEd, devEndpoints)
              == Some(CallbackSlot(address % DIRECTION + 16 * high, address >= DIRECTION))
  {
    assert (address % DIRECTION + 16 * high) % 16 == address % DIRECTION;
  }

  /** Who reserved a descriptor, and for which address. */
  datatype Holder = Holder(id: nat, address: byte)

  class DeviceController {
    const devEndpoints: nat
    const ed: array<Slot>
    const edIn: array<Slot>
    /** the descriptor pointers in the endpoint objects */
    var edOf: map<nat, SlotRef>
    /** the descriptors reserved and not yet released */
    ghost var held: map<SlotRef, Holder>

    ghost function Where(address: byte): Option<SlotRef>
      reads this
    {
      SlotOf(address, ed.Length, devEndpoints)
    }

    ghost predicate IsSlot(r: SlotRef)
      reads this
    {
      r.number < ed.Length == edIn.Length
    }

    ghost function At(r: SlotRef): Slot
      requires IsSlot(r)
      reads this, ed, edIn
    {
      if r.inward then edIn[r.number] else ed[r.number]
    }

    /** A descriptor is in use exactly while it is held, by the endpoint it points back to and for its own address. */
    ghost predicate Valid()
      reads this, ed, edIn
    {
      && ed != edIn && ed.Length == edIn.Length
      && (forall id :: id in edOf ==> IsSlot(edOf[id]))
      && (forall r :: r in held ==> IsSlot(r))
      && (forall r :: IsSlot(r) ==> (Used in At(r).status <==> r in held))
      && (forall r :: r in held ==> At(r).endpoint == held[r].id && Where(held[r].address) == Some(r))
      && (forall r :: r in held ==> held[r].id in edOf)
    }

    /** The endpoint object that holds the descriptor still points at it. */
    ghost predicate Reachable(r: SlotRef)
      reads this
    {
      r in held && held[r].id in edOf && edOf[held[r].id] == r
    }

    constructor (maxEd: nat, devEndpoints: nat)
      ensures Valid() && held == map[] && edOf == map[] && ed.Length == maxEd && this.devEndpoints == devEndpoints
    {
      this.devEndpoints := devEndpoints;
      ed := new Slot[maxEd](_ => Slot(UNUSED, 0, 0, false));
      edIn := new Slot[maxEd](_ => Slot(UNUSED, 0, 0, false));
      edOf, held := map[], map[];
    }

    method Store(r: SlotRef, slot: Slot)
      requires ed != edIn && IsSlot(r)
      modifies ed, edIn
      ensures forall q :: IsSlot(q) ==> At(q) == if q == r then slot else old(At(q))
    {
      if r.inward {
        edIn[r.number] := slot;
      } else {
        ed[r.number] := slot;
      }
    }

    /** _ux_dcd_stm32_endpoint_create: it succeeds exactly when the address has a descriptor that nobody holds for it;
        then only that descriptor changes, and the endpoint points at it. An endpoint that held another one no longer
        points at that one, which stays in use: exactly so does a descriptor become unreachable. */
    method Create(id: nat, address: byte) returns (ok: bool)
      requires Valid()
      modifies this`edOf, this`held, ed, edIn
      ensures Valid()
      ensures ok <==> address % 128 < ed.Length && address % 128 < devEndpoints
                      && forall r :: r in old(held) ==> old(held)[r].address != address
      ensures held == if ok then old(held)[Where(address).value := Holder(id, address)] else old(held)
      ensures edOf == if ok then old(edOf)[id := Where(address).value] else old(edOf)
      ensures forall q :: IsSlot(q) && !(ok && Where(address) == Some(q)) ==> At(q) == old(At(q))
      ensures ok ==> At(edOf[id]).status == old(At(Where(address).value)).status + USED
      ensures ok ==> At(edOf[id]).endpoint == id && At(edOf[id]).index == address % DIRECTION
      ensures ok ==> (At(edOf[id]).inward <==> address >= DIRECTION)
      ensures forall r :: old(Reachable(r)) && !Reachable(r) <==> ok && old(Reachable(r)) && old(held)[r].id == id
    {
      hide SlotOf;
      var where := SlotOf(address, ed.Length, devEndpoints);
      SlotInTable(address, ed.Length, devEndpoints);
      SlotExistsIff(address % 128, address >= 128, address, ed.Length, devEndpoints);
      if where.None? {
        return false;
      }
      var r := where.value;
      var slot := if r.inward then edIn[r.number] else ed[r.number];
      HeldForAddress(address, r);
      if slot.status * USED != {} {
        return false;
      }
      assert Used !in slot.status by {
        assert Used in slot.status ==> Used in slot.status * USED;
      }
      Reserve(id, address, r, slot);
      ok := true;
    }

    /** A descriptor is held for its address, so it is in use exactly when the address is taken. */
    lemma HeldForAddress(address: byte, r: SlotRef)
      requires Valid() && Where(address) == Some(r) && IsSlot(r)
      ensures Used in At(r).status <==> exists q :: q in held && held[q].address == address
    {
      hide SlotOf;
      if r in held {
        SlotsAreDistinct(held[r].address, address, ed.Length, devEndpoints);
      }
    }

    /** A free descriptor is taken. */
    method Reserve(id: nat, address: byte, r: SlotRef, slot: Slot)
      requires Valid() && IsSlot(r) && Where(address) == Some(r) && slot == At(r) && Used !in slot.status
      requires r == SlotRef(address >= DIRECTION, address % DIRECTION)
      modifies this`edOf, this`held, ed, edIn
      ensures Valid() && held == old(held)[r := Holder(id, address)] && edOf == old(edOf)[id := r]
      ensures forall q :: IsSlot(q) ==>
                At(q) == if q == r then Slot(slot.status + USED, id, r.number, r.inward) else old(At(q))
    {
      hide SlotOf;
      Store(r, Slot(slot.status + USED, id, address % DIRECTION, address >= DIRECTION));
      edOf := edOf[id := r];
      held := held[r := Holder(id, address)];
      assert forall q :: q in held ==> IsSlot(q) && held[q].id in edOf;
      forall q | IsSlot(q) ensures Used in At(q).status <==> q in held {
        if q != r { assert At(q) == old(At(q)); }
      }
      forall q | q in held ensures At(q).endpoint == held[q].id && Where(held[q].address) == Some(q) {
        if q != r { assert At(q) == old(At(q)); }
      }
    }

    /** _ux_dcd_stm32_endpoint_destroy follows the pointer of an endpoint that was created once, without asking who
        holds the descriptor: it is freed, and nothing else changes. */
    method Destroy(id: nat)
      requires Valid() && id in edOf
      modifies this`held, ed, edIn
      ensures Valid() && held == old(held) - {edOf[id]}
      ensures forall q :: IsSlot(q) ==>
                At(q) == if q == edOf[id] then old(At(q)).(status := UNUSED) else old(At(q))
    {
      hide SlotOf;
      var r := edOf[id];
      var slot := if r.inward then edIn[r.number] else ed[r.number];
      Store(r, slot.(status := UNUSED));
      held := held - {r};
      forall q | IsSlot(q) ensures Used in At(q).status <==> q in held {
        if q != r { assert At(q) == old(At(q)); }
      }
      forall q | q in held ensures At(q).endpoint == held[q].id && Where(held[q].address) == Some(q) {
        assert q != r && At(q) == old(At(q));
      }
    }

    /** The endpoint points at a descriptor that it holds. */
    ghost predicate Live(id: nat)
      reads this
    {
      id in edOf && edOf[id] in held && held[edOf[id]].id == id
    }

    /** Destroying an endpoint takes the descriptor from another live one exactly when its own pointer is stale and the
        descriptor is in use by an endpoint that points at it. */
    lemma StaleDestroyHitsAnotherIff(id: nat)
      requires Valid() && id in edOf
      ensures var slot := At(edOf[id]);
              (exists other :: other != id && Live(other) && edOf[other] == edOf[id])
              <==> Used in slot.status && slot.endpoint != id && edOf[slot.endpoint] == edOf[id]
    {
      hide SlotOf;
      var slot := At(edOf[id]);
      if Used in slot.status && slot.endpoint != id && edOf[slot.endpoint] == edOf[id] {
        assert Live(slot.endpoint);
      }
    }

    /** Two endpoints never share a reachable descriptor. */
    lemma Exclusive(r: SlotRef, q: SlotRef)
      requires Valid() && Reachable(r) && Reachable(q)
      ensures held[r].id == held[q].id <==> r == q
    {
    }
  }

  /** Create one endpoint, destroy it, create another at its address, destroy the first again: the second is gone. */
  method DestroyTwice(d: DeviceController, first: nat, second: nat, address: byte)
    requires d.Valid() && first != second && d.Where(address).Some?
    requires forall r :: r in d.held ==> d.held[r].address != address
    modifies d, d.ed, d.edIn
    ensures d.Valid() && second in d.edOf && !d.Live(second)
  {
    var ok := d.Create(first, address);
    d.Destroy(first);
    ok := d.Create(second, address);
    assert d.Live(second) && d.edOf[first] == d.edOf[second];
    d.Destroy(first);
  }
}
