/** Counters that wrap at 2^32 and indices that wrap at the ring depth. */
module RingArithmetic {
  import opened Bytes

  const WORD := 0x1_0000_0000

  type u32 = x: int | 0 <= x < 0x1_0000_0000

  function Wrapped(count: nat): u32 { count % WORD }

  /** The depths the driver can use: powers of two below the counter range divide it. */
  ghost predicate DividesWord(depth: nat) {
    0 < depth < WORD && WORD % depth == 0
  }

  /** (u32)(a - b) */
  function WrappedDifference(a: u32, b: u32): u32 {
    (a - b) % WORD
  }

  /** The counters have 32 bits, and the depths of the two rings divide their range. */
  lemma CountersHave32Bits(count: nat)
    ensures Wrapped(count) < 0x1_0000_0000 && Wrapped(count + 0x1_0000_0000) == Wrapped(count)
    ensures count < 0x1_0000_0000 ==> Wrapped(count) == count
    ensures DividesWord(512) && DividesWord(1024)
  {
  }

  /** The wrapped difference of two wrapped counts is the true distance. */
  lemma WrappedDistance(produced: nat, consumed: nat)
    requires consumed <= produced && produced - consumed < WORD
    ensures WrappedDifference(Wrapped(produced), Wrapped(consumed)) == produced - consumed
    ensures Wrapped(produced) == Wrapped(consumed) <==> produced == consumed
  {
  }

  lemma WrappedNext(count: nat)
    ensures Wrapped(Wrapped(count) + 1) == Wrapped(count + 1)
  {
  }

  /** The slot the byte with running number `count` goes to. */
  function Slot(count: nat, depth: nat): (r: nat)
    ensures depth > 0 ==> r < depth
  {
    if depth == 0 then 0 else count % depth
  }

  /** Incrementing an index with an explicit wrap follows the slots. */
  lemma NextSlot(count: nat, depth: nat)
    requires depth > 0
    ensures Slot(count + 1, depth) == if Slot(count, depth) + 1 >= depth then 0 else Slot(count, depth) + 1
  {
    var q, r := count / depth, count % depth;
    assert count == q * depth + r;
    if r + 1 >= depth {
      assert count + 1 == (q + 1) * depth;
      ModOf(count + 1, q + 1, 0, depth);
    } else {
      ModOf(count + 1, q, r + 1, depth);
    }
  }

  lemma Multiples(p: nat, q: nat, depth: nat)
    requires p > q
    ensures p * depth >= q * depth + depth
  {
    var k: nat := p - q - 1;
    assert p * depth == q * depth + depth + k * depth;
  }

  lemma QuotientUnique(p: nat, t: nat, q: nat, r: nat, depth: nat)
    requires t < depth && r < depth && p * depth + t == q * depth + r
    ensures p == q && t == r
  {
    if p > q { Multiples(p, q, depth); }
    if q > p { Multiples(q, p, depth); }
  }

  lemma ModOf(x: nat, q: nat, r: nat, depth: nat)
    requires r < depth && x == q * depth + r
    ensures x % depth == r
  {
    var p: nat, t: nat := x / depth, x % depth;
    assert x == p * depth + t;
    QuotientUnique(p, t, q, r, depth);
  }

  /** Two positions less than one depth apart use different slots. */
  lemma DifferentSlots(i: nat, j: nat, depth: nat)
    requires i < j < i + depth
    ensures Slot(i, depth) != Slot(j, depth)
  {
    var p: nat, q: nat := i / depth, j / depth;
    assert i == p * depth + i % depth && j == q * depth + j % depth;
    if q > p { Multiples(q, p, depth); }
    if p > q { Multiples(p, q, depth); }
  }

  /** The index can be read off the wrapped counter, because the depth divides 2^32. */
  lemma IndexOfWrapped(count: nat, depth: nat)
    requires DividesWord(depth)
    ensures Slot(Wrapped(count), depth) == Slot(count, depth)
  {
    var k := WORD / depth;
    assert WORD == k * depth;
    var a, b := count / WORD, count % WORD;
    var c, r := b / depth, b % depth;
    assert b == c * depth + r;
    assert count == a * WORD + b;
    assert a * (k * depth) == (a * k) * depth;
    assert count == (a * k + c) * depth + r by {
      assert (a * k + c) * depth == (a * k) * depth + c * depth;
    }
    ModOf(count, a * k + c, r, depth);
  }
}
