/**
 WOTS+ one-time signatures (FIPS 205, section 5): hash chains, message digits with their checksum,
 and the leaf generator that emits the signature while it computes the public key.
 */
module Wots {
  import opened Bytes
  import opened SphincsParams
  import opened BlockBuffer

  /** Which one-time key: the layer, the subtree in that layer, and the leaf in that subtree. */
  datatype Key = Key(layer: nat, tree: nat, leaf: nat)

  function WotsAddr(key: Key, typ: nat, chain: nat, index: nat): Address {
    Address(key.layer % 256, key.tree % 0x1_0000_0000_0000_0000, typ, key.leaf % 256, chain, index)
  }

  // ----- message digits

  /** The `count` low base-w digits of v, most significant first. */
  function DigitsOf(v: nat, w: nat, count: nat): (r: seq<nat>)
    requires w > 1
    ensures |r| == count
    ensures forall i :: 0 <= i < count ==> r[i] < w
    decreases count
  {
    if count == 0 then [] else
      var q: nat, d: nat := v / w, v % w;
      DigitsOf(q, w, count - 1) + [d]
  }

  function BaseW(msg: seq<byte>, w: nat, perByte: nat): (r: seq<nat>)
    requires w > 1
    ensures |r| == |msg| * perByte
    ensures forall i :: 0 <= i < |r| ==> r[i] < w
  {
    if msg == [] then [] else
      var r := DigitsOf(msg[0], w, perByte) + BaseW(msg[1..], w, perByte);
      assert |msg| * perByte == perByte + (|msg| - 1) * perByte;
      r
  }

  function Checksum(digits: seq<nat>, w: nat): (c: nat)
    requires forall i :: 0 <= i < |digits| ==> digits[i] < w
  {
    if digits == [] then 0 else w - 1 - digits[0] + Checksum(digits[1..], w)
  }

  /** How far each chain is walked to sign `msg`. */
  function ChainLengths(s: Scheme, msg: Block): (r: seq<nat>)
    requires s.w > 1 && |msg| == s.n
    ensures |r| == s.WotsLen()
    ensures forall i :: 0 <= i < |r| ==> r[i] < s.w
  {
    var digits := BaseW(msg, s.w, s.digitsPerByte);
    digits + DigitsOf(Checksum(digits, s.w), s.w, s.checksumDigits)
  }

  // ----- chains

  /** `steps` applications of the chain hash to x, which sits at position `start` of chain i. */
  function Chain(s: Scheme, pub: Block, key: Key, i: nat, x: Block, start: nat, steps: nat): Block
    decreases steps
  {
    if steps == 0 then x else
      Chain(s, pub, key, i, s.thash(pub, WotsAddr(key, WOTS, i % 256, start % 256), [x]), start + 1, steps - 1)
  }

  /** The secret start of chain i. */
  function ChainSecret(s: Scheme, ctx: Context, key: Key, i: nat): Block {
    s.prf(ctx.pubSeed, ctx.skSeed, WotsAddr(key, WOTSPRF, i % 256, 0))
  }

  function WotsPublic(s: Scheme, ctx: Context, key: Key): (r: seq<Block>)
    requires s.w > 0
    ensures |r| == s.WotsLen()
  {
    seq(s.WotsLen(), i requires 0 <= i => Chain(s, ctx.pubSeed, key, i, ChainSecret(s, ctx, key, i), 0, s.w - 1))
  }

  function CompressPublic(s: Scheme, pub: Block, key: Key, pk: seq<Block>): Block {
    s.thash(pub, WotsAddr(key, WOTSPK, 0, 0), pk)
  }

  /** The Merkle leaf of a one-time key. */
  function WotsLeaf(s: Scheme, ctx: Context, key: Key): Block
    requires s.w > 0
  {
    CompressPublic(s, ctx.pubSeed, key, WotsPublic(s, ctx, key))
  }

  function WotsSign(s: Scheme, ctx: Context, key: Key, steps: seq<nat>): (r: seq<Block>)
    ensures |r| == |steps|
  {
    seq(|steps|, i requires 0 <= i < |steps| =>
      Chain(s, ctx.pubSeed, key, i, ChainSecret(s, ctx, key, i), 0, steps[i]))
  }

  /** wots_pk_from_sig: complete every chain of a signature on `msg`. */
  function PublicFromSig(s: Scheme, pub: Block, key: Key, sig: seq<Block>, msg: Block): (r: seq<Block>)
    requires s.w > 1 && |msg| == s.n && |sig| == s.WotsLen()
    ensures |r| == s.WotsLen()
  {
    var steps := ChainLengths(s, msg);
    seq(s.WotsLen(), i requires 0 <= i < s.WotsLen() =>
      Chain(s, pub, key, i, sig[i], steps[i], s.w - 1 - steps[i]))
  }

  lemma {:induction false} ChainSplit(s: Scheme, pub: Block, key: Key, i: nat, x: Block, start: nat, a: nat, b: nat)
    ensures Chain(s, pub, key, i, Chain(s, pub, key, i, x, start, a), start + a, b)
         == Chain(s, pub, key, i, x, start, a + b)
    decreases a
  {
    if a > 0 {
      var y := s.thash(pub, WotsAddr(key, WOTS, i % 256, start % 256), [x]);
      ChainSplit(s, pub, key, i, y, start + 1, a - 1, b);
    }
  }

  lemma ChainLength(s: Scheme, pub: Block, key: Key, i: nat, x: Block, start: nat, steps: nat)
    requires s.Valid() && |x| == s.n
    ensures |Chain(s, pub, key, i, x, start, steps)| == s.n
    decreases steps
  {
    if steps > 0 {
      ChainLength(s, pub, key, i, s.thash(pub, WotsAddr(key, WOTS, i % 256, start % 256), [x]), start + 1, steps - 1);
    }
  }

  /** A signature verifies: completing its chains gives the public key, whatever was signed. */
  lemma WotsRoundTrip(s: Scheme, ctx: Context, key: Key, msg: Block)
    requires s.Valid() && |msg| == s.n
    ensures PublicFromSig(s, ctx.pubSeed, key, WotsSign(s, ctx, key, ChainLengths(s, msg)), msg)
         == WotsPublic(s, ctx, key)
  {
    var steps := ChainLengths(s, msg);
    forall i | 0 <= i < s.WotsLen()
      ensures PublicFromSig(s, ctx.pubSeed, key, WotsSign(s, ctx, key, steps), msg)[i] == WotsPublic(s, ctx, key)[i]
    {
      ChainSplit(s, ctx.pubSeed, key, i, ChainSecret(s, ctx, key, i), 0, steps[i], s.w - 1 - steps[i]);
    }
  }

  lemma PublicAt(s: Scheme, ctx: Context, key: Key, i: nat)
    requires s.w > 0 && i < s.WotsLen()
    ensures WotsPublic(s, ctx, key)[i] == Chain(s, ctx.pubSeed, key, i, ChainSecret(s, ctx, key, i), 0, s.w - 1)
  {
  }

  lemma SignAt(s: Scheme, ctx: Context, key: Key, steps: seq<nat>, i: nat)
    requires i < |steps|
    ensures WotsSign(s, ctx, key, steps)[i] == Chain(s, ctx.pubSeed, key, i, ChainSecret(s, ctx, key, i), 0, steps[i])
  {
  }

  lemma WotsSignLength(s: Scheme, ctx: Context, key: Key, steps: seq<nat>)
    requires s.Valid()
    ensures AllLength(WotsSign(s, ctx, key, steps), s.n)
  {
    forall i | 0 <= i < |steps| ensures |WotsSign(s, ctx, key, steps)[i]| == s.n {
      ChainLength(s, ctx.pubSeed, key, i, ChainSecret(s, ctx, key, i), 0, steps[i]);
    }
  }

  // ----- what the checksum is for

  function Value(digits: seq<nat>, w: nat): nat {
    if digits == [] then 0 else Value(digits[..|digits| - 1], w) * w + digits[|digits| - 1]
  }

  lemma QuotientBound(v: nat, w: nat, p: nat)
    requires w > 0 && v < w * p
    ensures v / w < p && v == v / w * w + v % w
  {
  }

  lemma {:induction false} ValueOfDigits(v: nat, w: nat, count: nat)
    requires w > 1 && v < Pow(w, count)
    ensures Value(DigitsOf(v, w, count), w) == v
    decreases count
  {
    if count > 0 {
      var r := DigitsOf(v, w, count);
      QuotientBound(v, w, Pow(w, count - 1));
      var q: nat, d: nat := v / w, v % w;
      assert r[..count - 1] == DigitsOf(q, w, count - 1);
      assert r[count - 1] == d;
      ValueOfDigits(q, w, count - 1);
    }
  }

  ghost predicate Dominates(a: seq<nat>, b: seq<nat>) {
    |a| == |b| && forall i :: 0 <= i < |a| ==> a[i] >= b[i]
  }

  lemma TimesMonotone(x: nat, y: nat, w: nat)
    requires x >= y
    ensures x * w >= y * w
  {
  }

  lemma {:induction false} ValueMonotone(a: seq<nat>, b: seq<nat>, w: nat)
    requires Dominates(a, b)
    ensures Value(a, w) >= Value(b, w)
  {
    if a != [] {
      var x, y := a[..|a| - 1], b[..|b| - 1];
      ValueMonotone(x, y, w);
      TimesMonotone(Value(x, w), Value(y, w), w);
    }
  }

  lemma {:induction false} ChecksumOrder(a: seq<nat>, b: seq<nat>, w: nat)
    requires Dominates(a, b)
    requires forall i :: 0 <= i < |a| ==> a[i] < w && b[i] < w
    ensures Checksum(a, w) <= Checksum(b, w)
    ensures Checksum(a, w) == Checksum(b, w) ==> a == b
  {
    if a != [] {
      ChecksumOrder(a[1..], b[1..], w);
      assert a == [a[0]] + a[1..] && b == [b[0]] + b[1..];
    }
  }

  lemma {:induction false} ChecksumBound(a: seq<nat>, w: nat)
    requires forall i :: 0 <= i < |a| ==> a[i] < w
    ensures Checksum(a, w) <= |a| * (w - 1)
  {
    if a != [] {
      ChecksumBound(a[1..], w);
      assert |a| * (w - 1) == (w - 1) + (|a| - 1) * (w - 1);
    }
  }

  lemma {:induction false} BaseWInjective(a: seq<byte>, b: seq<byte>, w: nat, perByte: nat)
    requires w > 1 && Pow(w, perByte) == 256 && |a| == |b|
    requires BaseW(a, w, perByte) == BaseW(b, w, perByte)
    ensures a == b
  {
    if a != [] {
      var x, y := BaseW(a, w, perByte), BaseW(b, w, perByte);
      assert x[..perByte] == DigitsOf(a[0], w, perByte) && y[..perByte] == DigitsOf(b[0], w, perByte);
      assert x[perByte..] == BaseW(a[1..], w, perByte) && y[perByte..] == BaseW(b[1..], w, perByte);
      ValueOfDigits(a[0], w, perByte);
      ValueOfDigits(b[0], w, perByte);
      BaseWInjective(a[1..], b[1..], w, perByte);
      assert a == [a[0]] + a[1..] && b == [b[0]] + b[1..];
    }
  }

  /** A digit string in two parts. */
  lemma {:induction false} ValueConcat(a: seq<nat>, b: seq<nat>, w: nat)
    ensures Value(a + b, w) == Value(a, w) * Pow(w, |b|) + Value(b, w)
    decreases |b|
  {
    if b == [] {
      assert a + b == a;
    } else {
      var rest, last := b[..|b| - 1], b[|b| - 1];
      assert (a + b)[..|a + b| - 1] == a + rest;
      ValueConcat(a, rest, w);
      OneMoreDigit(Value(a, w), Pow(w, |rest|), Value(rest, w), w);
    }
  }

  lemma OneMoreDigit(x: nat, p: nat, y: nat, w: nat)
    ensures (x * p + y) * w == x * (w * p) + y * w
  {
  }

  /** Splitting a message into digits keeps the number it stands for, most significant byte and digit first. */
  lemma {:induction false} BaseWValue(msg: seq<byte>, w: nat, perByte: nat)
    requires w > 1 && Pow(w, perByte) == 256
    ensures Value(BaseW(msg, w, perByte), w) == Value(msg, 256)
    ensures Pow(w, |msg| * perByte) == Pow(256, |msg|)
  {
    hide Pow, BaseW, DigitsOf;
    if msg == [] {
      NoDigits(w, perByte);
    } else {
      var head, rest := msg[0], msg[1..];
      BaseWValue(rest, w, perByte);
      BaseWHead(msg, w, perByte);
      ValueOfDigits(head, w, perByte);
      ValueConcat(DigitsOf(head, w, perByte), BaseW(rest, w, perByte), w);
      ValueConcat([head], rest, 256);
      assert [head] + rest == msg && [head][..0] == [] && Value([head], 256) == head;
      PowTimes(w, perByte, |rest|);
    }
  }

  lemma NoDigits(w: nat, perByte: nat)
    requires w > 1
    ensures BaseW([], w, perByte) == [] && Pow(w, 0 * perByte) == 1 == Pow(256, 0)
  {
  }

  lemma BaseWHead(msg: seq<byte>, w: nat, perByte: nat)
    requires w > 1 && msg != []
    ensures BaseW(msg, w, perByte) == DigitsOf(msg[0], w, perByte) + BaseW(msg[1..], w, perByte)
  {
  }

  /** One byte more is perByte digits more. */
  lemma PowTimes(w: nat, perByte: nat, k: nat)
    requires Pow(w, perByte) == 256 && Pow(w, k * perByte) == Pow(256, k)
    ensures Pow(w, (k + 1) * perByte) == Pow(256, k + 1)
  {
    hide Pow;
    assert (k + 1) * perByte == perByte + k * perByte;
    PowSum(w, perByte, k * perByte);
    PowHead(256, k);
  }

  lemma PowHead(b: nat, e: nat)
    ensures Pow(b, e + 1) == b * Pow(b, e)
  {
  }

  function Sum(digits: seq<nat>): nat {
    if digits == [] then 0 else digits[0] + Sum(digits[1..])
  }

  /** The checksum is what the digits lack to their maximum. */
  lemma {:induction false} ChecksumComplements(digits: seq<nat>, w: nat)
    requires forall i :: 0 <= i < |digits| ==> digits[i] < w
    ensures Checksum(digits, w) + Sum(digits) == |digits| * (w - 1)
  {
    if digits != [] {
      ChecksumComplements(digits[1..], w);
      assert |digits| * (w - 1) == (w - 1) + (|digits| - 1) * (w - 1);
    }
  }

  /** Digits with their checksum appended never dominate other digits with theirs. */
  lemma ChecksummedOrder(x: seq<nat>, y: seq<nat>, w: nat, c: nat)
    requires w > 1 && |x| == |y| && |x| * (w - 1) < Pow(w, c)
    requires forall i :: 0 <= i < |x| ==> x[i] < w && y[i] < w
    requires Dominates(x, y)
    requires Dominates(DigitsOf(Checksum(x, w), w, c), DigitsOf(Checksum(y, w), w, c))
    ensures x == y
  {
    ChecksumBound(x, w);
    ChecksumBound(y, w);
    ValueOfDigits(Checksum(x, w), w, c);
    ValueOfDigits(Checksum(y, w), w, c);
    ValueMonotone(DigitsOf(Checksum(x, w), w, c), DigitsOf(Checksum(y, w), w, c), w);
    ChecksumOrder(x, y, w);
  }

  lemma DominatesParts(a: seq<nat>, b: seq<nat>, x: seq<nat>, y: seq<nat>)
    requires Dominates(a + b, x + y) && |a| == |x|
    ensures Dominates(a, x) && Dominates(b, y)
  {
    forall i | 0 <= i < |a| ensures a[i] >= x[i] {
      assert (a + b)[i] >= (x + y)[i];
    }
    forall i | 0 <= i < |b| ensures b[i] >= y[i] {
      assert (a + b)[|a| + i] >= (x + y)[|a| + i];
    }
  }

  /** No chain walk covers another: if every chain for `a` is walked at least as far as for `b`,
      the messages are the same. A signature on `b` therefore never reveals what signs another `a`. */
  lemma ChainLengthsNotDominated(s: Scheme, a: Block, b: Block)
    requires s.EncodesMessages() && |a| == |b| == s.n
    requires Dominates(ChainLengths(s, a), ChainLengths(s, b))
    ensures a == b
  {
    var w, c := s.w, s.checksumDigits;
    var x, y := BaseW(a, w, s.digitsPerByte), BaseW(b, w, s.digitsPerByte);
    DominatesParts(x, DigitsOf(Checksum(x, w), w, c), y, DigitsOf(Checksum(y, w), w, c));
    ChecksummedOrder(x, y, w, c);
    BaseWInjective(a, b, w, s.digitsPerByte);
  }

  // ----- the leaf generator

  function Splice(v: seq<Block>, base: nat, bs: seq<Block>): (r: seq<Block>)
    requires base + |bs| <= |v|
    ensures |r| == |v|
  {
    v[..base] + bs + v[base + |bs|..]
  }

  lemma SpliceNothing(v: seq<Block>, base: nat, bs: seq<Block>)
    requires base <= |v|
    ensures Splice(v, base, bs[..0]) == v
  {
  }

  lemma SpliceNext(v: seq<Block>, base: nat, bs: seq<Block>, i: nat)
    requires base + |bs| <= |v| && i < |bs|
    ensures Splice(v, base, bs[..i])[base + i := bs[i]] == Splice(v, base, bs[..i + 1])
  {
  }

  /** The state wots_gen_leafx1 keeps between leaves: two addresses of the subtree. */
  ghost predicate LeafAddrs(leafAddr: Address, pkAddr: Address, layer: nat, tree: nat) {
    && leafAddr.layer == pkAddr.layer == layer % 256
    && leafAddr.tree == pkAddr.tree == tree % 0x1_0000_0000_0000_0000
    && leafAddr.index < 256
    && pkAddr.typ == WOTSPK && pkAddr.chain == 0 && pkAddr.index == 0
  }

  /** One chain of the leaf generator: walks it to its end, copying the value at position `wotsK` out. */
  method WalkChain(s: Scheme, ctx: Context, ghost key: Key, i: nat, wotsK: nat, leafAddr0: Address,
                   buf: array<byte>, ghost cnt: nat, k0: nat)
    returns (value: Block, leafAddr: Address)
    requires s.Valid() && Fits(buf, s.n, cnt) && k0 < cnt
    requires leafAddr0.layer == key.layer % 256 && leafAddr0.tree == key.tree % 0x1_0000_0000_0000_0000
    requires leafAddr0.keypair == key.leaf % 256 && leafAddr0.index < 256
    modifies buf
    ensures value == Chain(s, ctx.pubSeed, key, i, ChainSecret(s, ctx, key, i), 0, s.w - 1)
    ensures View(buf, s.n, cnt) == if wotsK < s.w
              then old(View(buf, s.n, cnt))[k0 := Chain(s, ctx.pubSeed, key, i, ChainSecret(s, ctx, key, i), 0, wotsK)]
              else old(View(buf, s.n, cnt))
    ensures Rest(buf, s.n, cnt) == old(Rest(buf, s.n, cnt))
    ensures leafAddr == leafAddr0.(typ := WOTS, chain := i % 256, index := leafAddr.index) && leafAddr.index < 256
  {
    hide Fits, View, Rest;
    leafAddr := leafAddr0.SetChain(i).SetHash(0).SetType(WOTSPRF);
    value := s.prf(ctx.pubSeed, ctx.skSeed, leafAddr);
    leafAddr := leafAddr.SetType(WOTS);
    var k := 0;
    ghost var secret := value;
    while true
      invariant k < s.w && |value| == s.n
      invariant value == Chain(s, ctx.pubSeed, key, i, secret, 0, k)
      invariant leafAddr == leafAddr0.(typ := WOTS, chain := i % 256, index := leafAddr.index) && leafAddr.index < 256
      invariant View(buf, s.n, cnt) == if wotsK < k
                  then old(View(buf, s.n, cnt))[k0 := Chain(s, ctx.pubSeed, key, i, secret, 0, wotsK)]
                  else old(View(buf, s.n, cnt))
      invariant Rest(buf, s.n, cnt) == old(Rest(buf, s.n, cnt))
      decreases s.w - k
    {
      if k == wotsK {
        PutBlock(buf, s.n, cnt, k0, value);
      }
      if k == s.w - 1 {
        break;
      }
      leafAddr := leafAddr.SetHash(k);
      ChainSplit(s, ctx.pubSeed, key, i, secret, 0, k, 1);
      value := s.thash(ctx.pubSeed, leafAddr, [value]);
      k := k + 1;
    }
  }

  /** wots_gen_leafx1: the leaf of key `leafIdx`; when that is the signing leaf, the signature as well. */
  method GenLeaf(s: Scheme, ctx: Context, ghost layer: nat, ghost tree: nat, leafIdx: nat, signLeaf: nat,
                 steps: seq<nat>, leafAddr0: Address, pkAddr0: Address, buf: array<byte>, ghost cnt: nat, base: nat)
    returns (leaf: Block, leafAddr: Address, pkAddr: Address)
    requires s.Valid() && Fits(buf, s.n, cnt) && base + s.WotsLen() <= cnt
    requires |steps| == s.WotsLen() && forall i :: 0 <= i < |steps| ==> steps[i] < s.w
    requires LeafAddrs(leafAddr0, pkAddr0, layer, tree)
    modifies buf
    ensures leaf == WotsLeaf(s, ctx, Key(layer, tree, leafIdx))
    ensures View(buf, s.n, cnt) == if leafIdx == signLeaf
              then Splice(old(View(buf, s.n, cnt)), base, WotsSign(s, ctx, Key(layer, tree, leafIdx), steps))
              else old(View(buf, s.n, cnt))
    ensures Rest(buf, s.n, cnt) == old(Rest(buf, s.n, cnt))
    ensures LeafAddrs(leafAddr, pkAddr, layer, tree)
  {
    hide Fits, View, Rest, Chain, ChainSecret, WotsPublic, WotsSign, Splice;
    ghost var key := Key(layer, tree, leafIdx);
    ghost var v0 := View(buf, s.n, cnt);
    leafAddr := leafAddr0.SetKeypair(leafIdx);
    pkAddr := pkAddr0.SetKeypair(leafIdx);
    var pk: seq<Block> := [];
    SpliceNothing(v0, base, WotsSign(s, ctx, key, steps));
    for i := 0 to s.WotsLen()
      invariant |pk| == i && pk == WotsPublic(s, ctx, key)[..i]
      invariant LeafAddrs(leafAddr, pkAddr, layer, tree)
      invariant leafAddr.keypair == pkAddr.keypair == leafIdx % 256
      invariant View(buf, s.n, cnt) == if leafIdx == signLeaf
                  then Splice(v0, base, WotsSign(s, ctx, key, steps)[..i]) else v0
      invariant Rest(buf, s.n, cnt) == old(Rest(buf, s.n, cnt))
    {
      var wotsK := if leafIdx == signLeaf then steps[i] else 0xFFFF_FFFF;
      var value;
      value, leafAddr := WalkChain(s, ctx, key, i, wotsK, leafAddr, buf, cnt, base + i);
      PublicAt(s, ctx, key, i);
      SignAt(s, ctx, key, steps, i);
      pk := pk + [value];
      SpliceNext(v0, base, WotsSign(s, ctx, key, steps), i);
    }
    assert pk == WotsPublic(s, ctx, key);
    assert WotsSign(s, ctx, key, steps)[..s.WotsLen()] == WotsSign(s, ctx, key, steps);
    leaf := s.thash(ctx.pubSeed, pkAddr, pk);
  }
}
