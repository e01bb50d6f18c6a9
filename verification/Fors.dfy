/** FORS few-time signatures (FIPS 205, section 8): one secret and one authentication path per tree. */
module Fors {
  import opened Bytes
  import opened SphincsParams
  import opened Merkle
  import Wots

  /** The FORS key below WOTS+ key `leaf` of bottom-layer tree `tree`, as its address holds it. */
  function ForsKey(tree: nat, leaf: nat): Tree {
    Tree.Fors(tree % 0x1_0000_0000_0000_0000, leaf % 256)
  }

  function ForsPkAddr(t: Tree): Address
    requires t.Fors?
  {
    Address(0, t.tree % 0x1_0000_0000_0000_0000, FORSPK, t.keypair % 256, 0, 0)
  }

  function MessageBit(m: seq<byte>, k: nat): (r: nat)
    requires k / 8 < |m|
    ensures r < 2
  {
    m[k / 8] / Pow(2, k % 8) % 2
  }

  /** The `count` message bits from bit `at` on, least significant first. */
  function BitsValue(m: seq<byte>, at: nat, count: nat): (r: nat)
    requires at + count <= |m| * 8
    ensures r < Pow(2, count)
    decreases count
  {
    if count == 0 then 0 else MessageBit(m, at) + 2 * BitsValue(m, at + 1, count - 1)
  }

  /** message_to_indices: the leaf of tree t the message selects, counted over all trees. */
  function ForsLeafIndex(s: Scheme, m: seq<byte>, t: nat): nat
    requires t < s.forsTrees && |m| * 8 >= s.forsTrees * s.forsHeight
  {
    BitsInside(s.forsTrees, s.forsHeight, t);
    BitsValue(m, t * s.forsHeight, s.forsHeight) + t * Pow(2, s.forsHeight)
  }

  lemma BitsInside(trees: nat, height: nat, t: nat)
    requires t < trees
    ensures t * height + height <= trees * height
  {
    var r := trees - t - 1;
    assert trees * height == t * height + height + r * height;
  }

  /** Blocks of the signature from tree t on. */
  function BlocksFrom(s: Scheme, t: nat): nat
    requires t <= s.forsTrees
    decreases s.forsTrees - t
  {
    if t == s.forsTrees then 0 else s.forsHeight + 1 + BlocksFrom(s, t + 1)
  }

  lemma {:induction false} BlocksFromTotal(s: Scheme, t: nat)
    requires t <= s.forsTrees
    ensures BlocksFrom(s, t) == (s.forsTrees - t) * (s.forsHeight + 1)
    decreases s.forsTrees - t
  {
    if t < s.forsTrees {
      BlocksFromTotal(s, t + 1);
      var rest := s.forsTrees - t - 1;
      assert (rest + 1) * (s.forsHeight + 1) == rest * (s.forsHeight + 1) + (s.forsHeight + 1);
    }
  }

  /** The part of the signature from tree t on. */
  function ForsSign(s: Scheme, ctx: Context, key: Tree, m: seq<byte>, t: nat): (r: seq<Block>)
    requires s.w > 0 && t <= s.forsTrees && |m| * 8 >= s.forsTrees * s.forsHeight
    ensures |r| == BlocksFrom(s, t)
    decreases s.forsTrees - t
  {
    if t == s.forsTrees then [] else
      var i := ForsLeafIndex(s, m, t);
      [ForsSecret(s, ctx, key, i)] + AuthPath(s, ctx, key, 0, i, s.forsHeight) + ForsSign(s, ctx, key, m, t + 1)
  }

  function ForsRoots(s: Scheme, ctx: Context, key: Tree, t: nat): seq<Block>
    requires s.w > 0 && t <= s.forsTrees
    decreases s.forsTrees - t
  {
    if t == s.forsTrees then [] else [Node(s, ctx, key, s.forsHeight, t)] + ForsRoots(s, ctx, key, t + 1)
  }

  /** The FORS public key: what the bottom-layer WOTS+ key signs. No message occurs in it. */
  function ForsPublic(s: Scheme, ctx: Context, key: Tree): Block
    requires s.w > 0 && key.Fors?
  {
    s.thash(ctx.pubSeed, ForsPkAddr(key), ForsRoots(s, ctx, key, 0))
  }

  function RootsFromSig(s: Scheme, pub: Block, key: Tree, m: seq<byte>, sig: seq<Block>, t: nat): seq<Block>
    requires t <= s.forsTrees && |m| * 8 >= s.forsTrees * s.forsHeight
    requires |sig| == BlocksFrom(s, t)
    decreases s.forsTrees - t
  {
    if t == s.forsTrees then [] else
      var i := ForsLeafIndex(s, m, t);
      var a := s.forsHeight;
      [ComputeRoot(s, pub, key, ForsLeaf(s, pub, key, i, sig[0]), 0, i, sig[1..a + 1])]
      + RootsFromSig(s, pub, key, m, sig[a + 1..], t + 1)
  }

  /** fors_pk_from_sig */
  function PublicFromSig(s: Scheme, pub: Block, key: Tree, m: seq<byte>, sig: seq<Block>): Block
    requires key.Fors? && |m| * 8 >= s.forsTrees * s.forsHeight && |sig| == BlocksFrom(s, 0)
  {
    s.thash(pub, ForsPkAddr(key), RootsFromSig(s, pub, key, m, sig, 0))
  }

  /** A FORS signature on any message leads back to the same roots. */
  lemma {:induction false} ForsRoundTrip(s: Scheme, ctx: Context, key: Tree, m: seq<byte>, t: nat)
    requires s.w > 0 && key.Fors? && t <= s.forsTrees && |m| * 8 >= s.forsTrees * s.forsHeight
    ensures RootsFromSig(s, ctx.pubSeed, key, m, ForsSign(s, ctx, key, m, t), t) == ForsRoots(s, ctx, key, t)
    decreases s.forsTrees - t
  {
    hide ComputeRoot, AuthPath, Join, ForsLeaf, ForsSecret, ForsLeafIndex;
    if t < s.forsTrees {
      var sig := ForsSign(s, ctx, key, m, t);
      var i := ForsLeafIndex(s, m, t);
      var a := s.forsHeight;
      assert sig[0] == ForsSecret(s, ctx, key, i);
      assert sig[1..a + 1] == AuthPath(s, ctx, key, 0, i, a);
      assert sig[a + 1..] == ForsSign(s, ctx, key, m, t + 1);
      ForsLeafIsNode(s, ctx, key, i);
      AuthPathLeadsUp(s, ctx, key, 0, i, a);
      ForsIndexTop(s, m, t);
      ForsRoundTrip(s, ctx, key, m, t + 1);
    }
  }

  lemma ForsLeafIsNode(s: Scheme, ctx: Context, key: Tree, i: nat)
    requires s.w > 0 && key.Fors?
    ensures ForsLeaf(s, ctx.pubSeed, key, i, ForsSecret(s, ctx, key, i)) == Node(s, ctx, key, 0, i)
  {
  }

  lemma ForsIndexTop(s: Scheme, m: seq<byte>, t: nat)
    requires t < s.forsTrees && |m| * 8 >= s.forsTrees * s.forsHeight
    ensures Shift(ForsLeafIndex(s, m, t), s.forsHeight) == t
  {
    BitsInside(s.forsTrees, s.forsHeight, t);
    ShiftOffset(BitsValue(m, t * s.forsHeight, s.forsHeight), s.forsHeight, t);
  }

  lemma ForsSignLength(s: Scheme, ctx: Context, key: Tree, m: seq<byte>, t: nat)
    requires s.Valid() && t <= s.forsTrees && |m| * 8 >= s.forsTrees * s.forsHeight
    ensures AllLength(ForsSign(s, ctx, key, m, t), s.n)
    decreases s.forsTrees - t
  {
    hide ForsLeafIndex, AuthPath;
    if t < s.forsTrees {
      AuthPathLength(s, ctx, key, 0, ForsLeafIndex(s, m, t), s.forsHeight);
      ForsSignLength(s, ctx, key, m, t + 1);
    }
  }

  // ----- which leaf a digest selects

  /** Bit j of the number of a group of message bits is bit j of the group. */
  lemma {:induction false} BitsValueBit(m: seq<byte>, at: nat, count: nat, j: nat)
    requires at + count <= |m| * 8 && j < count
    ensures Shift(BitsValue(m, at, count), j) % 2 == m[(at + j) / 8] / Pow(2, (at + j) % 8) % 2
    decreases count
  {
    hide Pow;
    var rest := BitsValue(m, at + 1, count - 1);
    assert BitsValue(m, at, count) == MessageBit(m, at) + 2 * rest;
    assert BitsValue(m, at, count) / 2 == rest;
    if j > 0 {
      BitsValueBit(m, at + 1, count - 1, j - 1);
      assert at + 1 + (j - 1) == at + j;
    }
  }

  /** Numbers below 2^count with the same bits are the same. */
  lemma {:induction false} BitsDetermine(x: nat, y: nat, count: nat)
    requires x < Pow(2, count) && y < Pow(2, count)
    requires forall j :: 0 <= j < count ==> Shift(x, j) % 2 == Shift(y, j) % 2
    ensures x == y
    decreases count
  {
    if count > 0 {
      assert Shift(x, 0) % 2 == Shift(y, 0) % 2;
      forall j | 0 <= j < count - 1 ensures Shift(x / 2, j) % 2 == Shift(y / 2, j) % 2 {
        assert Shift(x, j + 1) % 2 == Shift(y, j + 1) % 2;
      }
      BitsDetermine(x / 2, y / 2, count - 1);
    }
  }

  lemma QuotientRemainder(i: nat, p: nat) returns (q: nat, r: nat)
    requires p > 0
    ensures q == i / p && r < p && i == r + q * p
  {
    q, r := i / p, i % p;
  }

  lemma ShiftIsQuotient(i: nat, h: nat)
    ensures Shift(i, h) == i / Pow(2, h)
  {
    hide Pow, Shift;
    var q, r := QuotientRemainder(i, Pow(2, h));
    ShiftOffset(r, h, q);
  }

  lemma BitsValueHead(m: seq<byte>, at: nat, count: nat)
    requires at + count < |m| * 8
    ensures BitsValue(m, at, count + 1) == MessageBit(m, at) + 2 * BitsValue(m, at + 1, count)
  {
  }

  /** A byte is the number of its eight bits. */
  lemma ByteIsItsBits(m: seq<byte>, k: nat)
    requires k < |m|
    ensures BitsValue(m, 8 * k, 8) == m[k]
  {
    hide BitsValue, Pow;
    var x, y := BitsValue(m, 8 * k, 8), m[k];
    assert Pow(2, 8) == 256 by { PowEight(); }
    forall j | 0 <= j < 8 ensures Shift(x, j) % 2 == Shift(y, j) % 2 {
      BitsValueBit(m, 8 * k, 8, j);
      ShiftIsQuotient(y, j);
      assert (8 * k + j) / 8 == k && (8 * k + j) % 8 == j;
    }
    BitsDetermine(x, y, 8);
  }

  /** It is the sum of them, the first one counting least. */
  lemma ByteOfBits(m: seq<byte>, k: nat)
    requires k < |m|
    ensures m[k] == MessageBit(m, 8 * k) + 2 * MessageBit(m, 8 * k + 1) + 4 * MessageBit(m, 8 * k + 2)
                    + 8 * MessageBit(m, 8 * k + 3) + 16 * MessageBit(m, 8 * k + 4) + 32 * MessageBit(m, 8 * k + 5)
                    + 64 * MessageBit(m, 8 * k + 6) + 128 * MessageBit(m, 8 * k + 7)
  {
    hide MessageBit, BitsValue;
    ByteIsItsBits(m, k);
    BitsValueHead(m, 8 * k, 7);
    BitsValueHead(m, 8 * k + 1, 6);
    BitsValueHead(m, 8 * k + 2, 5);
    BitsValueHead(m, 8 * k + 3, 4);
    BitsValueHead(m, 8 * k + 4, 3);
    BitsValueHead(m, 8 * k + 5, 2);
    BitsValueHead(m, 8 * k + 6, 1);
    BitsValueHead(m, 8 * k + 7, 0);
    NoBitsValue(m, 8 * k + 8);
  }

  lemma NoBitsValue(m: seq<byte>, at: nat)
    requires at <= |m| * 8
    ensures BitsValue(m, at, 0) == 0
  {
  }

  lemma PowEight()
    ensures Pow(2, 8) == 256
  {
    assert Pow(2, 4) == 16;
  }

  lemma SelectedBit(m: seq<byte>, at: nat, count: nat, j: nat)
    requires at + count <= |m| * 8 && j < count
    ensures Shift(BitsValue(m, at, count), j) % 2 == MessageBit(m, at + j)
  {
    BitsValueBit(m, at, count, j);
  }

  /** The bits of the digest that select the leaf of tree t are the bits of the leaf number v. */
  lemma LeafBit(s: Scheme, m: seq<byte>, t: nat, j: nat, k: nat) returns (v: nat)
    requires t < s.forsTrees && j < s.forsHeight && |m| * 8 >= s.forsTrees * s.forsHeight
    requires k == t * s.forsHeight + j
    ensures k < |m| * 8 && ForsLeafIndex(s, m, t) == v + t * Pow(2, s.forsHeight)
    ensures Shift(v, j) % 2 == MessageBit(m, k)
  {
    hide Pow, Shift, MessageBit, BitsValue;
    BitsInside(s.forsTrees, s.forsHeight, t);
    v := BitsValue(m, t * s.forsHeight, s.forsHeight);
    SelectedBit(m, t * s.forsHeight, s.forsHeight, j);
  }

  /** Two digests select the same leaf in every tree exactly when they agree in their first k * a bits. */
  lemma SameLeavesIffSameBits(s: Scheme, a: seq<byte>, b: seq<byte>)
    requires s.forsHeight > 0
    requires |a| * 8 >= s.forsTrees * s.forsHeight && |b| * 8 >= s.forsTrees * s.forsHeight
    ensures (forall t :: 0 <= t < s.forsTrees ==> ForsLeafIndex(s, a, t) == ForsLeafIndex(s, b, t))
       <==> (forall i :: 0 <= i < s.forsTrees * s.forsHeight ==> MessageBit(a, i) == MessageBit(b, i))
  {
    hide ForsLeafIndex, MessageBit, Pow;
    if forall t :: 0 <= t < s.forsTrees ==> ForsLeafIndex(s, a, t) == ForsLeafIndex(s, b, t) {
      forall i | 0 <= i < s.forsTrees * s.forsHeight ensures MessageBit(a, i) == MessageBit(b, i) {
        var t, j := i / s.forsHeight, i % s.forsHeight;
        InWhichTree(i, s.forsTrees, s.forsHeight);
        var v := LeafBit(s, a, t, j, i);
        var w := LeafBit(s, b, t, j, i);
        assert v == w;
      }
    }
    if forall i :: 0 <= i < s.forsTrees * s.forsHeight ==> MessageBit(a, i) == MessageBit(b, i) {
      forall t | 0 <= t < s.forsTrees ensures ForsLeafIndex(s, a, t) == ForsLeafIndex(s, b, t) {
        SameBitsSameLeaf(s, a, b, t);
      }
    }
  }

  lemma InWhichTree(i: nat, trees: nat, height: nat)
    requires height > 0 && i < trees * height
    ensures i / height < trees && i == i / height * height + i % height
  {
    Wots.QuotientBound(i, height, trees);
  }

  lemma SameBitsSameLeaf(s: Scheme, a: seq<byte>, b: seq<byte>, t: nat)
    requires t < s.forsTrees && |a| * 8 >= s.forsTrees * s.forsHeight && |b| * 8 >= s.forsTrees * s.forsHeight
    requires forall i :: 0 <= i < s.forsTrees * s.forsHeight ==> MessageBit(a, i) == MessageBit(b, i)
    ensures ForsLeafIndex(s, a, t) == ForsLeafIndex(s, b, t)
  {
    hide MessageBit, Pow, Shift;
    BitsInside(s.forsTrees, s.forsHeight, t);
    var at := t * s.forsHeight;
    var x, y := BitsValue(a, at, s.forsHeight), BitsValue(b, at, s.forsHeight);
    forall j | 0 <= j < s.forsHeight ensures Shift(x, j) % 2 == Shift(y, j) % 2 {
      SelectedBit(a, at, s.forsHeight, j);
      SelectedBit(b, at, s.forsHeight, j);
      assert MessageBit(a, at + j) == MessageBit(b, at + j);
    }
    BitsDetermine(x, y, s.forsHeight);
  }

  /** The digest spells the number v, bit by bit, in the group of bits for tree t. */
  ghost predicate Spells(s: Scheme, m: seq<byte>, t: nat, v: nat) {
    forall j :: 0 <= j < s.forsHeight && (t * s.forsHeight + j) / 8 < |m| ==>
      Shift(v, j) % 2 == m[(t * s.forsHeight + j) / 8] / Pow(2, (t * s.forsHeight + j) % 8) % 2
  }

  lemma SpelledBit(s: Scheme, m: seq<byte>, t: nat, v: nat, at: nat, j: nat)
    requires at == t * s.forsHeight && at + s.forsHeight <= |m| * 8 && j < s.forsHeight && Spells(s, m, t, v)
    ensures Shift(BitsValue(m, at, s.forsHeight), j) % 2 == Shift(v, j) % 2
  {
    hide Pow, Shift, BitsValue;
    BitsValueBit(m, at, s.forsHeight, j);
  }

  lemma SpelledLeaf(s: Scheme, m: seq<byte>, t: nat, v: nat)
    requires t < s.forsTrees && |m| * 8 >= s.forsTrees * s.forsHeight
    requires v < Pow(2, s.forsHeight) && Spells(s, m, t, v)
    ensures ForsLeafIndex(s, m, t) == v + t * Pow(2, s.forsHeight)
  {
    hide Pow, Shift, Spells, BitsValue;
    BitsInside(s.forsTrees, s.forsHeight, t);
    var x := BitsValue(m, t * s.forsHeight, s.forsHeight);
    forall j | 0 <= j < s.forsHeight ensures Shift(x, j) % 2 == Shift(v, j) % 2 {
      SpelledBit(s, m, t, v, t * s.forsHeight, j);
    }
    BitsDetermine(x, v, s.forsHeight);
  }

  lemma ForsSignTail(s: Scheme, ctx: Context, key: Tree, m: seq<byte>, t: nat)
    requires s.w > 0 && t < s.forsTrees && |m| * 8 >= s.forsTrees * s.forsHeight
    ensures BlocksFrom(s, t) == s.forsHeight + 1 + BlocksFrom(s, t + 1)
    ensures ForsSign(s, ctx, key, m, t)[s.forsHeight + 1..] == ForsSign(s, ctx, key, m, t + 1)
    ensures ForsSign(s, ctx, key, m, t)[0] == ForsSecret(s, ctx, key, ForsLeafIndex(s, m, t))
  {
    hide AuthPath, ForsSecret, ForsLeafIndex;
  }

  lemma {:induction false} PartsBehind(s: Scheme, ctx: Context, key: Tree, m: seq<byte>, u: nat, t: nat)
    requires s.w > 0 && u <= t <= s.forsTrees && |m| * 8 >= s.forsTrees * s.forsHeight
    ensures BlocksFrom(s, t) <= BlocksFrom(s, u)
    ensures ForsSign(s, ctx, key, m, u)[BlocksFrom(s, u) - BlocksFrom(s, t)..] == ForsSign(s, ctx, key, m, t)
    decreases t - u
  {
    hide ForsSign, BlocksFrom;
    if u < t {
      ForsSignTail(s, ctx, key, m, u);
      PartsBehind(s, ctx, key, m, u + 1, t);
      var all, rest := ForsSign(s, ctx, key, m, u), ForsSign(s, ctx, key, m, u + 1);
      var cut := BlocksFrom(s, u + 1) - BlocksFrom(s, t);
      assert all[s.forsHeight + 1..][cut..] == all[s.forsHeight + 1 + cut..];
    }
  }

  /** The first block of part t of a FORS signature is the secret of the leaf that the digest spells. */
  lemma SignatureShowsSelectedSecret(s: Scheme, ctx: Context, key: Tree, m: seq<byte>, t: nat, v: nat, at: nat)
    requires s.w > 0 && t < s.forsTrees && |m| * 8 >= s.forsTrees * s.forsHeight
    requires v < Pow(2, s.forsHeight) && Spells(s, m, t, v) && at == t * (s.forsHeight + 1)
    ensures at < |ForsSign(s, ctx, key, m, 0)|
    ensures ForsSign(s, ctx, key, m, 0)[at]
         == s.prf(ctx.pubSeed, ctx.skSeed, NodeAddr(key, 0, v + t * Pow(2, s.forsHeight)).(typ := FORSPRF))
  {
    hide AuthPath, NodeAddr, Pow, Spells, ForsLeafIndex, ForsSign, BlocksFrom;
    ForsSignTail(s, ctx, key, m, t);
    PartsBehind(s, ctx, key, m, 0, t);
    PartBegins(s, t, at);
    SpelledLeaf(s, m, t, v);
    assert ForsSign(s, ctx, key, m, 0)[at..][0] == ForsSign(s, ctx, key, m, 0)[at];
  }

  lemma PartBegins(s: Scheme, t: nat, at: nat)
    requires t < s.forsTrees && at == t * (s.forsHeight + 1)
    ensures BlocksFrom(s, 0) - BlocksFrom(s, t) == at && BlocksFrom(s, t) > 0
  {
    hide BlocksFrom;
    BlocksFromTotal(s, 0);
    BlocksFromTotal(s, t);
    TreesBefore(s.forsTrees, t, s.forsHeight + 1);
  }

  lemma TreesBefore(trees: nat, t: nat, size: nat)
    requires t < trees
    ensures trees * size - (trees - t) * size == t * size
    ensures (trees - t) * size == size + (trees - t - 1) * size
  {
  }
}
