/**
 Key positions and hash addresses: the digest's numbers reach the key position bit by bit, and no two hash calls of
 different keys or purposes have the same address.
 */
module SphincsAddresses {
  import opened Bytes
  import opened SphincsParams
  import opened Wots
  import opened Merkle
  import Fors
  import opened SphincsSign

  // ----- key positions

  lemma HighBitsDoNotShow(u: Subtree, r: nat, j: nat)
    requires j < u.height
    ensures Shift(r + u.Offset(0), j) % 2 == Shift(r, j) % 2
  {
    hide Pow, Shift, Subtree.Offset;
    OffsetShifts(u, r, j);
    OffsetHalves(u, j);
  }

  lemma LowBits(x: nat, count: nat, j: nat)
    requires j < count
    ensures Shift(x % Pow(2, count), j) % 2 == Shift(x, j) % 2
  {
    hide Pow, Shift, Subtree.Offset;
    var q, r := Fors.QuotientRemainder(x, Pow(2, count));
    var u := Subtree(Tree.Fors(0, 0), count, q);
    HighBitsDoNotShow(u, r, j);
    WholeOffset(u);
    RemainderUnique(x, Pow(2, count), q, r);
  }

  lemma RemainderUnique(x: nat, p: nat, q: nat, r: nat)
    requires p > 0 && q == x / p && x == r + q * p
    ensures r == x % p
  {
  }

  /** Masking keeps the low bits of both numbers, so numbers in range are the position itself. */
  lemma PositionKeepsLowBits(s: Scheme, dg: Digest)
    requires s.d > 0
    ensures forall j :: 0 <= j < s.height * (s.d - 1) ==> Shift(TreeIndex(s, dg), j) % 2 == Shift(dg.rawTree, j) % 2
    ensures forall j :: 0 <= j < s.height ==> Shift(LeafIndex(s, dg), j) % 2 == Shift(dg.rawLeaf, j) % 2
    ensures dg.rawTree < Pow(2, s.height * (s.d - 1)) ==> TreeIndex(s, dg) == dg.rawTree
    ensures dg.rawLeaf < Pow(2, s.height) ==> LeafIndex(s, dg) == dg.rawLeaf
  {
    hide Pow, Shift;
    forall j | 0 <= j < s.height * (s.d - 1) ensures Shift(TreeIndex(s, dg), j) % 2 == Shift(dg.rawTree, j) % 2 {
      LowBits(dg.rawTree, s.height * (s.d - 1), j);
    }
    forall j | 0 <= j < s.height ensures Shift(LeafIndex(s, dg), j) % 2 == Shift(dg.rawLeaf, j) % 2 {
      LowBits(dg.rawLeaf, s.height, j);
    }
    SmallRemainder(dg.rawTree, Pow(2, s.height * (s.d - 1)));
    SmallRemainder(dg.rawLeaf, Pow(2, s.height));
  }

  lemma SmallRemainder(x: nat, p: nat)
    requires p > 0
    ensures x < p ==> x % p == x
  {
  }

  // ----- addresses

  /** What a hash call is for. */
  datatype Use =
    | ChainStep(key: Key, chain: nat, position: nat)
    | ChainStart(key: Key, chain: nat)
    | KeyLeaf(key: Key)
    | SubtreeNode(layer: nat, tree: nat, h: nat, i: nat)
    | ForsNode(tree: nat, leaf: nat, h: nat, i: nat)
    | ForsStart(tree: nat, leaf: nat, i: nat)
    | ForsKeyRoots(tree: nat, leaf: nat)

  function AddressOf(u: Use): Address {
    match u
    case ChainStep(key, chain, position) => WotsAddr(key, WOTS, chain % 256, position % 256)
    case ChainStart(key, chain) => WotsAddr(key, WOTSPRF, chain % 256, 0)
    case KeyLeaf(key) => WotsAddr(key, WOTSPK, 0, 0)
    case SubtreeNode(layer, tree, h, i) => NodeAddr(Xmss(layer, tree), h, i)
    case ForsNode(tree, leaf, h, i) => NodeAddr(Fors.ForsKey(tree, leaf), h, i)
    case ForsStart(tree, leaf, i) => NodeAddr(Fors.ForsKey(tree, leaf), 0, i).SetType(FORSPRF)
    case ForsKeyRoots(tree, leaf) => Fors.ForsPkAddr(Fors.ForsKey(tree, leaf))
  }

  /** The calls of signer and verifier are made at these addresses. */
  lemma CallsAreAtTheirAddress(s: Scheme, ctx: Context, key: Key, i: nat, k: nat, x: Block, pk: seq<Block>)
    ensures Chain(s, ctx.pubSeed, key, i, x, k, 1) == s.thash(ctx.pubSeed, AddressOf(ChainStep(key, i, k)), [x])
    ensures ChainSecret(s, ctx, key, i) == s.prf(ctx.pubSeed, ctx.skSeed, AddressOf(ChainStart(key, i)))
    ensures CompressPublic(s, ctx.pubSeed, key, pk) == s.thash(ctx.pubSeed, AddressOf(KeyLeaf(key)), pk)
  {
    assert Chain(s, ctx.pubSeed, key, i, s.thash(ctx.pubSeed, AddressOf(ChainStep(key, i, k)), [x]), k + 1, 0)
        == s.thash(ctx.pubSeed, AddressOf(ChainStep(key, i, k)), [x]);
  }

  lemma TreeCallsAreAtTheirAddress(s: Scheme, ctx: Context, layer: nat, tree: nat, leaf: nat, h: nat, i: nat,
                                   l: Block, r: Block)
    requires s.w > 0
    ensures Join(s, ctx.pubSeed, Xmss(layer, tree), h, i, l, r)
         == s.thash(ctx.pubSeed, AddressOf(SubtreeNode(layer, tree, h, i)), [l, r])
    ensures var key := Fors.ForsKey(tree, leaf);
            && Join(s, ctx.pubSeed, key, h, i, l, r) == s.thash(ctx.pubSeed, AddressOf(ForsNode(tree, leaf, h, i)), [l, r])
            && ForsLeaf(s, ctx.pubSeed, key, i, l) == s.thash(ctx.pubSeed, AddressOf(ForsNode(tree, leaf, 0, i)), [l])
            && ForsSecret(s, ctx, key, i) == s.prf(ctx.pubSeed, ctx.skSeed, AddressOf(ForsStart(tree, leaf, i)))
            && Fors.ForsPublic(s, ctx, key)
               == s.thash(ctx.pubSeed, AddressOf(ForsKeyRoots(tree, leaf)), Fors.ForsRoots(s, ctx, key, 0))
  {
  }

  /** A subtree of the hypertree. */
  predicate HasSubtree(s: Scheme, layer: nat, tree: nat) {
    layer < s.d && tree < Pow(2, s.height * (s.d - 1 - layer))
  }

  predicate HasKey(s: Scheme, key: Key) { HasSubtree(s, key.layer, key.tree) && key.leaf < Pow(2, s.height) }

  /** The scheme makes this hash call for some signature. */
  predicate HasUse(s: Scheme, u: Use) {
    match u
    case ChainStep(key, chain, position) => HasKey(s, key) && chain < s.WotsLen() && position + 1 < s.w
    case ChainStart(key, chain) => HasKey(s, key) && chain < s.WotsLen()
    case KeyLeaf(key) => HasKey(s, key)
    case SubtreeNode(layer, tree, h, i) =>
      HasSubtree(s, layer, tree) && 0 < h <= s.height && i < Pow(2, s.height - h)
    case ForsNode(tree, leaf, h, i) =>
      HasKey(s, Key(0, tree, leaf)) && h <= s.forsHeight && i < s.forsTrees * Pow(2, s.forsHeight - h)
    case ForsStart(tree, leaf, i) => HasKey(s, Key(0, tree, leaf)) && i < s.forsTrees * Pow(2, s.forsHeight)
    case ForsKeyRoots(tree, leaf) => HasKey(s, Key(0, tree, leaf))
  }

  /** Different hash calls of a scheme have different addresses. */
  ghost predicate Separated(s: Scheme) {
    forall u, v :: HasUse(s, u) && HasUse(s, v) && AddressOf(u) == AddressOf(v) ==> u == v
  }

  /** Every field of the address is wide enough for what the scheme writes into it. */
  predicate FieldsSuffice(s: Scheme) {
    s.height <= 8 && s.WotsLen() <= 256 && s.forsTrees * Pow(2, s.forsHeight) <= 0x1_0000_0000
  }

  lemma {:induction false} PowMonotone(x: nat, y: nat)
    requires x <= y
    ensures Pow(2, x) <= Pow(2, y)
    decreases y
  {
    if x < y { PowMonotone(x, y - 1); }
  }

  lemma PowLimits()
    ensures Pow(2, 8) == 256 && Pow(2, 32) == 0x1_0000_0000 && Pow(2, 64) == 0x1_0000_0000_0000_0000
  {
    hide Pow;
    Fors.PowEight();
    PowDoubles(8);
    PowDoubles(16);
    PowDoubles(32);
  }

  lemma PowDoubles(x: nat)
    ensures Pow(2, x + x) == Pow(2, x) * Pow(2, x)
  {
    PowSum(2, x, x);
  }

  /** What the fields can hold. */
  predicate KeyFits(key: Key) { key.layer < 256 && key.tree < 0x1_0000_0000_0000_0000 && key.leaf < 256 }

  predicate UseFits(u: Use) {
    match u
    case ChainStep(key, chain, position) => KeyFits(key) && chain < 256 && position < 256
    case ChainStart(key, chain) => KeyFits(key) && chain < 256
    case KeyLeaf(key) => KeyFits(key)
    case SubtreeNode(layer, tree, h, i) => KeyFits(Key(layer, tree, 0)) && h < 256 && i < 0x1_0000_0000
    case ForsNode(tree, leaf, h, i) => KeyFits(Key(0, tree, leaf)) && h < 256 && i < 0x1_0000_0000
    case ForsStart(tree, leaf, i) => KeyFits(Key(0, tree, leaf)) && i < 0x1_0000_0000
    case ForsKeyRoots(tree, leaf) => KeyFits(Key(0, tree, leaf))
  }

  /** The call an address stands for. */
  function UseAt(a: Address): Use {
    var key := Key(a.layer, a.tree, a.keypair);
    if a.typ == WOTS then ChainStep(key, a.chain, a.index)
    else if a.typ == WOTSPRF then ChainStart(key, a.chain)
    else if a.typ == WOTSPK then KeyLeaf(key)
    else if a.typ == HASHTREE then SubtreeNode(a.layer, a.tree, a.chain, a.index)
    else if a.typ == FORSTREE then ForsNode(a.tree, a.keypair, a.chain, a.index)
    else if a.typ == FORSPRF then ForsStart(a.tree, a.keypair, a.index)
    else ForsKeyRoots(a.tree, a.keypair)
  }

  /** Within the fields an address is written with these numbers (FIPS 205, section 4.2, in the numbering of the
      submission), and can be read back. */
  lemma AddressReadsBack(u: Use)
    requires UseFits(u)
    ensures UseAt(AddressOf(u)) == u
    ensures AddressOf(u) == match u
      case ChainStep(key, chain, position) => Address(key.layer, key.tree, 0, key.leaf, chain, position)
      case KeyLeaf(key) => Address(key.layer, key.tree, 1, key.leaf, 0, 0)
      case SubtreeNode(layer, tree, h, i) => Address(layer, tree, 2, 0, h, i)
      case ForsNode(tree, leaf, h, i) => Address(0, tree, 3, leaf, h, i)
      case ForsKeyRoots(tree, leaf) => Address(0, tree, 4, leaf, 0, 0)
      case ChainStart(key, chain) => Address(key.layer, key.tree, 5, key.leaf, chain, 0)
      case ForsStart(tree, leaf, i) => Address(0, tree, 6, leaf, 0, i)
  {
  }

  lemma TreeFits(s: Scheme, layer: nat, tree: nat)
    requires s.Valid() && HasSubtree(s, layer, tree)
    ensures tree < 0x1_0000_0000_0000_0000
  {
    hide Pow;
    PowLimits();
    TimesMonotone(s.d - 1, s.d - 1 - layer, s.height);
    PowMonotone(s.height * (s.d - 1 - layer), 64);
  }

  lemma LayerFits(s: Scheme, layer: nat, tree: nat)
    requires s.Valid() && HasSubtree(s, layer, tree)
    ensures layer < 256
  {
    TimesMonotone(s.height, 1, s.d - 1);
  }

  lemma KeyOfSchemeFits(s: Scheme, key: Key)
    requires s.Valid() && FieldsSuffice(s) && HasKey(s, key)
    ensures KeyFits(key)
  {
    hide Pow;
    PowLimits();
    PowMonotone(s.height, 8);
    TreeFits(s, key.layer, key.tree);
    LayerFits(s, key.layer, key.tree);
  }

  lemma ForsIndexFits(s: Scheme, h: nat, i: nat)
    requires FieldsSuffice(s) && h <= s.forsHeight && i < s.forsTrees * Pow(2, s.forsHeight - h)
    ensures i < 0x1_0000_0000
  {
    hide Pow;
    PowMonotone(s.forsHeight - h, s.forsHeight);
    TimesMonotone(Pow(2, s.forsHeight), Pow(2, s.forsHeight - h), s.forsTrees);
  }

  lemma SubtreeIndexFits(s: Scheme, h: nat, i: nat)
    requires s.height <= 8 && h <= s.height && i < Pow(2, s.height - h)
    ensures i < 256
  {
    hide Pow;
    PowLimits();
    PowMonotone(s.height - h, 8);
  }

  lemma UseOfSchemeFits(s: Scheme, u: Use)
    requires s.Valid() && FieldsSuffice(s) && HasUse(s, u)
    ensures UseFits(u)
  {
    hide Pow, HasSubtree;
    match u
    case ChainStep(key, _, _) => KeyOfSchemeFits(s, key);
    case ChainStart(key, _) => KeyOfSchemeFits(s, key);
    case KeyLeaf(key) => KeyOfSchemeFits(s, key);
    case SubtreeNode(layer, tree, h, i) => TreeFits(s, layer, tree); LayerFits(s, layer, tree); SubtreeIndexFits(s, h, i);
    case ForsNode(tree, leaf, h, i) => KeyOfSchemeFits(s, Key(0, tree, leaf)); ForsIndexFits(s, h, i);
    case ForsStart(tree, leaf, i) => KeyOfSchemeFits(s, Key(0, tree, leaf)); ForsIndexFits(s, 0, i);
    case ForsKeyRoots(tree, leaf) => KeyOfSchemeFits(s, Key(0, tree, leaf));
  }

  /** A field that is too narrow is written with the same bytes for two different calls. */
  lemma NarrowFieldShared(s: Scheme) returns (u: Use, v: Use)
    requires s.Valid() && !FieldsSuffice(s)
    ensures HasUse(s, u) && HasUse(s, v) && u != v && AddressOf(u) == AddressOf(v)
  {
    hide Pow;
    var key := Key(0, 0, 0);
    if s.height > 8 {
      PowLimits();
      LeafBeyondByte(s.height);
      u, v := KeyLeaf(key), KeyLeaf(Key(0, 0, 256));
    } else if s.WotsLen() > 256 {
      u, v := ChainStart(key, 0), ChainStart(key, 256);
    } else {
      u, v := ForsStart(0, 0, 0), ForsStart(0, 0, 0x1_0000_0000);
    }
  }

  lemma LeafBeyondByte(height: nat)
    requires height > 8
    ensures Pow(2, height) > 256
  {
    PowLimits();
    assert Pow(2, 9) == 2 * Pow(2, 8);
    PowMonotone(9, height);
  }

  /** Different keys and purposes never share an address exactly when the fields are wide enough: leaves and chains in
      one byte, FORS leaves in four. There are never too many layers, because tree numbers have 64 bits. */
  lemma SeparatedIff(s: Scheme)
    requires s.Valid()
    ensures Separated(s) <==> FieldsSuffice(s)
  {
    hide HasUse, AddressOf, FieldsSuffice;
    if FieldsSuffice(s) {
      forall u, v | HasUse(s, u) && HasUse(s, v) && AddressOf(u) == AddressOf(v) ensures u == v {
        UseOfSchemeFits(s, u);
        UseOfSchemeFits(s, v);
        AddressReadsBack(u);
        AddressReadsBack(v);
      }
    } else {
      var u, v := NarrowFieldShared(s);
    }
  }
}
