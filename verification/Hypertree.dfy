/**
 The hypertree (FIPS 205, section 7): D layers of Merkle trees, where the root of each subtree is signed
 by one WOTS+ key of the layer above. Signer and verifier are both folds over the layers.
 */
module Hypertree {
  import opened Bytes
  import opened SphincsParams
  import opened Wots
  import opened Merkle
  import Fors

  function SubtreeRoot(s: Scheme, ctx: Context, layer: nat, tree: nat): Block
    requires s.w > 0
  {
    Node(s, ctx, Xmss(layer, tree), s.height, 0)
  }

  /** Going up one layer: tree >> SPX_TREE_HEIGHT. */
  function ParentTree(s: Scheme, tree: nat): nat {
    tree / Pow(2, s.height)
  }

  /** Going up one layer: tree & ((1 << SPX_TREE_HEIGHT) - 1). */
  function ParentLeaf(s: Scheme, tree: nat): (r: nat)
    ensures r < Pow(2, s.height)
  {
    tree % Pow(2, s.height)
  }

  /** Blocks of the signature from `layer` on. */
  function BlocksFrom(s: Scheme, layer: nat): nat
    requires layer <= s.d
    decreases s.d - layer
  {
    if layer == s.d then 0 else s.LayerBlocks() + BlocksFrom(s, layer + 1)
  }

  lemma {:induction false} BlocksFromTotal(s: Scheme, layer: nat)
    requires layer <= s.d
    ensures BlocksFrom(s, layer) == (s.d - layer) * s.LayerBlocks()
    decreases s.d - layer
  {
    if layer < s.d {
      BlocksFromTotal(s, layer + 1);
      var rest, x := s.d - layer - 1, s.LayerBlocks();
      assert (rest + 1) * x == rest * x + x;
    }
  }

  lemma RootLength(s: Scheme, ctx: Context, layer: nat, tree: nat)
    requires s.Valid()
    ensures |SubtreeRoot(s, ctx, layer, tree)| == s.n
  {
  }

  /** What the signer writes from `layer` on, starting with `root` to be signed. */
  function HtSign(s: Scheme, ctx: Context, root: Block, tree: nat, leaf: nat, layer: nat): (r: seq<Block>)
    requires s.Valid() && layer <= s.d && |root| == s.n
    ensures |r| == BlocksFrom(s, layer)
    decreases s.d - layer
  {
    if layer == s.d then [] else
      RootLength(s, ctx, layer, tree);
      LayerSig(s, ctx, layer, tree, leaf, ChainLengths(s, root))
      + HtSign(s, ctx, SubtreeRoot(s, ctx, layer, tree), ParentTree(s, tree), ParentLeaf(s, tree), layer + 1)
  }

  /** The root the verifier computes for one layer. */
  function LayerRoot(s: Scheme, pub: Block, sig: seq<Block>, root: Block, tree: nat, leaf: nat, layer: nat): Block
    requires s.w > 1 && |root| == s.n && |sig| == s.LayerBlocks()
  {
    var key := Key(layer, tree, leaf);
    var pk := PublicFromSig(s, pub, key, sig[..s.WotsLen()], root);
    ComputeRoot(s, pub, Xmss(layer, tree), CompressPublic(s, pub, key, pk), 0, leaf, sig[s.WotsLen()..])
  }

  lemma {:induction false} ComputeRootLength(s: Scheme, pub: Block, t: Tree, node: Block, h: nat, i: nat, auth: seq<Block>)
    requires s.Valid() && |node| == s.n
    ensures |ComputeRoot(s, pub, t, node, h, i, auth)| == s.n
    decreases |auth|
  {
    if auth != [] {
      var up := if i % 2 == 1 then Join(s, pub, t, h + 1, i / 2, auth[0], node)
                else Join(s, pub, t, h + 1, i / 2, node, auth[0]);
      ComputeRootLength(s, pub, t, up, h + 1, i / 2, auth[1..]);
    }
  }

  lemma LayerRootLength(s: Scheme, pub: Block, sig: seq<Block>, root: Block, tree: nat, leaf: nat, layer: nat)
    requires s.Valid() && |root| == s.n && |sig| == s.LayerBlocks()
    ensures |LayerRoot(s, pub, sig, root, tree, leaf, layer)| == s.n
  {
    var key := Key(layer, tree, leaf);
    var pk := PublicFromSig(s, pub, key, sig[..s.WotsLen()], root);
    ComputeRootLength(s, pub, Xmss(layer, tree), CompressPublic(s, pub, key, pk), 0, leaf, sig[s.WotsLen()..]);
  }

  /** The top root the verifier recomputes from `layer` on. */
  function HtVerify(s: Scheme, pub: Block, sig: seq<Block>, root: Block, tree: nat, leaf: nat, layer: nat): Block
    requires s.Valid() && layer <= s.d && |root| == s.n && |sig| == BlocksFrom(s, layer)
    decreases s.d - layer
  {
    if layer == s.d then root else
      var part := sig[..s.LayerBlocks()];
      LayerRootLength(s, pub, part, root, tree, leaf, layer);
      HtVerify(s, pub, sig[s.LayerBlocks()..], LayerRoot(s, pub, part, root, tree, leaf, layer),
               ParentTree(s, tree), ParentLeaf(s, tree), layer + 1)
  }

  /** On one layer the verifier computes the signer's root, whatever block was signed. */
  lemma LayerRoundTrip(s: Scheme, ctx: Context, root: Block, tree: nat, leaf: nat, layer: nat)
    requires s.Valid() && |root| == s.n && leaf < Pow(2, s.height)
    ensures LayerRoot(s, ctx.pubSeed, LayerSig(s, ctx, layer, tree, leaf, ChainLengths(s, root)), root, tree, leaf, layer)
         == SubtreeRoot(s, ctx, layer, tree)
  {
    hide ComputeRoot, Node, AuthPath, ChainLengths, Pow;
    var steps := ChainLengths(s, root);
    var sig := LayerSig(s, ctx, layer, tree, leaf, steps);
    var t := Xmss(layer, tree);
    assert sig[..s.WotsLen()] == WotsSign(s, ctx, Key(layer, tree, leaf), steps);
    assert sig[s.WotsLen()..] == AuthPath(s, ctx, t, 0, leaf, s.height);
    WotsRoundTrip(s, ctx, Key(layer, tree, leaf), root);
    LeafIsNode(s, ctx, layer, tree, leaf);
    AuthPathLeadsUp(s, ctx, t, 0, leaf, s.height);
    TopIndexZero(s.height, leaf);
  }

  /** `layers` shifts of the tree index. */
  function TreeAt(s: Scheme, tree: nat, layers: nat): nat
    decreases layers
  {
    if layers == 0 then tree else TreeAt(s, ParentTree(s, tree), layers - 1)
  }

  /** The leaf the signer uses on a layer. */
  function LeafAt(s: Scheme, tree: nat, leaf: nat, layers: nat): nat
    decreases layers
  {
    if layers == 0 then leaf else LeafAt(s, ParentTree(s, tree), ParentLeaf(s, tree), layers - 1)
  }

  /** By induction over the layers: the verifier's last root is the root of the last subtree of the signer. */
  lemma {:induction false} HtRoundTrip(s: Scheme, ctx: Context, root: Block, tree: nat, leaf: nat, layer: nat)
    requires s.Valid() && layer < s.d && |root| == s.n && leaf < Pow(2, s.height)
    ensures HtVerify(s, ctx.pubSeed, HtSign(s, ctx, root, tree, leaf, layer), root, tree, leaf, layer)
         == SubtreeRoot(s, ctx, s.d - 1, TreeAt(s, tree, s.d - 1 - layer))
    decreases s.d - layer
  {
    hide LayerSig, LayerRoot, ChainLengths, SubtreeRoot, Pow, ParentTree, ParentLeaf;
    var sig := HtSign(s, ctx, root, tree, leaf, layer);
    var next := SubtreeRoot(s, ctx, layer, tree);
    var steps := ChainLengths(s, root);
    RootLength(s, ctx, layer, tree);
    assert sig[..s.LayerBlocks()] == LayerSig(s, ctx, layer, tree, leaf, steps);
    LayerRoundTrip(s, ctx, root, tree, leaf, layer);
    assert sig[s.LayerBlocks()..] == HtSign(s, ctx, next, ParentTree(s, tree), ParentLeaf(s, tree), layer + 1);
    if layer + 1 < s.d {
      HtRoundTrip(s, ctx, next, ParentTree(s, tree), ParentLeaf(s, tree), layer + 1);
    }
  }

  lemma PowZero(b: nat)
    ensures Pow(b, 0) == 1
  {
  }

  /** Enough shifts bring every tree index the digest can select to 0: the top layer has one tree. */
  lemma {:induction false} TopTreeIsZero(s: Scheme, tree: nat, layers: nat)
    requires tree < Pow(2, s.height * layers)
    ensures TreeAt(s, tree, layers) == 0
    decreases layers
  {
    hide Pow;
    var p := Pow(2, s.height);
    if layers == 0 {
      assert s.height * layers == 0;
      PowZero(2);
    } else {
      var rest := s.height * (layers - 1);
      assert s.height * layers == s.height + rest;
      PowSum(2, s.height, rest);
      QuotientBound(tree, p, Pow(2, rest));
      TopTreeIsZero(s, ParentTree(s, tree), layers - 1);
    }
  }

  // ----- what each one-time key signs

  /** The block WOTS+ key `leaf` of subtree `tree` signs: the FORS key below it, or the subtree below it. */
  function SignedValue(s: Scheme, ctx: Context, layer: nat, tree: nat, leaf: nat): Block
    requires s.w > 0
  {
    if layer == 0 then Fors.ForsPublic(s, ctx, Fors.ForsKey(tree, leaf))
    else SubtreeRoot(s, ctx, layer - 1, tree * Pow(2, s.height) + leaf)
  }

  lemma SignedValueLength(s: Scheme, ctx: Context, layer: nat, tree: nat, leaf: nat)
    requires s.Valid()
    ensures |SignedValue(s, ctx, layer, tree, leaf)| == s.n
  {
  }

  /** Everything a signature holds from `layer` on, as a function of the seeds and one key position. */
  function SuffixOf(s: Scheme, ctx: Context, tree: nat, leaf: nat, layer: nat): seq<Block>
    requires s.Valid() && layer <= s.d
  {
    SignedValueLength(s, ctx, layer, tree, leaf);
    HtSign(s, ctx, SignedValue(s, ctx, layer, tree, leaf), tree, leaf, layer)
  }

  lemma DivisionSplits(tree: nat, p: nat)
    requires p > 0
    ensures tree / p * p + tree % p == tree
  {
  }

  /** Behind one layer comes what the key of the layer above signs. */
  lemma SuffixStep(s: Scheme, ctx: Context, tree: nat, leaf: nat, layer: nat)
    requires s.Valid() && layer < s.d
    ensures BlocksFrom(s, layer) == s.LayerBlocks() + BlocksFrom(s, layer + 1)
    ensures |SuffixOf(s, ctx, tree, leaf, layer)| == BlocksFrom(s, layer)
    ensures |SuffixOf(s, ctx, ParentTree(s, tree), ParentLeaf(s, tree), layer + 1)| == BlocksFrom(s, layer + 1)
    ensures SuffixOf(s, ctx, tree, leaf, layer)[s.LayerBlocks()..]
         == SuffixOf(s, ctx, ParentTree(s, tree), ParentLeaf(s, tree), layer + 1)
  {
    hide LayerSig, ChainLengths, SubtreeRoot, Pow;
    DivisionSplits(tree, Pow(2, s.height));
  }

  /** From layer k on, a signature depends only on the key position reached at layer k:
      a one-time key is never used on two different values. */
  lemma {:induction false} SuffixOnlyFromPosition(s: Scheme, ctx: Context, tree: nat, leaf: nat, layer: nat, k: nat)
    requires s.Valid() && layer + k <= s.d
    ensures BlocksFrom(s, layer + k) <= BlocksFrom(s, layer)
    ensures SuffixOf(s, ctx, tree, leaf, layer)[BlocksFrom(s, layer) - BlocksFrom(s, layer + k)..]
         == SuffixOf(s, ctx, TreeAt(s, tree, k), LeafAt(s, tree, leaf, k), layer + k)
    decreases k
  {
    hide SuffixOf;
    if k > 0 {
      var all := SuffixOf(s, ctx, tree, leaf, layer);
      var rest := SuffixOf(s, ctx, ParentTree(s, tree), ParentLeaf(s, tree), layer + 1);
      SuffixStep(s, ctx, tree, leaf, layer);
      SuffixOnlyFromPosition(s, ctx, ParentTree(s, tree), ParentLeaf(s, tree), layer + 1, k - 1);
      var cut := BlocksFrom(s, layer + 1) - BlocksFrom(s, layer + k);
      assert all[s.LayerBlocks() + cut..] == rest[cut..];
    }
  }

  /** The leaves are the base-2^height digits of the global leaf index, the trees its leading digits. */
  lemma {:induction false} PositionDigits(s: Scheme, tree: nat, leaf: nat, k: nat)
    requires leaf < Pow(2, s.height)
    ensures LeafAt(s, tree, leaf, k) < Pow(2, s.height)
    ensures TreeAt(s, tree, k) * Pow(2, s.height) + LeafAt(s, tree, leaf, k)
         == TreeAt(s, tree * Pow(2, s.height) + leaf, k)
    decreases k
  {
    hide Pow;
    if k > 0 {
      var p := Pow(2, s.height);
      DivisionSplits(tree, p);
      PositionDigits(s, ParentTree(s, tree), ParentLeaf(s, tree), k - 1);
      JoinDivides(tree, leaf, p);
    }
  }

  lemma DivideTwice(x: nat, p: nat, q: nat)
    requires p > 0 && q > 0
    ensures p * q > 0 && x / p / q == x / (p * q)
  {
    var y, r := x / p, x % p;
    DivisionSplits(x, p);
    var a, b := y / q, y % q;
    DivisionSplits(y, q);
    TimesMonotone(q - 1 - b, 0, p);
    assert (q - 1 - b) * p == q * p - p - b * p;
    assert (a * q + b) * p == a * (p * q) + b * p;
    JoinDivides(a, b * p + r, p * q);
  }

  /** Shifting layer by layer is one division of the global leaf index. */
  lemma {:induction false} TreeIsQuotient(s: Scheme, tree: nat, k: nat)
    ensures TreeAt(s, tree, k) == tree / Pow(2, s.height * k)
    decreases k
  {
    hide Pow;
    if k == 0 {
      assert s.height * 0 == 0;
      PowZero(2);
    } else {
      var p, rest := Pow(2, s.height), s.height * (k - 1);
      assert s.height * k == s.height + rest;
      PowSum(2, s.height, rest);
      TreeIsQuotient(s, ParentTree(s, tree), k - 1);
      DivideTwice(tree, p, Pow(2, rest));
    }
  }

  lemma JoinDivides(q: nat, r: nat, p: nat)
    requires r < p
    ensures (q * p + r) / p == q && (q * p + r) % p == r
  {
    var v := q * p + r;
    DivisionSplits(v, p);
    var a, b := v / p, v % p;
    assert a * p + b == q * p + r && 0 <= b < p;
    assert (a - q) * p == r - b;
    if a > q { TimesMonotone(a - q, 1, p); }
    if a < q { TimesMonotone(q - a, 1, p); }
  }
}
