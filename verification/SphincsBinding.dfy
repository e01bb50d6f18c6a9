/**
 What acceptance proves. An accepted signature is the one the signer makes under that digest, or the hash calls of the
 verifier show one of two things: an input different from the signer's own input of that call with the same output,
 or a chain value nearer to the secret than any the signer ever shows.
 */
module SphincsBinding {
  import opened Bytes
  import opened SphincsParams
  import opened Wots
  import opened Merkle
  import Fors
  import opened Hypertree
  import opened SphincsVerify
  import opened SphincsSign

  /** Two different inputs of one hash call with the same output. */
  predicate Collide(s: Scheme, pub: Block, a: Address, x: seq<Block>, y: seq<Block>) {
    x != y && s.thash(pub, a, x) == s.thash(pub, a, y)
  }

  // ----- authentication paths

  /** What the verifier hashes to climb from a node with its sibling. */
  function Joined(node: Block, i: nat, sibling: Block): seq<Block> {
    if i % 2 == 1 then [sibling, node] else [node, sibling]
  }

  /** Somewhere on the climb the verifier's pair is not the tree's own pair of nodes, and hashes to the same. */
  predicate PathCollides(s: Scheme, ctx: Context, t: Tree, node: Block, h: nat, i: nat, auth: seq<Block>)
    requires s.w > 0
    decreases |auth|
  {
    auth != [] &&
      var a, pair := NodeAddr(t, h + 1, i / 2), Joined(node, i, auth[0]);
      || Collide(s, ctx.pubSeed, a, pair, [Node(s, ctx, t, h, 2 * (i / 2)), Node(s, ctx, t, h, 2 * (i / 2) + 1)])
      || PathCollides(s, ctx, t, s.thash(ctx.pubSeed, a, pair), h + 1, i / 2, auth[1..])
  }

  /** A climb that ends in the ancestor began at the tree's own node, along its own path. */
  lemma {:induction false} PathBinds(s: Scheme, ctx: Context, t: Tree, node: Block, h: nat, i: nat, auth: seq<Block>)
    requires s.w > 0
    ensures node == Node(s, ctx, t, h, i) && auth == AuthPath(s, ctx, t, h, i, |auth|)
       <==> ComputeRoot(s, ctx.pubSeed, t, node, h, i, auth) == Node(s, ctx, t, h + |auth|, Shift(i, |auth|))
            && !PathCollides(s, ctx, t, node, h, i, auth)
    decreases |auth|
  {
    hide Node, ComputeRoot, AuthPath, Joined, NodeAddr;
    if auth == [] {
      PathEnds(s, ctx, t, node, h, i);
    } else {
      var up := s.thash(ctx.pubSeed, NodeAddr(t, h + 1, i / 2), Joined(node, i, auth[0]));
      PathBinds(s, ctx, t, up, h + 1, i / 2, auth[1..]);
      PathHead(s, ctx, t, node, h, i, auth);
      ClimbHead(s, ctx, t, node, h, i, auth);
    }
  }

  lemma PathEnds(s: Scheme, ctx: Context, t: Tree, node: Block, h: nat, i: nat)
    requires s.w > 0
    ensures ComputeRoot(s, ctx.pubSeed, t, node, h, i, []) == node
    ensures AuthPath(s, ctx, t, h, i, 0) == [] && Shift(i, 0) == i
  {
  }

  lemma ClimbHead(s: Scheme, ctx: Context, t: Tree, node: Block, h: nat, i: nat, auth: seq<Block>)
    requires s.w > 0 && auth != []
    ensures ComputeRoot(s, ctx.pubSeed, t, node, h, i, auth)
         == ComputeRoot(s, ctx.pubSeed, t, s.thash(ctx.pubSeed, NodeAddr(t, h + 1, i / 2), Joined(node, i, auth[0])),
                        h + 1, i / 2, auth[1..])
    ensures Node(s, ctx, t, h + 1, i / 2)
         == s.thash(ctx.pubSeed, NodeAddr(t, h + 1, i / 2),
                    [Node(s, ctx, t, h, 2 * (i / 2)), Node(s, ctx, t, h, 2 * (i / 2) + 1)])
    ensures Shift(i, |auth|) == Shift(i / 2, |auth| - 1)
  {
    hide Leaf, NodeAddr;
  }

  lemma PathHead(s: Scheme, ctx: Context, t: Tree, node: Block, h: nat, i: nat, auth: seq<Block>)
    requires s.w > 0 && auth != []
    ensures node == Node(s, ctx, t, h, i) && auth == AuthPath(s, ctx, t, h, i, |auth|)
       <==> Joined(node, i, auth[0]) == [Node(s, ctx, t, h, 2 * (i / 2)), Node(s, ctx, t, h, 2 * (i / 2) + 1)]
            && auth[1..] == AuthPath(s, ctx, t, h + 1, i / 2, |auth| - 1)
  {
    hide Node;
    assert auth == [auth[0]] + auth[1..];
    var pair := [Node(s, ctx, t, h, 2 * (i / 2)), Node(s, ctx, t, h, 2 * (i / 2) + 1)];
    var own, other := Node(s, ctx, t, h, i), Node(s, ctx, t, h, Sibling(i));
    assert pair == if i % 2 == 1 then [other, own] else [own, other];
    assert Joined(node, i, auth[0]) == pair <==> node == own && auth[0] == other by {
      assert Joined(node, i, auth[0])[0] == if i % 2 == 1 then auth[0] else node;
      assert Joined(node, i, auth[0])[1] == if i % 2 == 1 then node else auth[0];
    }
  }

  // ----- one-time signatures

  /** Two values at the same place of a chain come together in one of the steps. */
  predicate ChainsMeet(s: Scheme, pub: Block, key: Key, i: nat, x: Block, y: Block, start: nat, steps: nat)
    decreases steps
  {
    steps > 0 &&
      var a := WotsAddr(key, WOTS, i % 256, start % 256);
      || Collide(s, pub, a, [x], [y])
      || ChainsMeet(s, pub, key, i, s.thash(pub, a, [x]), s.thash(pub, a, [y]), start + 1, steps - 1)
  }

  lemma {:induction false} ChainBinds(s: Scheme, pub: Block, key: Key, i: nat, x: Block, y: Block, start: nat, steps: nat)
    ensures x == y <==> Chain(s, pub, key, i, x, start, steps) == Chain(s, pub, key, i, y, start, steps)
                        && !ChainsMeet(s, pub, key, i, x, y, start, steps)
    decreases steps
  {
    if steps > 0 {
      var a := WotsAddr(key, WOTS, i % 256, start % 256);
      ChainBinds(s, pub, key, i, s.thash(pub, a, [x]), s.thash(pub, a, [y]), start + 1, steps - 1);
      assert [x] == [y] <==> x == y by { assert [x][0] == x && [y][0] == y; }
    }
  }

  /** The key's own value at a position of chain i. */
  function OwnValue(s: Scheme, ctx: Context, key: Key, i: nat, position: nat): Block {
    Chain(s, ctx.pubSeed, key, i, ChainSecret(s, ctx, key, i), 0, position)
  }

  /** A chain of the signature meets the key's own chain. */
  predicate WotsMeets(s: Scheme, ctx: Context, key: Key, sig: seq<Block>, msg: Block)
    requires s.w > 1 && |msg| == s.n && |sig| == s.WotsLen()
  {
    var lengths := ChainLengths(s, msg);
    exists i :: 0 <= i < |sig|
      && ChainsMeet(s, ctx.pubSeed, key, i, sig[i], OwnValue(s, ctx, key, i, lengths[i]), lengths[i], s.w - 1 - lengths[i])
  }

  /** A signature that completes to the public key shows the key's own values, whatever block it is for. */
  lemma WotsBinds(s: Scheme, ctx: Context, key: Key, sig: seq<Block>, msg: Block)
    requires s.w > 1 && |msg| == s.n && |sig| == s.WotsLen()
    ensures sig == WotsSign(s, ctx, key, ChainLengths(s, msg))
       <==> Wots.PublicFromSig(s, ctx.pubSeed, key, sig, msg) == WotsPublic(s, ctx, key)
            && !WotsMeets(s, ctx, key, sig, msg)
  {
    hide Chain, ChainSecret, ChainLengths, ChainsMeet;
    var lengths := ChainLengths(s, msg);
    var pk, own := Wots.PublicFromSig(s, ctx.pubSeed, key, sig, msg), WotsPublic(s, ctx, key);
    forall i | 0 <= i < |sig|
      ensures sig[i] == OwnValue(s, ctx, key, i, lengths[i])
         <==> pk[i] == own[i] && !ChainsMeet(s, ctx.pubSeed, key, i, sig[i], OwnValue(s, ctx, key, i, lengths[i]),
                                             lengths[i], s.w - 1 - lengths[i])
    {
      ChainSplit(s, ctx.pubSeed, key, i, ChainSecret(s, ctx, key, i), 0, lengths[i], s.w - 1 - lengths[i]);
      ChainBinds(s, ctx.pubSeed, key, i, sig[i], OwnValue(s, ctx, key, i, lengths[i]), lengths[i], s.w - 1 - lengths[i]);
    }
  }

  /** The signature shows a chain value nearer to the secret than the key's signature on `own` does. */
  predicate Uncovers(s: Scheme, ctx: Context, key: Key, sig: seq<Block>, msg: Block, own: Block)
    requires s.w > 1 && |msg| == |own| == s.n && |sig| == s.WotsLen()
  {
    exists i :: 0 <= i < |sig| && ChainLengths(s, msg)[i] < ChainLengths(s, own)[i]
      && sig[i] == OwnValue(s, ctx, key, i, ChainLengths(s, msg)[i])
  }

  /** That is what it takes to sign another block. */
  lemma OtherBlockUncovers(s: Scheme, ctx: Context, key: Key, sig: seq<Block>, msg: Block, own: Block)
    requires s.EncodesMessages() && |msg| == |own| == s.n && |sig| == s.WotsLen()
    requires sig == WotsSign(s, ctx, key, ChainLengths(s, msg))
    ensures Uncovers(s, ctx, key, sig, msg, own) <==> msg != own
  {
    hide ChainLengths, Chain;
    var lengths, owns := ChainLengths(s, msg), ChainLengths(s, own);
    if msg != own {
      if Dominates(lengths, owns) {
        ChainLengthsNotDominated(s, msg, own);
        assert false;
      }
      var i :| 0 <= i < |lengths| && lengths[i] < owns[i];
      SignAt(s, ctx, key, lengths, i);
    }
  }

  // ----- one layer

  /** One layer breaks: a pair of the path, the public key or a chain collides, or the key signs another block. */
  predicate LayerBroken(s: Scheme, ctx: Context, sig: seq<Block>, root: Block, tree: nat, leaf: nat, layer: nat)
    requires s.Valid() && |root| == s.n && |sig| == s.LayerBlocks()
  {
    var key, wots := Key(layer, tree, leaf), sig[..s.WotsLen()];
    var pk := Wots.PublicFromSig(s, ctx.pubSeed, key, wots, root);
    SignedValueLength(s, ctx, layer, tree, leaf);
    || PathCollides(s, ctx, Xmss(layer, tree), CompressPublic(s, ctx.pubSeed, key, pk), 0, leaf, sig[s.WotsLen()..])
    || Collide(s, ctx.pubSeed, WotsAddr(key, WOTSPK, 0, 0), pk, WotsPublic(s, ctx, key))
    || WotsMeets(s, ctx, key, wots, root)
    || Uncovers(s, ctx, key, wots, root, SignedValue(s, ctx, layer, tree, leaf))
  }

  /** A layer that leads to the root of its subtree is the signer's layer, on the block its key signs. */
  lemma LayerBinds(s: Scheme, ctx: Context, sig: seq<Block>, root: Block, tree: nat, leaf: nat, layer: nat)
    requires s.Valid() && s.EncodesMessages() && |root| == s.n && |sig| == s.LayerBlocks() && leaf < Pow(2, s.height)
    ensures root == SignedValue(s, ctx, layer, tree, leaf)
            && sig == LayerSig(s, ctx, layer, tree, leaf, ChainLengths(s, root))
       <==> LayerRoot(s, ctx.pubSeed, sig, root, tree, leaf, layer) == SubtreeRoot(s, ctx, layer, tree)
            && !LayerBroken(s, ctx, sig, root, tree, leaf, layer)
  {
    hide ComputeRoot, Node, AuthPath, ChainLengths, Pow, WotsSign, WotsPublic, Wots.PublicFromSig, PathCollides,
         WotsMeets, Uncovers, SignedValue;
    var key, t := Key(layer, tree, leaf), Xmss(layer, tree);
    var wots, auth := sig[..s.WotsLen()], sig[s.WotsLen()..];
    var pk := Wots.PublicFromSig(s, ctx.pubSeed, key, wots, root);
    var steps := ChainLengths(s, root);
    SignedValueLength(s, ctx, layer, tree, leaf);
    TopIndexZero(s.height, leaf);
    LeafIsNode(s, ctx, layer, tree, leaf);
    PathBinds(s, ctx, t, CompressPublic(s, ctx.pubSeed, key, pk), 0, leaf, auth);
    WotsBinds(s, ctx, key, wots, root);
    if wots == WotsSign(s, ctx, key, steps) {
      OtherBlockUncovers(s, ctx, key, wots, root, SignedValue(s, ctx, layer, tree, leaf));
    }
    assert sig == wots + auth;
    assert sig == LayerSig(s, ctx, layer, tree, leaf, steps)
      <==> wots == WotsSign(s, ctx, key, steps) && auth == AuthPath(s, ctx, t, 0, leaf, s.height) by {
      var own := LayerSig(s, ctx, layer, tree, leaf, steps);
      assert own[..s.WotsLen()] == WotsSign(s, ctx, key, steps) && own[s.WotsLen()..] == AuthPath(s, ctx, t, 0, leaf, s.height);
    }
  }

  // ----- all layers

  lemma NextSignsRoot(s: Scheme, ctx: Context, tree: nat, layer: nat)
    requires s.Valid()
    ensures SignedValue(s, ctx, layer + 1, ParentTree(s, tree), ParentLeaf(s, tree)) == SubtreeRoot(s, ctx, layer, tree)
  {
    hide SubtreeRoot, Pow;
    DivisionSplits(tree, Pow(2, s.height));
  }

  lemma HtSignParts(s: Scheme, ctx: Context, sig: seq<Block>, root: Block, tree: nat, leaf: nat, layer: nat)
    requires s.Valid() && layer < s.d && |root| == s.n && |sig| == BlocksFrom(s, layer)
    ensures |SubtreeRoot(s, ctx, layer, tree)| == s.n
    ensures sig == HtSign(s, ctx, root, tree, leaf, layer)
       <==> sig[..s.LayerBlocks()] == LayerSig(s, ctx, layer, tree, leaf, ChainLengths(s, root))
            && sig[s.LayerBlocks()..]
               == HtSign(s, ctx, SubtreeRoot(s, ctx, layer, tree), ParentTree(s, tree), ParentLeaf(s, tree), layer + 1)
  {
    hide LayerSig, ChainLengths, Pow, ParentTree, ParentLeaf, SubtreeRoot, HtSign;
    HtSignStep(s, ctx, root, tree, leaf, layer);
    SplitEquals(sig, LayerSig(s, ctx, layer, tree, leaf, ChainLengths(s, root)),
                HtSign(s, ctx, SubtreeRoot(s, ctx, layer, tree), ParentTree(s, tree), ParentLeaf(s, tree), layer + 1));
  }

  lemma SplitEquals(x: seq<Block>, a: seq<Block>, b: seq<Block>)
    requires |x| == |a| + |b|
    ensures x == a + b <==> x[..|a|] == a && x[|a|..] == b
  {
    assert x == x[..|a|] + x[|a|..];
    assert (a + b)[..|a|] == a && (a + b)[|a|..] == b;
  }

  /** Some layer breaks on the way up. */
  predicate HtBroken(s: Scheme, ctx: Context, sig: seq<Block>, root: Block, tree: nat, leaf: nat, layer: nat)
    requires s.Valid() && layer <= s.d && |root| == s.n && |sig| == BlocksFrom(s, layer)
    decreases s.d - layer
  {
    layer < s.d &&
      var part := sig[..s.LayerBlocks()];
      LayerRootLength(s, ctx.pubSeed, part, root, tree, leaf, layer);
      || LayerBroken(s, ctx, part, root, tree, leaf, layer)
      || HtBroken(s, ctx, sig[s.LayerBlocks()..], LayerRoot(s, ctx.pubSeed, part, root, tree, leaf, layer),
                  ParentTree(s, tree), ParentLeaf(s, tree), layer + 1)
  }

  /** From the top down: a hypertree signature that leads to the top root signs the block its lowest key signs, and is
      the signer's. */
  lemma {:induction false} HtBinds(s: Scheme, ctx: Context, sig: seq<Block>, root: Block, tree: nat, leaf: nat, layer: nat)
    requires s.Valid() && s.EncodesMessages() && layer < s.d && |root| == s.n && |sig| == BlocksFrom(s, layer)
    requires leaf < Pow(2, s.height)
    ensures root == SignedValue(s, ctx, layer, tree, leaf) && sig == HtSign(s, ctx, root, tree, leaf, layer)
       <==> HtVerify(s, ctx.pubSeed, sig, root, tree, leaf, layer)
              == SubtreeRoot(s, ctx, s.d - 1, TreeAt(s, tree, s.d - 1 - layer))
            && !HtBroken(s, ctx, sig, root, tree, leaf, layer)
    decreases s.d - layer
  {
    hide LayerSig, LayerRoot, LayerBroken, ChainLengths, SubtreeRoot, Pow, ParentTree, ParentLeaf, SignedValue;
    var part, rest := sig[..s.LayerBlocks()], sig[s.LayerBlocks()..];
    var next := LayerRoot(s, ctx.pubSeed, part, root, tree, leaf, layer);
    LayerRootLength(s, ctx.pubSeed, part, root, tree, leaf, layer);
    RootLength(s, ctx, layer, tree);
    LayerBinds(s, ctx, part, root, tree, leaf, layer);
    HtSignParts(s, ctx, sig, root, tree, leaf, layer);
    if layer + 1 < s.d {
      NextSignsRoot(s, ctx, tree, layer);
      HtBinds(s, ctx, rest, next, ParentTree(s, tree), ParentLeaf(s, tree), layer + 1);
    }
  }

  // ----- FORS

  /** FORS tree t breaks: the secret shown or a pair of the path collides. */
  predicate ForsTreeBroken(s: Scheme, ctx: Context, key: Tree, m: seq<byte>, part: seq<Block>, t: nat)
    requires s.w > 0 && t < s.forsTrees && |m| * 8 >= s.forsTrees * s.forsHeight && |part| == s.forsHeight + 1
  {
    var i := Fors.ForsLeafIndex(s, m, t);
    || Collide(s, ctx.pubSeed, NodeAddr(key, 0, i), [part[0]], [ForsSecret(s, ctx, key, i)])
    || PathCollides(s, ctx, key, ForsLeaf(s, ctx.pubSeed, key, i, part[0]), 0, i, part[1..])
  }

  lemma ForsTreeBinds(s: Scheme, ctx: Context, key: Tree, m: seq<byte>, part: seq<Block>, t: nat)
    requires s.w > 0 && key.Fors? && t < s.forsTrees && |m| * 8 >= s.forsTrees * s.forsHeight && |part| == s.forsHeight + 1
    ensures part == ForsPart(s, ctx, key, m, t)
       <==> ForsRoot(s, ctx.pubSeed, key, m, part, t) == Node(s, ctx, key, s.forsHeight, t)
            && !ForsTreeBroken(s, ctx, key, m, part, t)
  {
    hide ComputeRoot, AuthPath, NodeAddr, PathCollides, Fors.ForsLeafIndex, ForsSecret, Node;
    var i := Fors.ForsLeafIndex(s, m, t);
    var secret := ForsSecret(s, ctx, key, i);
    Fors.ForsIndexTop(s, m, t);
    Fors.ForsLeafIsNode(s, ctx, key, i);
    PathBinds(s, ctx, key, ForsLeaf(s, ctx.pubSeed, key, i, part[0]), 0, i, part[1..]);
    assert [part[0]] == [secret] <==> part[0] == secret by { assert [part[0]][0] == part[0] && [secret][0] == secret; }
    SplitEquals(part, [secret], AuthPath(s, ctx, key, 0, i, s.forsHeight));
    assert part[..1] == [part[0]];
  }

  predicate ForsBroken(s: Scheme, ctx: Context, key: Tree, m: seq<byte>, sig: seq<Block>, t: nat)
    requires s.w > 0 && t <= s.forsTrees && |m| * 8 >= s.forsTrees * s.forsHeight && |sig| == Fors.BlocksFrom(s, t)
    decreases s.forsTrees - t
  {
    t < s.forsTrees && (
      || ForsTreeBroken(s, ctx, key, m, sig[..s.forsHeight + 1], t)
      || ForsBroken(s, ctx, key, m, sig[s.forsHeight + 1..], t + 1))
  }

  /** A FORS signature that leads to the key's roots is the signer's on that digest. */
  lemma {:induction false} ForsBinds(s: Scheme, ctx: Context, key: Tree, m: seq<byte>, sig: seq<Block>, t: nat)
    requires s.w > 0 && key.Fors? && t <= s.forsTrees && |m| * 8 >= s.forsTrees * s.forsHeight
    requires |sig| == Fors.BlocksFrom(s, t)
    ensures sig == Fors.ForsSign(s, ctx, key, m, t)
       <==> Fors.RootsFromSig(s, ctx.pubSeed, key, m, sig, t) == Fors.ForsRoots(s, ctx, key, t)
            && !ForsBroken(s, ctx, key, m, sig, t)
    decreases s.forsTrees - t
  {
    hide ForsRoot, ForsPart, ForsTreeBroken, Node, Fors.RootsFromSig, Fors.ForsRoots, Fors.ForsSign;
    if t == s.forsTrees {
      ForsRootsEnd(s, ctx.pubSeed, key, m, sig);
      ForsSignEnd(s, ctx, key, m);
    } else {
      ForsTreeBinds(s, ctx, key, m, sig[..s.forsHeight + 1], t);
      ForsBinds(s, ctx, key, m, sig[s.forsHeight + 1..], t + 1);
      ForsSignStep(s, ctx, key, m, t);
      SplitEquals(sig, ForsPart(s, ctx, key, m, t), Fors.ForsSign(s, ctx, key, m, t + 1));
      ForsRootsHead(s, ctx, key, m, sig, t);
    }
  }

  lemma ForsRootsHead(s: Scheme, ctx: Context, key: Tree, m: seq<byte>, sig: seq<Block>, t: nat)
    requires s.w > 0 && key.Fors? && t < s.forsTrees && |m| * 8 >= s.forsTrees * s.forsHeight
    requires |sig| == Fors.BlocksFrom(s, t)
    ensures Fors.RootsFromSig(s, ctx.pubSeed, key, m, sig, t) == Fors.ForsRoots(s, ctx, key, t)
       <==> ForsRoot(s, ctx.pubSeed, key, m, sig[..s.forsHeight + 1], t) == Node(s, ctx, key, s.forsHeight, t)
            && Fors.RootsFromSig(s, ctx.pubSeed, key, m, sig[s.forsHeight + 1..], t + 1)
               == Fors.ForsRoots(s, ctx, key, t + 1)
  {
    hide ForsRoot, Node, Fors.RootsFromSig, Fors.ForsRoots;
    ForsRootsStep(s, ctx.pubSeed, key, m, sig, t);
    ForsSignStep(s, ctx, key, m, t);
    var x, y := Fors.RootsFromSig(s, ctx.pubSeed, key, m, sig, t), Fors.ForsRoots(s, ctx, key, t);
    assert x[0] == ForsRoot(s, ctx.pubSeed, key, m, sig[..s.forsHeight + 1], t);
    assert x[1..] == Fors.RootsFromSig(s, ctx.pubSeed, key, m, sig[s.forsHeight + 1..], t + 1);
    assert y[0] == Node(s, ctx, key, s.forsHeight, t) && y[1..] == Fors.ForsRoots(s, ctx, key, t + 1);
  }

  // ----- the whole signature

  /** The signature shows a break in FORS, in the FORS public key, or in some layer. */
  predicate Broken(s: Scheme, ctx: Context, sig: seq<Block>, dg: Digest)
    requires s.Valid() && |dg.mhash| * 8 >= s.forsTrees * s.forsHeight
    requires |sig| == 1 + Fors.BlocksFrom(s, 0) + BlocksFrom(s, 0)
  {
    var tree, leaf, at := TreeIndex(s, dg), LeafIndex(s, dg), 1 + Fors.BlocksFrom(s, 0);
    var key, fors := Fors.ForsKey(tree, leaf), sig[1..at];
    var roots := Fors.RootsFromSig(s, ctx.pubSeed, key, dg.mhash, fors, 0);
    || Collide(s, ctx.pubSeed, Fors.ForsPkAddr(key), roots, Fors.ForsRoots(s, ctx, key, 0))
    || ForsBroken(s, ctx, key, dg.mhash, fors, 0)
    || HtBroken(s, ctx, sig[at..], Fors.PublicFromSig(s, ctx.pubSeed, key, dg.mhash, fors), tree, leaf, 0)
  }

  /** For every key, message and signature: what is accepted and shows no break is exactly what the signer makes with
      that randomizer; everything else is rejected or shows a break. The signer's own signatures show none. */
  lemma AcceptedIffSigned(s: Scheme, seed: seq<byte>, sig: seq<Block>, m: seq<byte>)
    requires s.Valid() && s.EncodesMessages() && |seed| == 3 * s.n
    requires |sig| == 1 + Fors.BlocksFrom(s, 0) + BlocksFrom(s, 0)
    ensures var ctx, pk := Context(seed[2 * s.n..], seed[..s.n]), PublicKey(s, seed);
            var dg := s.messageDigest(sig[0], pk, m);
            sig[1..] == SignDigest(s, ctx, dg) <==> Accepts(s, sig, m, pk) && !Broken(s, ctx, sig, dg)
  {
    hide HtSign, HtVerify, HtBroken, Fors.ForsSign, Fors.ForsRoots, Fors.RootsFromSig, ForsBroken, SubtreeRoot, Pow, TreeAt,
         LeafIndex, TreeIndex;
    KeyParts(s, seed);
    var ctx, pk := Context(seed[2 * s.n..], seed[..s.n]), PublicKey(s, seed);
    var dg := s.messageDigest(sig[0], pk, m);
    var tree, leaf, at := TreeIndex(s, dg), LeafIndex(s, dg), 1 + Fors.BlocksFrom(s, 0);
    var key, fors := Fors.ForsKey(tree, leaf), sig[1..at];
    var root := Fors.PublicFromSig(s, ctx.pubSeed, key, dg.mhash, fors);
    ForsBinds(s, ctx, key, dg.mhash, fors, 0);
    TopOfDigest(s, dg);
    HtBinds(s, ctx, sig[at..], root, tree, leaf, 0);
    assert sig[1..][..at - 1] == fors && sig[1..][at - 1..] == sig[at..];
    SplitEquals(sig[1..], Fors.ForsSign(s, ctx, key, dg.mhash, 0), SuffixOf(s, ctx, tree, leaf, 0));
  }

  lemma TopOfDigest(s: Scheme, dg: Digest)
    requires s.Valid()
    ensures TreeAt(s, TreeIndex(s, dg), s.d - 1) == 0
  {
    hide TreeAt;
    TopTreeIsZero(s, TreeIndex(s, dg), s.d - 1);
  }

  /** Two public keys with the same seed that accept one signature under one digest have the same root: a change in the
      root half of the public key alone is always noticed. */
  lemma OneRootOnly(s: Scheme, pub: Block, r: Block, q: Block, sig: seq<Block>, m: seq<byte>)
    requires s.Valid() && |pub| == |r| == |q| == s.n && |sig| == 1 + Fors.BlocksFrom(s, 0) + BlocksFrom(s, 0)
    requires s.messageDigest(sig[0], pub + r, m) == s.messageDigest(sig[0], pub + q, m)
    ensures Accepts(s, sig, m, pub + r) && Accepts(s, sig, m, pub + q) ==> r == q
  {
    hide HtVerify, Fors.PublicFromSig, TreeIndex, LeafIndex;
    assert (pub + r)[..s.n] == pub == (pub + q)[..s.n];
    assert (pub + r)[s.n..] == r && (pub + q)[s.n..] == q;
  }
}
