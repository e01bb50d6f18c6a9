/**
 The verifier's side, with the hash addresses it keeps: completing WOTS+ chains, climbing authentication paths,
 and the loops over the FORS trees and over the layers.
 */
module SphincsVerify {
  import opened Bytes
  import opened SphincsParams
  import opened BlockBuffer
  import opened Wots
  import opened Merkle
  import Fors
  import opened Hypertree

  // ----- WOTS+

  /** An address of one key: the leaf generator and the verifier only change chain and hash position. */
  ghost predicate KeyAddrOf(a: Address, key: Key) {
    a.layer == key.layer % 256 && a.tree == key.tree % 0x1_0000_0000_0000_0000 && a.keypair == key.leaf % 256
    && a.typ == WOTS && a.index < 256
  }

  /** gen_chain, as the verifier uses it: from position `start` to the end of the chain. */
  method CompleteChain(s: Scheme, pub: Block, ghost key: Key, i: nat, x: Block, start: nat, addr0: Address)
    returns (value: Block, addr: Address)
    requires start < s.w && KeyAddrOf(addr0, key) && addr0.chain == i % 256
    ensures value == Chain(s, pub, key, i, x, start, s.w - 1 - start)
    ensures KeyAddrOf(addr, key)
  {
    value, addr := x, addr0;
    var k := start;
    while k < s.w - 1
      invariant start <= k < s.w && KeyAddrOf(addr, key) && addr.chain == i % 256
      invariant value == Chain(s, pub, key, i, x, start, k - start)
    {
      addr := addr.SetHash(k);
      ChainSplit(s, pub, key, i, x, start, k - start, 1);
      value := s.thash(pub, addr, [value]);
      k := k + 1;
    }
  }

  /** wots_pk_from_sig: the completed chains are the public key the signature stands for. */
  method WotsPkFromSig(s: Scheme, pub: Block, ghost key: Key, sig: seq<Block>, msg: Block, addr0: Address)
    returns (pk: seq<Block>, addr: Address)
    requires s.w > 1 && |msg| == s.n && |sig| == s.WotsLen() && KeyAddrOf(addr0, key)
    ensures pk == Wots.PublicFromSig(s, pub, key, sig, msg)
    ensures KeyAddrOf(addr, key)
  {
    hide Chain, ChainLengths;
    var lengths := ChainLengths(s, msg);
    pk, addr := [], addr0;
    for i := 0 to s.WotsLen()
      invariant KeyAddrOf(addr, key)
      invariant pk == Wots.PublicFromSig(s, pub, key, sig, msg)[..i]
    {
      var value;
      addr := addr.SetChain(i);
      value, addr := CompleteChain(s, pub, key, i, sig[i], lengths[i], addr);
      pk := pk + [value];
    }
  }

  // ----- authentication paths

  /** One level up: the offset of a FORS tree is halved with the index. */
  lemma HalvesAdd(i: nat, offset: nat, m: nat, levels: nat)
    requires levels > 0 && offset == m * Pow(2, levels)
    ensures offset / 2 == m * Pow(2, levels - 1)
    ensures (i + offset) / 2 == i / 2 + offset / 2 && (i + offset) % 2 == i % 2
  {
  }

  /** compute_root: climbs with a pair of blocks and the tree's address; `offset0` is the place of the tree in an
      index space that several trees share. */
  method ClimbPath(s: Scheme, pub: Block, ghost t: Tree, leaf: Block, leafIdx0: nat, offset0: nat, ghost m: nat,
                   auth: seq<Block>, addr0: Address)
    returns (root: Block, addr: Address)
    requires |auth| > 0 && offset0 == m * Pow(2, |auth|) && InTree(addr0, t)
    ensures root == ComputeRoot(s, pub, t, leaf, 0, leafIdx0 + offset0, auth)
    ensures InTree(addr, t)
  {
    hide Pow, NodeAddr;
    var height := |auth|;
    var leafIdx, offset := leafIdx0, offset0;
    var left, right := leaf, auth[0];
    if leafIdx % 2 == 1 {
      left, right := auth[0], leaf;
    }
    addr := addr0;
    ghost var node := leaf;
    for i := 0 to height - 1
      invariant offset == m * Pow(2, height - i) && InTree(addr, t)
      invariant if leafIdx % 2 == 1 then left == auth[i] && right == node else left == node && right == auth[i]
      invariant ComputeRoot(s, pub, t, node, i, leafIdx + offset, auth[i..])
             == ComputeRoot(s, pub, t, leaf, 0, leafIdx0 + offset0, auth)
    {
      HalvesAdd(leafIdx, offset, m, height - i);
      leafIdx, offset := leafIdx / 2, offset / 2;
      NodeAddress(addr, t, i + 1, leafIdx + offset);
      addr := addr.SetTreeHeight(i + 1).SetTreeIndex(leafIdx + offset);
      var up := s.thash(pub, addr, [left, right]);
      node := up;
      if leafIdx % 2 == 1 {
        left, right := auth[i + 1], up;
      } else {
        left, right := up, auth[i + 1];
      }
    }
    HalvesAdd(leafIdx, offset, m, 1);
    leafIdx, offset := leafIdx / 2, offset / 2;
    NodeAddress(addr, t, height, leafIdx + offset);
    addr := addr.SetTreeHeight(height).SetTreeIndex(leafIdx + offset);
    root := s.thash(pub, addr, [left, right]);
    assert auth[height - 1..][1..] == [];
  }

  // ----- FORS

  /** The root of FORS tree t from its part of the signature. */
  function ForsRoot(s: Scheme, pub: Block, key: Tree, m: seq<byte>, part: seq<Block>, t: nat): Block
    requires t < s.forsTrees && |m| * 8 >= s.forsTrees * s.forsHeight && |part| == s.forsHeight + 1
  {
    var i := Fors.ForsLeafIndex(s, m, t);
    ComputeRoot(s, pub, key, ForsLeaf(s, pub, key, i, part[0]), 0, i, part[1..])
  }

  lemma ForsRootsStep(s: Scheme, pub: Block, key: Tree, m: seq<byte>, sig: seq<Block>, t: nat)
    requires t < s.forsTrees && |m| * 8 >= s.forsTrees * s.forsHeight && |sig| == Fors.BlocksFrom(s, t)
    ensures Fors.RootsFromSig(s, pub, key, m, sig, t)
         == [ForsRoot(s, pub, key, m, sig[..s.forsHeight + 1], t)]
            + Fors.RootsFromSig(s, pub, key, m, sig[s.forsHeight + 1..], t + 1)
  {
  }

  /** One iteration of fors_pk_from_sig. */
  method ForsRootFromSig(s: Scheme, pub: Block, ghost key: Tree, m: seq<byte>, part: seq<Block>, t: nat, addr0: Address)
    returns (root: Block, addr: Address)
    requires s.Valid() && t < s.forsTrees && |m| * 8 >= s.forsTrees * s.forsHeight && |part| == s.forsHeight + 1
    requires InTree(addr0, key)
    ensures root == ForsRoot(s, pub, key, m, part, t)
    ensures InTree(addr, key)
  {
    hide ComputeRoot, Fors.BitsValue, Pow, NodeAddr;
    Fors.BitsInside(s.forsTrees, s.forsHeight, t);
    var index, offset := Fors.BitsValue(m, t * s.forsHeight, s.forsHeight), t * Pow(2, s.forsHeight);
    NodeAddress(addr0, key, 0, index + offset);
    addr := addr0.SetTreeHeight(0).SetTreeIndex(index + offset);
    var leaf := s.thash(pub, addr, [part[0]]);
    root, addr := ClimbPath(s, pub, key, leaf, index, offset, t, part[1..], addr);
  }

  /** fors_pk_from_sig with the address of the WOTS+ key above. */
  method ForsPkFromSig(s: Scheme, pub: Block, m: seq<byte>, sig: seq<Block>, wotsAddr: Address) returns (pk: Block)
    requires s.Valid() && |m| * 8 >= s.forsTrees * s.forsHeight && |sig| == Fors.BlocksFrom(s, 0)
    requires wotsAddr.layer == 0 && wotsAddr.tree < 0x1_0000_0000_0000_0000 && wotsAddr.keypair < 256
    ensures pk == Fors.PublicFromSig(s, pub, Tree.Fors(wotsAddr.tree, wotsAddr.keypair), m, sig)
  {
    hide ForsRoot, Fors.RootsFromSig;
    ghost var key := Tree.Fors(wotsAddr.tree, wotsAddr.keypair);
    var treeAddr := ZERO_ADDRESS.CopyKeypair(wotsAddr).SetType(FORSTREE);
    var pkAddr := ZERO_ADDRESS.CopyKeypair(wotsAddr).SetType(FORSPK);
    var roots: seq<Block>, at: nat, size := [], 0, s.forsHeight + 1;
    assert sig[0..] == sig;
    ghost var all := Fors.RootsFromSig(s, pub, key, m, sig, 0);
    for t := 0 to s.forsTrees
      invariant at + Fors.BlocksFrom(s, t) == |sig| && InTree(treeAddr, key)
      invariant roots + Fors.RootsFromSig(s, pub, key, m, sig[at..], t) == all
    {
      ForsRootsStep(s, pub, key, m, sig[at..], t);
      assert sig[at..][..size] == sig[at..at + size] && sig[at..][size..] == sig[at + size..];
      var root;
      root, treeAddr := ForsRootFromSig(s, pub, key, m, sig[at..at + size], t, treeAddr);
      roots := roots + [root];
      at := at + size;
    }
    ForsRootsEnd(s, pub, key, m, sig[at..]);
    assert roots + [] == roots;
    pk := s.thash(pub, pkAddr, roots);
  }

  lemma ForsRootsEnd(s: Scheme, pub: Block, key: Tree, m: seq<byte>, sig: seq<Block>)
    requires |m| * 8 >= s.forsTrees * s.forsHeight && sig == []
    ensures Fors.BlocksFrom(s, s.forsTrees) == 0 && Fors.RootsFromSig(s, pub, key, m, sig, s.forsTrees) == []
  {
  }

  // ----- the layers

  lemma HtVerifyStep(s: Scheme, pub: Block, sig: seq<Block>, root: Block, tree: nat, leaf: nat, layer: nat)
    requires s.Valid() && layer < s.d && |root| == s.n && |sig| == BlocksFrom(s, layer)
    ensures |LayerRoot(s, pub, sig[..s.LayerBlocks()], root, tree, leaf, layer)| == s.n
    ensures HtVerify(s, pub, sig, root, tree, leaf, layer)
         == HtVerify(s, pub, sig[s.LayerBlocks()..], LayerRoot(s, pub, sig[..s.LayerBlocks()], root, tree, leaf, layer),
                     ParentTree(s, tree), ParentLeaf(s, tree), layer + 1)
  {
    LayerRootLength(s, pub, sig[..s.LayerBlocks()], root, tree, leaf, layer);
  }

  /** One iteration: the root of this layer from the signature's part, through the three addresses. */
  method VerifyLayer(s: Scheme, pub: Block, sig: seq<Block>, root0: Block, ghost tree: nat, leaf: nat, ghost layer: nat,
                     wotsAddr0: Address, treeAddr0: Address, wotsPkAddr0: Address)
    returns (root: Block, wotsAddr: Address, treeAddr: Address, wotsPkAddr: Address)
    requires s.Valid() && |root0| == s.n && |sig| == s.LayerBlocks()
    requires wotsAddr0.typ == WOTS && wotsAddr0.index < 256
    requires InTree(treeAddr0, Xmss(layer, tree))
    requires wotsPkAddr0.typ == WOTSPK && wotsPkAddr0.chain == 0 && wotsPkAddr0.index == 0
    ensures root == LayerRoot(s, pub, sig, root0, tree, leaf, layer)
    ensures wotsAddr.typ == WOTS && wotsAddr.index < 256
    ensures InTree(treeAddr, Xmss(layer, tree))
    ensures wotsPkAddr.typ == WOTSPK && wotsPkAddr.chain == 0 && wotsPkAddr.index == 0
  {
    hide ComputeRoot, ChainLengths, Chain, Pow;
    ghost var key := Key(layer, tree, leaf);
    wotsAddr := wotsAddr0.CopySubtree(treeAddr0).SetKeypair(leaf);
    wotsPkAddr := wotsPkAddr0.CopyKeypair(wotsAddr);
    var wotsPk;
    wotsPk, wotsAddr := WotsPkFromSig(s, pub, key, sig[..s.WotsLen()], root0, wotsAddr);
    var leafBlock := s.thash(pub, wotsPkAddr, wotsPk);
    root, treeAddr := ClimbPath(s, pub, Xmss(layer, tree), leafBlock, leaf, 0, 0, sig[s.WotsLen()..], treeAddr0);
  }

  /** The verifying loop. */
  method VerifyLayers(s: Scheme, pub: Block, root0: Block, tree0: nat, leaf0: nat,
                      wotsAddr0: Address, treeAddr0: Address, wotsPkAddr0: Address,
                      buf: array<byte>, ghost cnt: nat, at0: nat)
    returns (root: Block)
    requires s.Valid() && Fits(buf, s.n, cnt) && |root0| == s.n && at0 + BlocksFrom(s, 0) == cnt
    requires wotsAddr0.typ == WOTS && wotsAddr0.index < 256
    requires treeAddr0.typ == HASHTREE && treeAddr0.keypair == 0
    requires wotsPkAddr0.typ == WOTSPK && wotsPkAddr0.chain == 0 && wotsPkAddr0.index == 0
    ensures root == HtVerify(s, pub, View(buf, s.n, cnt)[at0..], root0, tree0, leaf0, 0)
  {
    hide Fits, View, HtVerify, LayerRoot, Pow, ParentTree, ParentLeaf;
    ghost var sig := View(buf, s.n, cnt);
    var tree: nat, leaf: nat, at: nat := tree0, leaf0, at0;
    var wotsAddr, treeAddr, wotsPkAddr := wotsAddr0, treeAddr0, wotsPkAddr0;
    root := root0;
    for i := 0 to s.d
      invariant |root| == s.n && at + BlocksFrom(s, i) == cnt
      invariant wotsAddr.typ == WOTS && wotsAddr.index < 256
      invariant treeAddr.typ == HASHTREE && treeAddr.keypair == 0
      invariant wotsPkAddr.typ == WOTSPK && wotsPkAddr.chain == 0 && wotsPkAddr.index == 0
      invariant HtVerify(s, pub, sig[at..], root, tree, leaf, i) == HtVerify(s, pub, sig[at0..], root0, tree0, leaf0, 0)
    {
      HtVerifyStep(s, pub, sig[at..], root, tree, leaf, i);
      treeAddr := treeAddr.SetLayer(i).SetTree(tree);
      var part := GetBlocks(buf, s.n, cnt, at, s.LayerBlocks());
      assert part == sig[at..][..s.LayerBlocks()];
      assert sig[at..][s.LayerBlocks()..] == sig[at + s.LayerBlocks()..];
      root, wotsAddr, treeAddr, wotsPkAddr :=
        VerifyLayer(s, pub, part, root, tree, leaf, i, wotsAddr, treeAddr, wotsPkAddr);
      at := at + s.LayerBlocks();
      leaf := ParentLeaf(s, tree);
      tree := ParentTree(s, tree);
    }
    HtVerifyEnd(s, pub, sig[at..], root, tree, leaf);
  }

  lemma HtVerifyEnd(s: Scheme, pub: Block, sig: seq<Block>, root: Block, tree: nat, leaf: nat)
    requires s.Valid() && |root| == s.n && sig == []
    ensures HtVerify(s, pub, sig, root, tree, leaf, s.d) == root
  {
  }
}
