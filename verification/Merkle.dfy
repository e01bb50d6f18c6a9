/**
 Merkle trees over WOTS+ keys and over FORS secrets (FIPS 205, sections 6 and 8), defined node by node,
 and the one-pass tree hash that computes a root, an authentication path and a WOTS+ signature together.
 */
module Merkle {
  import opened Bytes
  import opened SphincsParams
  import opened BlockBuffer
  import opened Wots

  /** The two kinds of tree. FORS trees of one key share an index space: tree t starts at t * 2^height. */
  datatype Tree = Xmss(layer: nat, tree: nat) | Fors(tree: nat, keypair: nat)

  function NodeAddr(t: Tree, h: nat, i: nat): Address {
    match t
    case Xmss(layer, tree) =>
      Address(layer % 256, tree % 0x1_0000_0000_0000_0000, HASHTREE, 0, h % 256, i % 0x1_0000_0000)
    case Fors(tree, keypair) =>
      Address(0, tree % 0x1_0000_0000_0000_0000, FORSTREE, keypair % 256, h % 256, i % 0x1_0000_0000)
  }

  function ForsSecret(s: Scheme, ctx: Context, t: Tree, i: nat): Block {
    s.prf(ctx.pubSeed, ctx.skSeed, NodeAddr(t, 0, i).SetType(FORSPRF))
  }

  function ForsLeaf(s: Scheme, pub: Block, t: Tree, i: nat, secret: Block): Block {
    s.thash(pub, NodeAddr(t, 0, i), [secret])
  }

  function Leaf(s: Scheme, ctx: Context, t: Tree, i: nat): Block
    requires s.w > 0
  {
    match t
    case Xmss(layer, tree) => WotsLeaf(s, ctx, Key(layer, tree, i))
    case Fors(_, _) => ForsLeaf(s, ctx.pubSeed, t, i, ForsSecret(s, ctx, t, i))
  }

  function Join(s: Scheme, pub: Block, t: Tree, h: nat, i: nat, left: Block, right: Block): Block {
    s.thash(pub, NodeAddr(t, h, i), [left, right])
  }

  /** Node i at height h. */
  function Node(s: Scheme, ctx: Context, t: Tree, h: nat, i: nat): Block
    requires s.w > 0
    decreases h
  {
    if h == 0 then Leaf(s, ctx, t, i)
    else Join(s, ctx.pubSeed, t, h, i, Node(s, ctx, t, h - 1, 2 * i), Node(s, ctx, t, h - 1, 2 * i + 1))
  }

  /** The siblings on the way up from node i at height h, through `count` levels. */
  function AuthPath(s: Scheme, ctx: Context, t: Tree, h: nat, i: nat, count: nat): (r: seq<Block>)
    requires s.w > 0
    ensures |r| == count
    decreases count
  {
    if count == 0 then [] else
      [Node(s, ctx, t, h, Sibling(i))] + AuthPath(s, ctx, t, h + 1, i / 2, count - 1)
  }

  /** compute_root: climb from a node with the siblings of an authentication path. */
  function ComputeRoot(s: Scheme, pub: Block, t: Tree, node: Block, h: nat, i: nat, auth: seq<Block>): Block
    decreases |auth|
  {
    if auth == [] then node else
      var up := if i % 2 == 1 then Join(s, pub, t, h + 1, i / 2, auth[0], node)
                else Join(s, pub, t, h + 1, i / 2, node, auth[0]);
      ComputeRoot(s, pub, t, up, h + 1, i / 2, auth[1..])
  }

  lemma ParentJoins(s: Scheme, ctx: Context, t: Tree, h: nat, i: nat)
    requires s.w > 0
    ensures Node(s, ctx, t, h + 1, i / 2)
         == if i % 2 == 1 then Join(s, ctx.pubSeed, t, h + 1, i / 2, Node(s, ctx, t, h, Sibling(i)), Node(s, ctx, t, h, i))
            else Join(s, ctx.pubSeed, t, h + 1, i / 2, Node(s, ctx, t, h, i), Node(s, ctx, t, h, Sibling(i)))
  {
    hide Join, Leaf;
    assert i % 2 == 1 ==> Sibling(i) == 2 * (i / 2) && i == 2 * (i / 2) + 1;
    assert i % 2 == 0 ==> i == 2 * (i / 2) && Sibling(i) == 2 * (i / 2) + 1;
  }

  /** The path of any node leads back to its ancestor. */
  lemma {:induction false} AuthPathLeadsUp(s: Scheme, ctx: Context, t: Tree, h: nat, i: nat, count: nat)
    requires s.w > 0
    ensures ComputeRoot(s, ctx.pubSeed, t, Node(s, ctx, t, h, i), h, i, AuthPath(s, ctx, t, h, i, count))
         == Node(s, ctx, t, h + count, Shift(i, count))
    decreases count
  {
    hide Join, Leaf;
    if count > 0 {
      var auth := AuthPath(s, ctx, t, h, i, count);
      assert auth[0] == Node(s, ctx, t, h, Sibling(i));
      assert auth[1..] == AuthPath(s, ctx, t, h + 1, i / 2, count - 1);
      ParentJoins(s, ctx, t, h, i);
      AuthPathLeadsUp(s, ctx, t, h + 1, i / 2, count - 1);
    }
  }

  lemma {:induction false} AuthPathAt(s: Scheme, ctx: Context, t: Tree, h: nat, i: nat, count: nat, k: nat)
    requires s.w > 0 && k < count
    ensures AuthPath(s, ctx, t, h, i, count)[k] == Node(s, ctx, t, h + k, Sibling(Shift(i, k)))
    decreases k
  {
    hide Node;
    if k > 0 {
      AuthPathAt(s, ctx, t, h + 1, i / 2, count - 1, k - 1);
    }
  }

  lemma NodeLength(s: Scheme, ctx: Context, t: Tree, h: nat, i: nat)
    requires s.Valid()
    ensures |Node(s, ctx, t, h, i)| == s.n
  {
  }

  lemma AuthPathLength(s: Scheme, ctx: Context, t: Tree, h: nat, i: nat, count: nat)
    requires s.Valid()
    ensures AllLength(AuthPath(s, ctx, t, h, i, count), s.n)
  {
    forall k | 0 <= k < count ensures |AuthPath(s, ctx, t, h, i, count)[k]| == s.n {
      AuthPathAt(s, ctx, t, h, i, count, k);
      NodeLength(s, ctx, t, h + k, Sibling(Shift(i, k)));
    }
  }

  // ----- the tree hash

  /** What one layer of a signature holds: the WOTS+ signature and the authentication path. */
  function LayerSig(s: Scheme, ctx: Context, layer: nat, tree: nat, leaf: nat, steps: seq<nat>): (r: seq<Block>)
    requires s.w > 0
    ensures |r| == |steps| + s.height
  {
    WotsSign(s, ctx, Key(layer, tree, leaf), steps) + AuthPath(s, ctx, Xmss(layer, tree), 0, leaf, s.height)
  }

  /** A subtree of some height with its place among those that share an index space. */
  datatype Subtree = Subtree(t: Tree, height: nat, top: nat) {
    /** Where its nodes at height h begin. */
    function Offset(h: nat): nat { if h <= height then top * Pow(2, height - h) else 0 }
  }

  /** Node i at height h, counted within the subtree. */
  function SubNode(s: Scheme, ctx: Context, u: Subtree, h: nat, i: nat): Block
    requires s.w > 0
  {
    Node(s, ctx, u.t, h, i + u.Offset(h))
  }

  lemma OffsetHalves(u: Subtree, h: nat)
    requires h < u.height
    ensures u.Offset(h) == 2 * u.Offset(h + 1)
  {
    var top, p := u.top, Pow(2, u.height - h - 1);
    assert top * (2 * p) == 2 * (top * p);
  }

  lemma {:induction false} OffsetShifts(u: Subtree, i: nat, j: nat)
    requires j <= u.height
    ensures Shift(i + u.Offset(0), j) == Shift(i, j) + u.Offset(j)
    decreases j
  {
    if j > 0 {
      OffsetShifts(u, i, j - 1);
      OffsetHalves(u, j - 1);
      ShiftStep(i + u.Offset(0), j - 1);
      ShiftStep(i, j - 1);
    }
  }

  /** An address of one tree: only height and index within the tree differ. */
  ghost predicate InTree(a: Address, t: Tree) {
    a.(chain := 0, index := 0) == NodeAddr(t, 0, 0)
  }

  lemma NodeAddress(a: Address, t: Tree, h: nat, i: nat)
    requires InTree(a, t)
    ensures a.SetTreeHeight(h).SetTreeIndex(i) == NodeAddr(t, h, i)
    ensures InTree(NodeAddr(t, h, i), t)
  {
  }

  /** The path region once every node left of `idx` is done, and below height `h` node `idx` as well. */
  ghost function PathSoFar(s: Scheme, ctx: Context, u: Subtree, signLeaf: nat, idx: nat, h: nat, prior: seq<Block>)
    : (r: seq<Block>)
    requires s.w > 0
    ensures |r| == |prior|
  {
    seq(|prior|, j requires 0 <= j < |prior| =>
      if Sibling(Shift(signLeaf, j)) < Shift(if j < h then idx + 1 else idx, j)
      then SubNode(s, ctx, u, j, Sibling(Shift(signLeaf, j))) else prior[j])
  }

  ghost predicate TrailingOnes(idx: nat, h: nat) {
    forall j :: 0 <= j < h ==> Shift(idx, j) % 2 == 1
  }

  /** Every left sibling still waiting for its right half is on the stack. */
  ghost predicate StackHolds(s: Scheme, ctx: Context, u: Subtree, idx: nat, stack: seq<Block>)
    requires s.w > 0
  {
    forall j :: 0 <= j < |stack| && Shift(idx, j) % 2 == 1 ==> stack[j] == SubNode(s, ctx, u, j, Shift(idx, j) - 1)
  }

  lemma PathNextLevel(s: Scheme, ctx: Context, u: Subtree, signLeaf: nat, idx: nat, h: nat, prior: seq<Block>)
    requires s.w > 0 && TrailingOnes(idx, h) && h < |prior|
    ensures PathSoFar(s, ctx, u, signLeaf, idx, h + 1, prior)
         == if Shift(idx, h) == Sibling(Shift(signLeaf, h))
            then PathSoFar(s, ctx, u, signLeaf, idx, h, prior)[h := SubNode(s, ctx, u, h, Shift(idx, h))]
            else PathSoFar(s, ctx, u, signLeaf, idx, h, prior)
  {
    hide SubNode;
    ShiftSuccessor(idx, h, h);
  }

  lemma PathNextLeaf(s: Scheme, ctx: Context, u: Subtree, signLeaf: nat, idx: nat, h: nat, prior: seq<Block>)
    requires s.w > 0 && TrailingOnes(idx, h) && Shift(idx, h) % 2 == 0
    ensures PathSoFar(s, ctx, u, signLeaf, idx, h + 1, prior) == PathSoFar(s, ctx, u, signLeaf, idx + 1, 0, prior)
  {
    hide SubNode;
    forall j | h < j < |prior| ensures Shift(idx + 1, j) == Shift(idx, j) {
      ShiftSuccessor(idx, h, j);
    }
  }

  lemma StackNextLeaf(s: Scheme, ctx: Context, u: Subtree, idx: nat, h: nat, stack: seq<Block>)
    requires s.w > 0 && TrailingOnes(idx, h) && Shift(idx, h) % 2 == 0 && h < |stack|
    requires StackHolds(s, ctx, u, idx, stack)
    ensures StackHolds(s, ctx, u, idx + 1, stack[h := SubNode(s, ctx, u, h, Shift(idx, h))])
  {
    hide SubNode, Shift;
    forall j | 0 <= j < |stack|
      ensures Shift(idx + 1, j) == if j <= h then Shift(idx, j) + 1 else Shift(idx, j)
    {
      ShiftSuccessor(idx, h, j);
    }
  }

  /** The last leaf's bits are all ones, so its climb ends only at the root. */
  lemma {:induction false} LastLeafOdd(height: nat, h: nat)
    requires h < height
    ensures Shift(Pow(2, height) - 1, h) % 2 == 1
    decreases h
  {
    assert Pow(2, height) == 2 * Pow(2, height - 1);
    if h > 0 {
      assert (Pow(2, height) - 1) / 2 == Pow(2, height - 1) - 1;
      LastLeafOdd(height - 1, h - 1);
    }
  }

  lemma OnlyLastLeafReachesTop(height: nat, idx: nat)
    requires idx < Pow(2, height) && TrailingOnes(idx, height)
    ensures idx + 1 == Pow(2, height) && Shift(idx, height) == 0 && Shift(idx + 1, height) == 1
  {
    ShiftBelow(idx, height, 0);
    ShiftSuccessor(idx, height, height);
    if idx + 1 < Pow(2, height) {
      ShiftBelow(idx + 1, height, 0);
    }
  }

  /** On every level below the root, the path of a leaf stays inside the tree; other numbers stay outside. */
  lemma SiblingInside(height: nat, leaf: nat, j: nat)
    requires j < height
    ensures leaf < Pow(2, height) <==> Sibling(Shift(leaf, j)) < Shift(Pow(2, height), j)
  {
  }

  /** After the last leaf the path region holds the path of a leaf of this tree, or is untouched. */
  lemma PathComplete(s: Scheme, ctx: Context, u: Subtree, signLeaf: nat, idx: nat, prior: seq<Block>)
    requires s.w > 0 && |prior| == u.height && idx + 1 == Pow(2, u.height)
    ensures PathSoFar(s, ctx, u, signLeaf, idx, u.height, prior)
         == if signLeaf < Pow(2, u.height) then AuthPath(s, ctx, u.t, 0, signLeaf + u.Offset(0), u.height) else prior
  {
    hide Node, AuthPath, Shift, Pow, Sibling;
    var path, leaf := PathSoFar(s, ctx, u, signLeaf, idx, u.height, prior), signLeaf + u.Offset(0);
    forall j | 0 <= j < u.height
      ensures path[j] == if signLeaf < Pow(2, u.height) then AuthPath(s, ctx, u.t, 0, leaf, u.height)[j] else prior[j]
    {
      SiblingInside(u.height, signLeaf, j);
      AuthPathAt(s, ctx, u.t, 0, leaf, u.height, j);
      SiblingInSubtree(u, signLeaf, j);
    }
  }

  lemma SiblingInSubtree(u: Subtree, leaf: nat, j: nat)
    requires j < u.height
    ensures Sibling(Shift(leaf + u.Offset(0), j)) == Sibling(Shift(leaf, j)) + u.Offset(j)
  {
    hide Shift;
    OffsetShifts(u, leaf, j);
    OffsetHalves(u, j);
    SiblingPlusEven(Shift(leaf, j), u.Offset(j + 1));
  }

  lemma SiblingPlusEven(i: nat, k: nat)
    ensures Sibling(i + 2 * k) == Sibling(i) + 2 * k
  {
  }

  /** The address treehashx1 sets before joining is the address of the parent. */
  lemma JoinAt(s: Scheme, ctx: Context, u: Subtree, a: Address, h: nat, i: nat)
    requires s.w > 0 && i % 2 == 1 && h < u.height && InTree(a, u.t)
    ensures SubNode(s, ctx, u, h + 1, i / 2)
         == s.thash(ctx.pubSeed, a.SetTreeHeight(h + 1).SetTreeIndex(i / 2 + u.Offset(h + 1)),
                    [SubNode(s, ctx, u, h, i - 1), SubNode(s, ctx, u, h, i)])
    ensures InTree(a.SetTreeHeight(h + 1).SetTreeIndex(i / 2 + u.Offset(h + 1)), u.t)
    ensures u.Offset(h) / 2 == u.Offset(h + 1)
  {
    hide Node, NodeAddr;
    OffsetHalves(u, h);
    ParentJoins(s, ctx, u.t, h, i + u.Offset(h));
    NodeAddress(a, u.t, h + 1, i / 2 + u.Offset(h + 1));
  }

  lemma ShiftZero(i: nat)
    ensures Shift(i, 0) == i
  {
  }

  /** The inner loop of treehashx1: join the new leaf with every finished left sibling, copying nodes of
      the authentication path out as they appear. Stops at the first height that has to wait (or at the root). */
  method ClimbFrom(s: Scheme, ctx: Context, ghost u: Subtree, height: nat, offset0: nat, leaf: Block, idx: nat,
                   signLeaf: nat, stack0: seq<Block>, treeAddr0: Address,
                   buf: array<byte>, ghost cnt: nat, authAt: nat, ghost base: seq<Block>, ghost prior: seq<Block>)
    returns (current: Block, h: nat, stack: seq<Block>, treeAddr: Address)
    requires s.Valid() && Fits(buf, s.n, cnt) && authAt + height <= cnt
    requires height == u.height && offset0 == u.Offset(0)
    requires idx < Pow(2, height) && leaf == SubNode(s, ctx, u, 0, idx)
    requires |stack0| == height && StackHolds(s, ctx, u, idx, stack0)
    requires InTree(treeAddr0, u.t)
    requires |base| == cnt && |prior| == height
    requires View(buf, s.n, cnt) == Splice(base, authAt, PathSoFar(s, ctx, u, signLeaf, idx, 0, prior))
    modifies buf
    ensures Rest(buf, s.n, cnt) == old(Rest(buf, s.n, cnt))
    ensures InTree(treeAddr, u.t)
    ensures h <= height && current == SubNode(s, ctx, u, h, Shift(idx, h))
    ensures h == height <==> idx + 1 == Pow(2, height)
    ensures h == height ==>
              View(buf, s.n, cnt) == Splice(base, authAt, PathSoFar(s, ctx, u, signLeaf, idx, height, prior))
    ensures h < height ==> |stack| == height && StackHolds(s, ctx, u, idx + 1, stack)
    ensures h < height ==>
              View(buf, s.n, cnt) == Splice(base, authAt, PathSoFar(s, ctx, u, signLeaf, idx + 1, 0, prior))
  {
    hide Fits, View, Rest, Shift, SubNode, PathSoFar, Pow, Splice, InTree;
    ShiftZero(idx);
    ShiftZero(signLeaf);
    var maxIdx := Pow(2, height) - 1;
    var internalIdx, internalLeaf, offset := idx, signLeaf, offset0;
    current, h, stack, treeAddr := leaf, 0, stack0, treeAddr0;
    while true
      invariant h <= height && internalIdx == Shift(idx, h) && internalLeaf == Shift(signLeaf, h)
      invariant offset == u.Offset(h)
      invariant current == SubNode(s, ctx, u, h, internalIdx)
      invariant TrailingOnes(idx, h)
      invariant InTree(treeAddr, u.t)
      invariant View(buf, s.n, cnt) == Splice(base, authAt, PathSoFar(s, ctx, u, signLeaf, idx, h, prior))
      invariant Rest(buf, s.n, cnt) == old(Rest(buf, s.n, cnt))
      decreases height - h
    {
      if h == height {
        OnlyLastLeafReachesTop(height, idx);
        return;
      }
      PathNextLevel(s, ctx, u, signLeaf, idx, h, prior);
      ghost var path := PathSoFar(s, ctx, u, signLeaf, idx, h, prior);
      if internalIdx == Sibling(internalLeaf) {  // internalIdx ^ internalLeaf == 1
        SubNodeLength(s, ctx, u, h, internalIdx);
        PutBlock(buf, s.n, cnt, authAt + h, current);
        SpliceAt(base, authAt, path, h, current);
      }
      if idx == maxIdx { LastLeafOdd(height, h); }
      if internalIdx % 2 == 0 && idx < maxIdx {
        break;
      }
      JoinAt(s, ctx, u, treeAddr, h, internalIdx);
      offset := offset / 2;
      treeAddr := treeAddr.SetTreeHeight(h + 1).SetTreeIndex(internalIdx / 2 + offset);
      ShiftStep(idx, h);
      ShiftStep(signLeaf, h);
      current := s.thash(ctx.pubSeed, treeAddr, [stack[h], current]);
      h, internalIdx, internalLeaf := h + 1, internalIdx / 2, internalLeaf / 2;
    }
    PathNextLeaf(s, ctx, u, signLeaf, idx, h, prior);
    StackNextLeaf(s, ctx, u, idx, h, stack);
    stack := stack[h := current];
  }

  lemma SubNodeLength(s: Scheme, ctx: Context, u: Subtree, h: nat, i: nat)
    requires s.Valid()
    ensures |SubNode(s, ctx, u, h, i)| == s.n
  {
    NodeLength(s, ctx, u.t, h, i + u.Offset(h));
  }

  lemma SpliceAt(v: seq<Block>, at: nat, bs: seq<Block>, i: nat, x: Block)
    requires at + |bs| <= |v| && i < |bs|
    ensures Splice(v, at, bs)[at + i := x] == Splice(v, at, bs[i := x])
  {
  }

  lemma SpliceCommutes(v: seq<Block>, at: nat, a: seq<Block>, b: seq<Block>)
    requires at + |a| + |b| <= |v|
    ensures Splice(Splice(v, at + |a|, b), at, a) == Splice(v, at, a + b)
    ensures Splice(Splice(v, at, a), at + |a|, b) == Splice(v, at, a + b)
  {
  }

  lemma NothingSoFar(s: Scheme, ctx: Context, u: Subtree, signLeaf: nat, v: seq<Block>, at: nat, prior: seq<Block>)
    requires s.w > 0 && at + |prior| <= |v| && prior == v[at..at + |prior|]
    ensures Splice(v, at, PathSoFar(s, ctx, u, signLeaf, 0, 0, prior)) == v
    ensures forall stack :: StackHolds(s, ctx, u, 0, stack)
  {
    forall j: nat ensures Shift(0, j) == 0 { ShiftOfZero(j); }
    assert PathSoFar(s, ctx, u, signLeaf, 0, 0, prior) == prior;
  }

  lemma {:induction false} ShiftOfZero(j: nat)
    ensures Shift(0, j) == 0
  {
    if j > 0 { ShiftOfZero(j - 1); }
  }

  /** The function that treehashx1 is given for the leaves. */
  datatype Generator = WotsLeaves | ForsLeaves

  /** What that function keeps between leaves: the addresses of one tree. */
  ghost predicate LeafState(leafAddr: Address, pkAddr: Address, t: Tree) {
    match t
    case Xmss(layer, tree) => LeafAddrs(leafAddr, pkAddr, layer, tree)
    case Fors(_, _) => leafAddr.(typ := FORSTREE, index := 0) == NodeAddr(t, 0, 0)
  }

  /** What it writes for the signing leaf: a WOTS+ signature, or nothing. */
  function Emitted(s: Scheme, ctx: Context, t: Tree, leaf: nat, steps: seq<nat>): (r: seq<Block>)
    ensures |r| == if t.Xmss? then |steps| else 0
  {
    match t
    case Xmss(layer, tree) => WotsSign(s, ctx, Key(layer, tree, leaf), steps)
    case Fors(_, _) => []
  }

  /** What the tree hash writes for a leaf: that, and the authentication path. */
  function TreePart(s: Scheme, ctx: Context, u: Subtree, leaf: nat, steps: seq<nat>): (r: seq<Block>)
    requires s.w > 0
    ensures |r| == (if u.t.Xmss? then |steps| else 0) + u.height
  {
    Emitted(s, ctx, u.t, leaf, steps) + AuthPath(s, ctx, u.t, 0, leaf + u.Offset(0), u.height)
  }

  /** WOTS+ trees have an index space of their own. */
  predicate Placed(u: Subtree) { u.t.Xmss? ==> u.top == 0 }

  /** fors_gen_leafx1 */
  method GenForsLeaf(s: Scheme, ctx: Context, ghost t: Tree, i: nat, leafAddr0: Address)
    returns (leaf: Block, leafAddr: Address)
    requires t.Fors? && s.w > 0 && leafAddr0.(typ := FORSTREE, index := 0) == NodeAddr(t, 0, 0)
    ensures leaf == Node(s, ctx, t, 0, i)
    ensures leafAddr.(typ := FORSTREE, index := 0) == NodeAddr(t, 0, 0)
  {
    leafAddr := leafAddr0.SetTreeIndex(i).SetType(FORSPRF);
    var secret := s.prf(ctx.pubSeed, ctx.skSeed, leafAddr);
    leafAddr := leafAddr.SetType(FORSTREE);
    leaf := s.thash(ctx.pubSeed, leafAddr, [secret]);
  }

  /** Leaf `idx` of the subtree from its generator. */
  method GenTreeLeaf(s: Scheme, ctx: Context, gen: Generator, ghost u: Subtree, offset: nat, idx: nat, signLeaf: nat,
                     steps: seq<nat>, leafAddr0: Address, pkAddr0: Address, buf: array<byte>, ghost cnt: nat, base: nat)
    returns (leaf: Block, leafAddr: Address, pkAddr: Address)
    requires s.Valid() && Fits(buf, s.n, cnt) && (gen.WotsLeaves? <==> u.t.Xmss?)
    requires Placed(u) && offset == u.Offset(0)
    requires u.t.Xmss? ==> base + |steps| <= cnt && |steps| == s.WotsLen() && forall i :: 0 <= i < |steps| ==> steps[i] < s.w
    requires u.t.Fors? ==> base <= cnt
    requires LeafState(leafAddr0, pkAddr0, u.t)
    modifies buf
    ensures leaf == SubNode(s, ctx, u, 0, idx)
    ensures View(buf, s.n, cnt) == if idx == signLeaf
              then Splice(old(View(buf, s.n, cnt)), base, Emitted(s, ctx, u.t, idx, steps))
              else old(View(buf, s.n, cnt))
    ensures Rest(buf, s.n, cnt) == old(Rest(buf, s.n, cnt))
    ensures LeafState(leafAddr, pkAddr, u.t)
  {
    hide Fits, View, Rest, WotsLeaf, WotsSign, LeafAddrs, Node, NodeAddr;
    match gen
    case WotsLeaves =>
      LeafIsNode(s, ctx, u.t.layer, u.t.tree, idx);
      NoOffset(u, 0);
      leaf, leafAddr, pkAddr :=
        GenLeaf(s, ctx, u.t.layer, u.t.tree, idx, signLeaf, steps, leafAddr0, pkAddr0, buf, cnt, base);
    case ForsLeaves =>
      pkAddr := pkAddr0;
      SpliceEmpty(View(buf, s.n, cnt), base);
      leaf, leafAddr := GenForsLeaf(s, ctx, u.t, idx + offset, leafAddr0);
  }

  lemma NoOffset(u: Subtree, h: nat)
    requires u.top == 0
    ensures u.Offset(h) == 0
  {
  }

  lemma SpliceEmpty(v: seq<Block>, at: nat)
    requires at <= |v|
    ensures Splice(v, at, []) == v
  {
  }

  /** treehashx1: one pass over the leaves computes the root, and, when `signLeaf` is one of them, writes what the
      generator emits for it and its authentication path. A leaf number outside the tree writes nothing. */
  method TreeHash(s: Scheme, ctx: Context, gen: Generator, ghost u: Subtree, height: nat, offset: nat, signLeaf: nat,
                  steps: seq<nat>, leafAddr0: Address, pkAddr0: Address, treeAddr0: Address,
                  buf: array<byte>, ghost cnt: nat, base: nat, authAt: nat)
    returns (root: Block, treeAddr: Address)
    requires s.Valid() && Fits(buf, s.n, cnt) && (gen.WotsLeaves? <==> u.t.Xmss?)
    requires Placed(u) && height == u.height && offset == u.Offset(0)
    requires authAt == base + (if u.t.Xmss? then |steps| else 0) && authAt + height <= cnt
    requires u.t.Xmss? ==> |steps| == s.WotsLen() && forall i :: 0 <= i < |steps| ==> steps[i] < s.w
    requires LeafState(leafAddr0, pkAddr0, u.t) && InTree(treeAddr0, u.t)
    modifies buf
    ensures root == SubNode(s, ctx, u, height, 0)
    ensures View(buf, s.n, cnt) == if signLeaf < Pow(2, height)
              then Splice(old(View(buf, s.n, cnt)), base, TreePart(s, ctx, u, signLeaf, steps))
              else old(View(buf, s.n, cnt))
    ensures Rest(buf, s.n, cnt) == old(Rest(buf, s.n, cnt))
    ensures InTree(treeAddr, u.t)
  {
    hide Fits, View, Rest, SubNode, PathSoFar, Splice, InTree, LeafState, StackHolds, Emitted, AuthPath, Shift, Pow, Placed;
    ghost var v0 := View(buf, s.n, cnt);
    ghost var prior := v0[authAt..authAt + height];
    ghost var ws := Emitted(s, ctx, u.t, signLeaf, steps);
    ghost var written := v0;
    var leafAddr, pkAddr := leafAddr0, pkAddr0;
    treeAddr := treeAddr0;
    var stack: seq<Block> := seq(height, _ => []);
    var idx := 0;
    NothingSoFar(s, ctx, u, signLeaf, v0, authAt, prior);
    while true
      invariant idx < Pow(2, height)
      invariant LeafState(leafAddr, pkAddr, u.t) && InTree(treeAddr, u.t)
      invariant |stack| == height && StackHolds(s, ctx, u, idx, stack)
      invariant written == if signLeaf < idx then Splice(v0, base, ws) else v0
      invariant View(buf, s.n, cnt) == Splice(written, authAt, PathSoFar(s, ctx, u, signLeaf, idx, 0, prior))
      invariant Rest(buf, s.n, cnt) == old(Rest(buf, s.n, cnt))
      decreases Pow(2, height) - idx
    {
      ghost var path := PathSoFar(s, ctx, u, signLeaf, idx, 0, prior);
      var leaf, h;
      leaf, leafAddr, pkAddr :=
        GenTreeLeaf(s, ctx, gen, u, offset, idx, signLeaf, steps, leafAddr, pkAddr, buf, cnt, base);
      if idx == signLeaf {
        written := Splice(v0, base, ws);
        SpliceCommutes(v0, base, ws, path);
      }
      root, h, stack, treeAddr := ClimbFrom(s, ctx, u, height, offset, leaf, idx, signLeaf, stack, treeAddr,
                                            buf, cnt, authAt, written, prior);
      if h == height {
        PathComplete(s, ctx, u, signLeaf, idx, prior);
        TopIndexZero(height, idx);
        SpliceCommutes(v0, base, ws, AuthPath(s, ctx, u.t, 0, signLeaf + u.Offset(0), height));
        SplicePrior(v0, authAt, prior);
        return;
      }
      idx := idx + 1;
    }
  }

  lemma LeafIsNode(s: Scheme, ctx: Context, layer: nat, tree: nat, idx: nat)
    requires s.w > 0
    ensures WotsLeaf(s, ctx, Key(layer, tree, idx)) == Node(s, ctx, Xmss(layer, tree), 0, idx)
  {
  }

  lemma TopIndexZero(height: nat, idx: nat)
    requires idx < Pow(2, height)
    ensures Shift(idx, height) == 0
  {
  }

  lemma SplicePrior(v: seq<Block>, at: nat, prior: seq<Block>)
    requires at + |prior| <= |v| && prior == v[at..at + |prior|]
    ensures Splice(v, at, prior) == v
  {
  }

  /** merkle_sign: sign `root0` with one WOTS+ key and replace it by the root of the subtree. */
  method MerkleSign(s: Scheme, ctx: Context, ghost layer: nat, ghost tree: nat, root0: Block, wotsAddr: Address,
                    treeAddr0: Address, idxLeaf: nat, buf: array<byte>, ghost cnt: nat, base: nat)
    returns (root: Block, treeAddr: Address)
    requires s.Valid() && Fits(buf, s.n, cnt) && base + s.LayerBlocks() <= cnt && |root0| == s.n
    requires wotsAddr.layer == treeAddr0.layer == layer % 256
    requires wotsAddr.tree == treeAddr0.tree == tree % 0x1_0000_0000_0000_0000 && treeAddr0.keypair == 0
    modifies buf
    ensures root == Node(s, ctx, Xmss(layer, tree), s.height, 0)
    ensures View(buf, s.n, cnt) == if idxLeaf < Pow(2, s.height)
              then Splice(old(View(buf, s.n, cnt)), base,
                          LayerSig(s, ctx, layer, tree, idxLeaf, ChainLengths(s, root0)))
              else old(View(buf, s.n, cnt))
    ensures Rest(buf, s.n, cnt) == old(Rest(buf, s.n, cnt))
    ensures InTree(treeAddr, Xmss(layer, tree))
  {
    hide Fits, View, Rest, Node, Splice, ChainLengths, Pow;
    ghost var u := Subtree(Xmss(layer, tree), s.height, 0);
    NoOffset(u, 0);
    NoOffset(u, s.height);
    var steps := ChainLengths(s, root0);
    treeAddr := treeAddr0.SetType(HASHTREE);
    var pkAddr := ZERO_ADDRESS.SetType(WOTSPK).CopySubtree(wotsAddr);
    var leafAddr := ZERO_ADDRESS.CopySubtree(wotsAddr);
    root, treeAddr := TreeHash(s, ctx, WotsLeaves, u, s.height, 0, idxLeaf, steps, leafAddr, pkAddr, treeAddr,
                               buf, cnt, base, base + s.WotsLen());
  }

  /** merkle_gen_root: the root of the one tree in the top layer, whatever bytes `garbage` the caller's
      root buffer holds; leaf number ~0 is outside every tree, so nothing is signed with them. */
  method MerkleGenRoot(s: Scheme, ctx: Context, garbage: Block) returns (root: Block)
    requires s.Valid() && |garbage| == s.n
    ensures root == Node(s, ctx, Xmss(s.d - 1, 0), s.height, 0)
  {
    hide Node, View, Rest, LayerSig, ChainLengths, Pow, Splice;
    var authPath := new byte[s.LayerBlocks() * s.n];
    var topTreeAddr := ZERO_ADDRESS.SetLayer(s.d - 1);
    var wotsAddr := ZERO_ADDRESS.SetLayer(s.d - 1);
    var topAddr;
    root, topAddr := MerkleSign(s, ctx, s.d - 1, 0, garbage, wotsAddr, topTreeAddr, 0xFFFF_FFFF,
                          authPath, s.LayerBlocks(), 0);
  }
}
