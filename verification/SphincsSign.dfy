/**
 Key generation, signing, verification and the attached-signature forms (FIPS 205, section 9).
 The signer writes into the caller's buffer block by block; the verifier reads it back.
 */
module SphincsSign {
  import opened Bytes
  import opened SphincsParams
  import opened BlockBuffer
  import opened Wots
  import opened Merkle
  import Fors
  import opened Hypertree
  import opened SphincsVerify

  // ----- what the operations compute

  function ContextOf(s: Scheme, sk: seq<byte>): Context
    requires |sk| == 4 * s.n
  {
    Context(sk[2 * s.n..3 * s.n], sk[..s.n])
  }

  function TreeIndex(s: Scheme, dg: Digest): nat
    requires s.d > 0
  {
    dg.rawTree % Pow(2, s.height * (s.d - 1))
  }

  function LeafIndex(s: Scheme, dg: Digest): (r: nat)
    ensures r < Pow(2, s.height)
  {
    dg.rawLeaf % Pow(2, s.height)
  }

  /** Root of the single tree of the top layer. */
  function TopRoot(s: Scheme, ctx: Context): Block
    requires s.w > 0 && s.d > 0
  {
    SubtreeRoot(s, ctx, s.d - 1, 0)
  }

  /** The secret key for a seed: SK_SEED || SK_PRF || PUB_SEED || root. */
  function SecretKey(s: Scheme, seed: seq<byte>): (r: seq<byte>)
    requires s.Valid() && |seed| == 3 * s.n
    ensures |r| == 4 * s.n
  {
    RootLength(s, Context(seed[2 * s.n..], seed[..s.n]), s.d - 1, 0);
    seed + TopRoot(s, Context(seed[2 * s.n..], seed[..s.n]))
  }

  /** The public key: PUB_SEED || root. */
  function PublicKey(s: Scheme, seed: seq<byte>): (r: seq<byte>)
    requires s.Valid() && |seed| == 3 * s.n
    ensures |r| == 2 * s.n
  {
    RootLength(s, Context(seed[2 * s.n..], seed[..s.n]), s.d - 1, 0);
    seed[2 * s.n..] + TopRoot(s, Context(seed[2 * s.n..], seed[..s.n]))
  }

  /** The FORS signature and the hypertree signature under one digest. */
  function SignDigest(s: Scheme, ctx: Context, dg: Digest): (r: seq<Block>)
    requires s.Valid() && |dg.mhash| * 8 >= s.forsTrees * s.forsHeight
    ensures |r| == Fors.BlocksFrom(s, 0) + BlocksFrom(s, 0)
  {
    var tree, leaf := TreeIndex(s, dg), LeafIndex(s, dg);
    Fors.ForsSign(s, ctx, Fors.ForsKey(tree, leaf), dg.mhash, 0) + SuffixOf(s, ctx, tree, leaf, 0)
  }

  /** The whole signature as blocks: randomizer, FORS part, then one part for each layer. */
  function SignBlocks(s: Scheme, sk: seq<byte>, optrand: Block, m: seq<byte>): (r: seq<Block>)
    requires s.Valid() && |sk| == 4 * s.n
    ensures |r| == 1 + Fors.BlocksFrom(s, 0) + BlocksFrom(s, 0)
  {
    SignBlocksFrom(s, sk, s.messageRandom(sk[s.n..2 * s.n], optrand, m), m)
  }

  /** The signature once the randomizer is fixed, on the message as it is then. */
  function SignBlocksFrom(s: Scheme, sk: seq<byte>, rnd: Block, m: seq<byte>): (r: seq<Block>)
    requires s.Valid() && |sk| == 4 * s.n
    ensures |r| == 1 + Fors.BlocksFrom(s, 0) + BlocksFrom(s, 0)
  {
    [rnd] + SignDigest(s, ContextOf(s, sk), s.messageDigest(rnd, sk[2 * s.n..], m))
  }

  /** The root the verifier recomputes. */
  function RecoveredRoot(s: Scheme, sig: seq<Block>, m: seq<byte>, pk: seq<byte>): Block
    requires s.Valid() && |pk| == 2 * s.n && |sig| == 1 + Fors.BlocksFrom(s, 0) + BlocksFrom(s, 0)
  {
    var pub := pk[..s.n];
    var dg := s.messageDigest(sig[0], pk, m);
    var tree, leaf := TreeIndex(s, dg), LeafIndex(s, dg);
    var at := 1 + Fors.BlocksFrom(s, 0);
    HtVerify(s, pub, sig[at..], Fors.PublicFromSig(s, pub, Fors.ForsKey(tree, leaf), dg.mhash, sig[1..at]), tree, leaf, 0)
  }

  predicate Accepts(s: Scheme, sig: seq<Block>, m: seq<byte>, pk: seq<byte>)
    requires s.Valid() && |pk| == 2 * s.n && |sig| == 1 + Fors.BlocksFrom(s, 0) + BlocksFrom(s, 0)
  {
    RecoveredRoot(s, sig, m, pk) == pk[s.n..]
  }

  /** The offsets the loops step through add up to SPX_BYTES. */
  lemma BlocksPartition(s: Scheme)
    ensures 1 + Fors.BlocksFrom(s, 0) + BlocksFrom(s, 0) == s.SigBlocks()
  {
    Fors.BlocksFromTotal(s, 0);
    BlocksFromTotal(s, 0);
  }

  lemma {:induction false} HtSignLength(s: Scheme, ctx: Context, root: Block, tree: nat, leaf: nat, layer: nat)
    requires s.Valid() && layer <= s.d && |root| == s.n
    ensures AllLength(HtSign(s, ctx, root, tree, leaf, layer), s.n)
    decreases s.d - layer
  {
    hide ChainLengths, WotsSign, AuthPath, SubtreeRoot, Pow, ParentTree, ParentLeaf;
    if layer < s.d {
      RootLength(s, ctx, layer, tree);
      WotsSignLength(s, ctx, Key(layer, tree, leaf), ChainLengths(s, root));
      AuthPathLength(s, ctx, Xmss(layer, tree), 0, leaf, s.height);
      HtSignLength(s, ctx, SubtreeRoot(s, ctx, layer, tree), ParentTree(s, tree), ParentLeaf(s, tree), layer + 1);
    }
  }

  lemma SignBlocksLength(s: Scheme, sk: seq<byte>, optrand: Block, m: seq<byte>)
    requires s.Valid() && |sk| == 4 * s.n
    ensures AllLength(SignBlocks(s, sk, optrand, m), s.n)
  {
    hide HtSign, Fors.ForsSign, SignedValue, TreeIndex, LeafIndex;
    var rnd := s.messageRandom(sk[s.n..2 * s.n], optrand, m);
    var dg := s.messageDigest(rnd, sk[2 * s.n..], m);
    var ctx := ContextOf(s, sk);
    var tree, leaf := TreeIndex(s, dg), LeafIndex(s, dg);
    Fors.ForsSignLength(s, ctx, Fors.ForsKey(tree, leaf), dg.mhash, 0);
    SignedValueLength(s, ctx, 0, tree, leaf);
    HtSignLength(s, ctx, SignedValue(s, ctx, 0, tree, leaf), tree, leaf, 0);
  }

  // ----- correctness

  lemma KeyParts(s: Scheme, seed: seq<byte>)
    requires s.Valid() && |seed| == 3 * s.n
    ensures SecretKey(s, seed)[2 * s.n..] == PublicKey(s, seed)
    ensures ContextOf(s, SecretKey(s, seed)) == Context(seed[2 * s.n..], seed[..s.n])
    ensures PublicKey(s, seed)[..s.n] == seed[2 * s.n..]
    ensures PublicKey(s, seed)[s.n..] == TopRoot(s, Context(seed[2 * s.n..], seed[..s.n]))
  {
  }

  /** For all hash functions, seeds, messages and randomizers: what is signed verifies. */
  lemma SignatureVerifies(s: Scheme, seed: seq<byte>, optrand: Block, m: seq<byte>)
    requires s.Valid() && |seed| == 3 * s.n
    ensures Accepts(s, SignBlocks(s, SecretKey(s, seed), optrand, m), m, PublicKey(s, seed))
  {
    hide HtSign, HtVerify, Fors.ForsSign, Fors.ForsRoots, Fors.RootsFromSig, SubtreeRoot, Pow, TreeAt, LeafIndex;
    KeyParts(s, seed);
    var sk, pk := SecretKey(s, seed), PublicKey(s, seed);
    var ctx := ContextOf(s, sk);
    var rnd := s.messageRandom(sk[s.n..2 * s.n], optrand, m);
    var dg := s.messageDigest(rnd, pk, m);
    var tree, leaf := TreeIndex(s, dg), LeafIndex(s, dg);
    var key := Fors.ForsKey(tree, leaf);
    var sig := SignBlocks(s, sk, optrand, m);
    var at := 1 + Fors.BlocksFrom(s, 0);
    assert sig[0] == rnd;
    assert sig[1..at] == Fors.ForsSign(s, ctx, key, dg.mhash, 0);
    assert sig[at..] == SuffixOf(s, ctx, tree, leaf, 0);
    Fors.ForsRoundTrip(s, ctx, key, dg.mhash, 0);
    SignedValueLength(s, ctx, 0, tree, leaf);
    HtRoundTrip(s, ctx, SignedValue(s, ctx, 0, tree, leaf), tree, leaf, 0);
    TopTreeIsZero(s, tree, s.d - 1);
  }

  /** Two signatures under one key whose digests reach the same key position on layer k are equal from there up. */
  lemma SharedKeySharedSuffix(s: Scheme, ctx: Context, a: Digest, b: Digest, k: nat)
    requires s.Valid() && k <= s.d
    requires |a.mhash| * 8 >= s.forsTrees * s.forsHeight && |b.mhash| * 8 >= s.forsTrees * s.forsHeight
    requires TreeAt(s, TreeIndex(s, a), k) == TreeAt(s, TreeIndex(s, b), k)
    requires LeafAt(s, TreeIndex(s, a), LeafIndex(s, a), k) == LeafAt(s, TreeIndex(s, b), LeafIndex(s, b), k)
    ensures BlocksFrom(s, k) <= BlocksFrom(s, 0)
    ensures var at := Fors.BlocksFrom(s, 0) + BlocksFrom(s, 0) - BlocksFrom(s, k);
            SignDigest(s, ctx, a)[at..] == SignDigest(s, ctx, b)[at..]
  {
    hide HtSign, Fors.ForsSign, SignedValue, TreeIndex, LeafIndex, TreeAt, LeafAt;
    var at := BlocksFrom(s, 0) - BlocksFrom(s, k);
    SuffixOnlyFromPosition(s, ctx, TreeIndex(s, a), LeafIndex(s, a), 0, k);
    SuffixOnlyFromPosition(s, ctx, TreeIndex(s, b), LeafIndex(s, b), 0, k);
    assert SignDigest(s, ctx, a)[Fors.BlocksFrom(s, 0) + at..]
        == SuffixOf(s, ctx, TreeIndex(s, a), LeafIndex(s, a), 0)[at..];
    assert SignDigest(s, ctx, b)[Fors.BlocksFrom(s, 0) + at..]
        == SuffixOf(s, ctx, TreeIndex(s, b), LeafIndex(s, b), 0)[at..];
  }

  /** sm = signature || message */
  function SignedMessage(s: Scheme, sk: seq<byte>, optrand: Block, m: seq<byte>): seq<byte>
    requires s.Valid() && |sk| == 4 * s.n
  {
    Flatten(SignBlocks(s, sk, optrand, m)) + m
  }

  datatype Opened = Rejected | Opened(message: seq<byte>)

  /** What crypto_sign_open makes of a byte string. */
  function OpenSigned(s: Scheme, sm: seq<byte>, pk: seq<byte>): Opened
    requires s.Valid() && |pk| == 2 * s.n
  {
    if |sm| < s.SigBytes() then Rejected else
      var sig := Cut(sm[..s.SigBytes()], s.n);
      BlocksPartition(s);
      CutLength(sm[..s.SigBytes()], s.n, s.SigBlocks());
      if Accepts(s, sig, sm[s.SigBytes()..], pk) then Opened(sm[s.SigBytes()..]) else Rejected
  }

  /** Opening a signed message gives the message back. */
  lemma OpenRecoversMessage(s: Scheme, seed: seq<byte>, optrand: Block, m: seq<byte>)
    requires s.Valid() && |seed| == 3 * s.n
    ensures OpenSigned(s, SignedMessage(s, SecretKey(s, seed), optrand, m), PublicKey(s, seed)) == Opened(m)
  {
    hide SecretKey, PublicKey, SignBlocks, Accepts, Flatten, Cut;
    var sk := SecretKey(s, seed);
    var blocks := SignBlocks(s, sk, optrand, m);
    var sm := SignedMessage(s, sk, optrand, m);
    SignBlocksLength(s, sk, optrand, m);
    BlocksPartition(s);
    FlattenLength(blocks, s.n);
    assert sm[..s.SigBytes()] == Flatten(blocks) && sm[s.SigBytes()..] == m;
    CutFlatten(blocks, s.n);
    SignatureVerifies(s, seed, optrand, m);
  }

  // ----- the C entry points

  /** crypto_sign_seed_keypair */
  method CryptoSignSeedKeypair(s: Scheme, pk: array<byte>, sk: array<byte>, seed: seq<byte>)
    requires s.Valid() && |seed| == 3 * s.n
    requires pk.Length == 2 * s.n && sk.Length == 4 * s.n && pk != sk
    modifies pk, sk
    ensures sk[..] == SecretKey(s, seed)
    ensures pk[..] == PublicKey(s, seed)
  {
    hide TopRoot, Node;
    var n := s.n;
    PutBytes(sk, 0, seed);
    SeedParts(seed, sk[..], n);
    PutBytes(pk, 0, sk[2 * n..3 * n]);
    assert pk[..n] == seed[2 * n..];
    var ctx := Context(pk[..n], sk[..n]);
    var root := MerkleGenRoot(s, ctx, sk[3 * n..]);
    RootIsTop(s, ctx);
    PutBytes(sk, 3 * n, root);
    assert sk[..] == seed + root && sk[3 * n..] == root;
    PutBytes(pk, n, sk[3 * n..]);
    assert pk[..] == seed[2 * n..] + root;
  }

  lemma SeedParts(seed: seq<byte>, sk: seq<byte>, n: nat)
    requires |seed| == 3 * n <= |sk| && sk == seed + sk[3 * n..]
    ensures sk[2 * n..3 * n] == seed[2 * n..] && sk[..n] == seed[..n] && sk[..3 * n] == seed
  {
  }

  lemma RootIsTop(s: Scheme, ctx: Context)
    requires s.Valid()
    ensures Node(s, ctx, Xmss(s.d - 1, 0), s.height, 0) == TopRoot(s, ctx) && |TopRoot(s, ctx)| == s.n
  {
  }

  /** The part of a FORS signature for tree t: the secret and the authentication path of its leaf. */
  function ForsPart(s: Scheme, ctx: Context, key: Tree, m: seq<byte>, t: nat): (r: seq<Block>)
    requires s.w > 0 && t < s.forsTrees && |m| * 8 >= s.forsTrees * s.forsHeight
    ensures |r| == s.forsHeight + 1
  {
    var i := Fors.ForsLeafIndex(s, m, t);
    [ForsSecret(s, ctx, key, i)] + AuthPath(s, ctx, key, 0, i, s.forsHeight)
  }

  lemma ForsSignStep(s: Scheme, ctx: Context, key: Tree, m: seq<byte>, t: nat)
    requires s.w > 0 && key.Fors? && t < s.forsTrees && |m| * 8 >= s.forsTrees * s.forsHeight
    ensures Fors.ForsSign(s, ctx, key, m, t) == ForsPart(s, ctx, key, m, t) + Fors.ForsSign(s, ctx, key, m, t + 1)
    ensures Fors.ForsRoots(s, ctx, key, t) == [Node(s, ctx, key, s.forsHeight, t)] + Fors.ForsRoots(s, ctx, key, t + 1)
  {
    hide Fors.ForsLeafIndex, AuthPath, ForsSecret, Node;
  }

  lemma ForsSignEnd(s: Scheme, ctx: Context, key: Tree, m: seq<byte>)
    requires s.w > 0 && key.Fors? && |m| * 8 >= s.forsTrees * s.forsHeight
    ensures Fors.ForsSign(s, ctx, key, m, s.forsTrees) == [] && Fors.ForsRoots(s, ctx, key, s.forsTrees) == []
  {
  }

  /** One iteration of fors_sign: the secret of the selected leaf, then the tree hash over all leaves of the tree. */
  method ForsSignTree(s: Scheme, ctx: Context, ghost key: Tree, mhash: seq<byte>, t: nat, leafAddr: Address,
                      treeAddr0: Address, buf: array<byte>, ghost cnt: nat, at: nat)
    returns (root: Block, treeAddr: Address)
    requires s.Valid() && Fits(buf, s.n, cnt) && |mhash| * 8 >= s.forsTrees * s.forsHeight
    requires key.Fors? && t < s.forsTrees && at + s.forsHeight + 1 <= cnt
    requires leafAddr.(typ := FORSTREE, index := 0) == NodeAddr(key, 0, 0)
    requires treeAddr0.(typ := FORSTREE, chain := 0, index := 0) == NodeAddr(key, 0, 0)
    modifies buf
    ensures root == Node(s, ctx, key, s.forsHeight, t)
    ensures InTree(treeAddr, key)
    ensures View(buf, s.n, cnt) == Splice(old(View(buf, s.n, cnt)), at, ForsPart(s, ctx, key, mhash, t))
    ensures Rest(buf, s.n, cnt) == old(Rest(buf, s.n, cnt))
  {
    hide Fits, View, Rest, Splice, AuthPath, Node, Pow, Fors.BitsValue;
    ghost var v0 := View(buf, s.n, cnt);
    Fors.BitsInside(s.forsTrees, s.forsHeight, t);
    var index := Fors.BitsValue(mhash, t * s.forsHeight, s.forsHeight);
    var offset := t * Pow(2, s.forsHeight);
    treeAddr := treeAddr0.SetTreeHeight(0).SetTreeIndex(index + offset).SetType(FORSPRF);
    var secret := s.prf(ctx.pubSeed, ctx.skSeed, treeAddr);
    assert secret == ForsSecret(s, ctx, key, index + offset);
    PutBlock(buf, s.n, cnt, at, secret);
    treeAddr := treeAddr.SetType(FORSTREE);
    ghost var u := Subtree(key, s.forsHeight, t);
    WholeOffset(u);
    root, treeAddr := TreeHash(s, ctx, ForsLeaves, u, s.forsHeight, offset, index, [], leafAddr, ZERO_ADDRESS, treeAddr,
                               buf, cnt, at + 1, at + 1);
    SpliceOne(v0, at, secret);
    SpliceJoins(v0, at, [secret], TreePart(s, ctx, u, index, []));
    assert [] + AuthPath(s, ctx, key, 0, index + offset, s.forsHeight) == AuthPath(s, ctx, key, 0, index + offset, s.forsHeight);
  }

  lemma WholeOffset(u: Subtree)
    ensures u.Offset(0) == u.top * Pow(2, u.height) && u.Offset(u.height) == u.top
  {
    assert Pow(2, 0) == 1;
  }

  lemma SpliceOne(v: seq<Block>, at: nat, x: Block)
    requires at < |v|
    ensures v[at := x] == Splice(v, at, [x])
  {
  }

  /** fors_sign with the address crypto_sign_signature prepared: signature into the buffer, public key returned. */
  method ForsSignInto(s: Scheme, ctx: Context, mhash: seq<byte>, wotsAddr: Address, buf: array<byte>, ghost cnt: nat, at0: nat)
    returns (pk: Block)
    requires s.Valid() && Fits(buf, s.n, cnt) && |mhash| * 8 >= s.forsTrees * s.forsHeight
    requires at0 + Fors.BlocksFrom(s, 0) <= cnt
    requires wotsAddr.layer == 0 && wotsAddr.tree < 0x1_0000_0000_0000_0000 && wotsAddr.keypair < 256
    modifies buf
    ensures pk == Fors.ForsPublic(s, ctx, Tree.Fors(wotsAddr.tree, wotsAddr.keypair))
    ensures View(buf, s.n, cnt) == Splice(old(View(buf, s.n, cnt)), at0,
              Fors.ForsSign(s, ctx, Tree.Fors(wotsAddr.tree, wotsAddr.keypair), mhash, 0))
    ensures Rest(buf, s.n, cnt) == old(Rest(buf, s.n, cnt))
  {
    hide Fits, View, Rest, Splice, Fors.ForsSign, Fors.ForsRoots, ForsPart, Node;
    ghost var key := Tree.Fors(wotsAddr.tree, wotsAddr.keypair);
    ghost var v0 := View(buf, s.n, cnt);
    ghost var all, allRoots := Fors.ForsSign(s, ctx, key, mhash, 0), Fors.ForsRoots(s, ctx, key, 0);
    ghost var done: seq<Block> := [];
    var treeAddr := ZERO_ADDRESS.CopyKeypair(wotsAddr);
    var leafAddr, pkAddr := treeAddr, treeAddr.SetType(FORSPK);
    var roots: seq<Block>, at: nat := [], at0;
    SpliceNothing(v0, at0, all);
    assert all[..0] == done;
    for t := 0 to s.forsTrees
      invariant treeAddr.(typ := FORSTREE, chain := 0, index := 0) == NodeAddr(key, 0, 0)
      invariant at == at0 + |done| && |done| + Fors.BlocksFrom(s, t) == |all|
      invariant done + Fors.ForsSign(s, ctx, key, mhash, t) == all
      invariant roots + Fors.ForsRoots(s, ctx, key, t) == allRoots
      invariant View(buf, s.n, cnt) == Splice(v0, at0, done)
      invariant Rest(buf, s.n, cnt) == old(Rest(buf, s.n, cnt))
    {
      ghost var part := ForsPart(s, ctx, key, mhash, t);
      ForsSignStep(s, ctx, key, mhash, t);
      var root;
      root, treeAddr := ForsSignTree(s, ctx, key, mhash, t, leafAddr, treeAddr, buf, cnt, at);
      SpliceJoins(v0, at0, done, part);
      done, roots := done + part, roots + [root];
      at := at + s.forsHeight + 1;
    }
    ForsSignEnd(s, ctx, key, mhash);
    assert done + [] == done && roots + [] == roots;
    pk := s.thash(ctx.pubSeed, pkAddr, roots);
  }

  lemma SpliceJoins(v: seq<Block>, at: nat, a: seq<Block>, b: seq<Block>)
    requires at + |a| + |b| <= |v|
    ensures Splice(Splice(v, at, a), at + |a|, b) == Splice(v, at, a + b)
    ensures at == 0 && |a| + |b| == |v| ==> Splice(v, at, a + b) == a + b
  {
  }

  /** One layer of the signing fold is the head of what remains to be signed. */
  lemma HtSignStep(s: Scheme, ctx: Context, root: Block, tree: nat, leaf: nat, layer: nat)
    requires s.Valid() && layer < s.d && |root| == s.n
    ensures |SubtreeRoot(s, ctx, layer, tree)| == s.n
    ensures HtSign(s, ctx, root, tree, leaf, layer)
         == LayerSig(s, ctx, layer, tree, leaf, ChainLengths(s, root))
            + HtSign(s, ctx, SubtreeRoot(s, ctx, layer, tree), ParentTree(s, tree), ParentLeaf(s, tree), layer + 1)
  {
    RootLength(s, ctx, layer, tree);
  }

  /** The signing loop: from layer 0, sign `root0` with key (tree0, leaf0) and carry each subtree root up. */
  method SignLayers(s: Scheme, ctx: Context, root0: Block, tree0: nat, leaf0: nat, wotsAddr0: Address, treeAddr0: Address,
                    buf: array<byte>, ghost cnt: nat, at0: nat)
    requires s.Valid() && Fits(buf, s.n, cnt) && |root0| == s.n && leaf0 < Pow(2, s.height)
    requires at0 + BlocksFrom(s, 0) <= cnt
    requires treeAddr0.keypair == 0
    modifies buf
    ensures View(buf, s.n, cnt) == Splice(old(View(buf, s.n, cnt)), at0, HtSign(s, ctx, root0, tree0, leaf0, 0))
    ensures Rest(buf, s.n, cnt) == old(Rest(buf, s.n, cnt))
  {
    hide Fits, View, Rest, Splice, HtSign, LayerSig, ChainLengths, Node, Pow, ParentTree, ParentLeaf;
    ghost var v0 := View(buf, s.n, cnt);
    ghost var all := HtSign(s, ctx, root0, tree0, leaf0, 0);
    ghost var done: seq<Block> := [];
    var root, tree: nat, leaf: nat, at: nat := root0, tree0, leaf0, at0;
    var wotsAddr, treeAddr := wotsAddr0, treeAddr0;
    SpliceNothing(v0, at0, all);
    assert all[..0] == done;
    for i := 0 to s.d
      invariant |root| == s.n && leaf < Pow(2, s.height) && treeAddr.keypair == 0
      invariant done + HtSign(s, ctx, root, tree, leaf, i) == all
      invariant at == at0 + |done|
      invariant View(buf, s.n, cnt) == Splice(v0, at0, done)
      invariant Rest(buf, s.n, cnt) == old(Rest(buf, s.n, cnt))
    {
      ghost var part := LayerSig(s, ctx, i, tree, leaf, ChainLengths(s, root));
      HtSignStep(s, ctx, root, tree, leaf, i);
      treeAddr := treeAddr.SetLayer(i).SetTree(tree);
      wotsAddr := wotsAddr.CopySubtree(treeAddr).SetKeypair(leaf);
      root, treeAddr := MerkleSign(s, ctx, i, tree, root, wotsAddr, treeAddr, leaf, buf, cnt, at);
      RootIsNode(s, ctx, i, tree);
      SpliceJoins(v0, at0, done, part);
      done := done + part;
      at := at + s.LayerBlocks();
      leaf := ParentLeaf(s, tree);
      tree := ParentTree(s, tree);
    }
    HtSignEnd(s, ctx, root, tree, leaf);
    assert done + [] == done;
  }

  lemma RootIsNode(s: Scheme, ctx: Context, layer: nat, tree: nat)
    requires s.w > 0
    ensures Node(s, ctx, Xmss(layer, tree), s.height, 0) == SubtreeRoot(s, ctx, layer, tree)
  {
  }

  lemma HtSignEnd(s: Scheme, ctx: Context, root: Block, tree: nat, leaf: nat)
    requires s.Valid() && |root| == s.n
    ensures HtSign(s, ctx, root, tree, leaf, s.d) == []
  {
  }

  /** The message as the digest finds it: the randomizer has been written over the front of the signature buffer. */
  function MessageAtDigest(buf: seq<byte>, at: nat, mlen: nat, rnd: Block): seq<byte>
    requires at + mlen <= |buf|
  {
    Overwritten(buf, rnd)[at..at + mlen]
  }

  /** Behind what has been written the message is as it was. */
  lemma BehindIsUnchanged(buf: seq<byte>, data: seq<byte>, at: nat, mlen: nat)
    requires |data| <= at && at + mlen <= |buf|
    ensures Overwritten(buf, data)[at..at + mlen] == buf[at..at + mlen]
  {
  }

  /** crypto_sign_signature, with the bytes of randombytes as `optrand`. The message is read twice, and the signature
      buffer may be where it lies; behind the randomizer that makes no difference. */
  method CryptoSignSignature(s: Scheme, sig: array<byte>, m: array<byte>, at: nat, mlen: nat, sk: seq<byte>, optrand: Block)
    returns (siglen: nat)
    requires s.Valid() && |sk| == 4 * s.n && Fits(sig, s.n, s.SigBlocks()) && at + mlen <= m.Length
    modifies sig
    ensures var rnd := s.messageRandom(sk[s.n..2 * s.n], optrand, old(m[at..at + mlen]));
            View(sig, s.n, s.SigBlocks()) == SignBlocksFrom(s, sk, rnd,
              if sig == m then MessageAtDigest(old(sig[..]), at, mlen, rnd) else old(m[at..at + mlen]))
    ensures sig != m || at >= s.n ==> View(sig, s.n, s.SigBlocks()) == SignBlocks(s, sk, optrand, old(m[at..at + mlen]))
    ensures Rest(sig, s.n, s.SigBlocks()) == old(Rest(sig, s.n, s.SigBlocks()))
    ensures siglen == s.SigBytes()
  {
    hide Fits, View, Rest, SignBlocksFrom, Splice, Overwritten, Scheme.SigBlocks;
    FirstFits(s, sig);
    ghost var was := sig[..];
    ghost var v0 := View(sig, s.n, s.SigBlocks());
    var rnd := s.messageRandom(sk[s.n..2 * s.n], optrand, m[at..at + mlen]);
    PutFirstBlock(sig, s.n, s.SigBlocks(), rnd);
    SpliceFirst(v0, rnd);
    var message := m[at..at + mlen];
    SignAfterRandomizer(s, sig, v0, rnd, message, sk);
    siglen := s.SigBytes();
    if sig == m && at >= s.n { BehindIsUnchanged(was, rnd, at, mlen); }
  }

  lemma FirstFits(s: Scheme, sig: array<byte>)
    requires s.Valid() && Fits(sig, s.n, s.SigBlocks())
    ensures s.SigBlocks() > 0 && s.n <= sig.Length
  {
    TimesPred(s.SigBlocks(), s.n);
  }

  /** The rest of crypto_sign_signature: everything after the randomizer. */
  method SignAfterRandomizer(s: Scheme, sig: array<byte>, ghost v0: seq<Block>, rnd: Block, m: seq<byte>, sk: seq<byte>)
    requires s.Valid() && |sk| == 4 * s.n && Fits(sig, s.n, s.SigBlocks())
    requires |v0| == s.SigBlocks() && View(sig, s.n, s.SigBlocks()) == Splice(v0, 0, [rnd])
    modifies sig
    ensures View(sig, s.n, s.SigBlocks()) == SignBlocksFrom(s, sk, rnd, m)
    ensures Rest(sig, s.n, s.SigBlocks()) == old(Rest(sig, s.n, s.SigBlocks()))
  {
    hide Fits, View, Rest, Splice, HtSign, Fors.ForsSign, Fors.ForsPublic, Pow;
    BlocksPartition(s);
    ghost var cnt := s.SigBlocks();
    var ctx, pk := Context(sk[2 * s.n..3 * s.n], sk[..s.n]), sk[2 * s.n..];
    var wotsAddr, treeAddr := ZERO_ADDRESS.SetType(WOTS), ZERO_ADDRESS.SetType(HASHTREE);
    var dg := s.messageDigest(rnd, pk, m);
    var tree, leaf := TreeIndex(s, dg), LeafIndex(s, dg);
    wotsAddr := wotsAddr.SetTree(tree).SetKeypair(leaf);
    var root := ForsSignInto(s, ctx, dg.mhash, wotsAddr, sig, cnt, 1);
    SignedValueLength(s, ctx, 0, tree, leaf);
    SignLayers(s, ctx, root, tree, leaf, wotsAddr, treeAddr, sig, cnt, 1 + Fors.BlocksFrom(s, 0));
    ghost var fors := Fors.ForsSign(s, ctx, Fors.ForsKey(tree, leaf), dg.mhash, 0);
    ghost var ht := SuffixOf(s, ctx, tree, leaf, 0);
    SpliceJoins(v0, 0, [rnd], fors);
    SpliceJoins(v0, 0, [rnd] + fors, ht);
    assert [rnd] + fors + ht == SignBlocksFrom(s, sk, rnd, m);
  }

  lemma SpliceFirst(v: seq<Block>, x: Block)
    requires |v| > 0
    ensures v[0 := x] == Splice(v, 0, [x])
  {
  }

  /** crypto_sign_verify: 0 if the signature has the right length and leads to the root in the public key. */
  method CryptoSignVerify(s: Scheme, sig: array<byte>, siglen: nat, m: seq<byte>, pk: seq<byte>) returns (result: int)
    requires s.Valid() && |pk| == 2 * s.n && siglen <= sig.Length
    ensures result == 0 || result == -1
    ensures 1 + Fors.BlocksFrom(s, 0) + BlocksFrom(s, 0) == s.SigBlocks()
    ensures result == 0 <==> siglen == s.SigBytes() && Accepts(s, View(sig, s.n, s.SigBlocks()), m, pk)
  {
    hide View, HtVerify, Fors.RootsFromSig, Pow;
    BlocksPartition(s);
    if siglen != s.SigBytes() {
      return -1;
    }
    ghost var cnt := s.SigBlocks();
    var pub := pk[..s.n];
    var wotsAddr, treeAddr := ZERO_ADDRESS.SetType(WOTS), ZERO_ADDRESS.SetType(HASHTREE);
    var wotsPkAddr := ZERO_ADDRESS.SetType(WOTSPK);
    var rnd := GetBlock(sig, s.n, cnt, 0);
    var dg := s.messageDigest(rnd, pk, m);
    var tree, leaf := TreeIndex(s, dg), LeafIndex(s, dg);
    wotsAddr := wotsAddr.SetTree(tree).SetKeypair(leaf);
    var fors := GetBlocks(sig, s.n, cnt, 1, Fors.BlocksFrom(s, 0));
    var root := ForsPkFromSig(s, pub, dg.mhash, fors, wotsAddr);
    root := VerifyLayers(s, pub, root, tree, leaf, wotsAddr, treeAddr, wotsPkAddr, sig, cnt, 1 + Fors.BlocksFrom(s, 0));
    result := if root == pk[s.n..] then 0 else -1;
  }

  lemma FlattenInverse(b: seq<byte>, n: nat, cnt: nat)
    requires n > 0 && |b| == cnt * n
    ensures Flatten(Cut(b, n)) == b
  {
    CutLength(b, n, cnt);
    FlattenLength(Cut(b, n), n);
    CutFlatten(Cut(b, n), n);
    CutInjective(Flatten(Cut(b, n)), b, n, cnt);
  }

  /** What crypto_sign makes of a message that lies in the output buffer: the digest reads it with the randomizer written
      over the front of the buffer, and it is moved as the signature has left it. */
  function SignedInPlace(s: Scheme, sk: seq<byte>, optrand: Block, buf: seq<byte>, at: nat, mlen: nat): seq<byte>
    requires s.Valid() && |sk| == 4 * s.n && at + mlen <= |buf|
  {
    var rnd := s.messageRandom(sk[s.n..2 * s.n], optrand, buf[at..at + mlen]);
    var sig := Flatten(SignBlocksFrom(s, sk, rnd, MessageAtDigest(buf, at, mlen, rnd)));
    sig + Overwritten(buf, sig)[at..at + mlen]
  }

  /** Where the message does not overlap the place of the signature, that is the signed message. */
  lemma BehindSignatureIsSignedMessage(s: Scheme, sk: seq<byte>, optrand: Block, buf: seq<byte>, at: nat, mlen: nat)
    requires s.Valid() && |sk| == 4 * s.n && s.SigBytes() <= at && at + mlen <= |buf|
    ensures SignedInPlace(s, sk, optrand, buf, at, mlen) == SignedMessage(s, sk, optrand, buf[at..at + mlen])
  {
    hide Flatten, SignDigest;
    var m := buf[at..at + mlen];
    var rnd := s.messageRandom(sk[s.n..2 * s.n], optrand, m);
    TimesPred(s.SigBlocks(), s.n);
    BehindIsUnchanged(buf, rnd, at, mlen);
    SignBlocksLength(s, sk, optrand, m);
    BlocksPartition(s);
    FlattenLength(SignBlocks(s, sk, optrand, m), s.n);
    BehindIsUnchanged(buf, Flatten(SignBlocks(s, sk, optrand, m)), at, mlen);
  }

  /** The signature as bytes at the front of a buffer, and the message after that. */
  method SignFront(s: Scheme, sm: array<byte>, m: array<byte>, at: nat, mlen: nat, sk: seq<byte>, optrand: Block)
    returns (ghost sig: seq<byte>, siglen: nat)
    requires s.Valid() && |sk| == 4 * s.n && sm.Length >= s.SigBytes() && at + mlen <= m.Length
    modifies sm
    ensures siglen == s.SigBytes() == |sig|
    ensures sm[..] == Overwritten(old(sm[..]), sig)
    ensures sig + m[at..at + mlen] == if sm == m then SignedInPlace(s, sk, optrand, old(sm[..]), at, mlen)
              else SignedMessage(s, sk, optrand, old(m[at..at + mlen]))
  {
    hide SignBlocksFrom, Flatten, Cut, MessageAtDigest;
    ghost var was := sm[..];
    siglen := CryptoSignSignature(s, sm, m, at, mlen, sk, optrand);
    sig := sm[..siglen];
    FlattenInverse(sig, s.n, s.SigBlocks());
    assert sm[siglen..] == was[siglen..];
    assert sm[..] == sig + sm[siglen..];
  }

  /** crypto_sign: the signature, then the message as the moment of the move finds it. */
  method CryptoSign(s: Scheme, sm: array<byte>, m: array<byte>, at: nat, mlen: nat, sk: seq<byte>, optrand: Block)
    returns (smlen: nat)
    requires s.Valid() && |sk| == 4 * s.n && at + mlen <= m.Length && sm.Length >= s.SigBytes() + mlen
    modifies sm
    ensures smlen == s.SigBytes() + mlen
    ensures sm[..smlen] == if sm == m then SignedInPlace(s, sk, optrand, old(sm[..]), at, mlen)
              else SignedMessage(s, sk, optrand, old(m[at..at + mlen]))
    ensures sm[smlen..] == old(sm[s.SigBytes() + mlen..])
  {
    hide SignedInPlace, SignedMessage, Overwritten, Scheme.SigBytes;
    ghost var was := sm[..];
    ghost var sig;
    var siglen;
    sig, siglen := SignFront(s, sm, m, at, mlen, sk, optrand);
    ghost var signed := sm[..];
    var message := m[at..at + mlen];
    PutBytes(sm, siglen, message);
    MovedBehind(was, sig, message, signed, sm[..]);
    smlen := siglen + mlen;
  }

  lemma MovedBehind(was: seq<byte>, sig: seq<byte>, message: seq<byte>, signed: seq<byte>, after: seq<byte>)
    requires |sig| + |message| <= |was| && signed == Overwritten(was, sig)
    requires after == signed[..|sig|] + message + signed[|sig| + |message|..]
    ensures |after| == |was| && after[..|sig| + |message|] == sig + message
    ensures after[|sig| + |message|..] == was[|sig| + |message|..]
  {
    assert signed[|sig| + |message|..] == was[|sig| + |message|..];
  }

  /** crypto_sign_open: on success the message goes to the front of m; otherwise m is cleared.
      The two buffers may be the same one: the message is moved, not copied piecewise. */
  method CryptoSignOpen(s: Scheme, m: array<byte>, sm: array<byte>, smlen: nat, pk: seq<byte>)
    returns (result: int, mlen: nat)
    requires s.Valid() && |pk| == 2 * s.n && smlen <= sm.Length && smlen <= m.Length
    modifies m
    ensures match OpenSigned(s, old(sm[..smlen]), pk)
            case Opened(message) => result == 0 && mlen == |message| && mlen <= smlen && m[..mlen] == message
                                    && m[mlen..] == old(m[..])[mlen..]
            case Rejected => result == -1 && mlen == 0 && (forall i :: 0 <= i < smlen ==> m[i] == 0)
                             && m[smlen..] == old(m[smlen..])
  {
    hide Accepts, Cut;
    BlocksPartition(s);
    if smlen < s.SigBytes() {
      PutBytes(m, 0, seq(smlen, _ => 0));
      return -1, 0;
    }
    mlen := smlen - s.SigBytes();
    var check := VerifyFront(s, sm, smlen, sm[s.SigBytes()..smlen], pk);
    assert sm[..smlen][..s.SigBytes()] == sm[..s.SigBytes()];
    assert sm[..smlen][s.SigBytes()..] == sm[s.SigBytes()..smlen];
    if check != 0 {
      PutBytes(m, 0, seq(smlen, _ => 0));
      return -1, 0;
    }
    PutBytes(m, 0, sm[s.SigBytes()..smlen]);
    result := 0;
  }

  /** crypto_sign_verify on the first SPX_BYTES bytes of a buffer. */
  method VerifyFront(s: Scheme, sm: array<byte>, smlen: nat, m: seq<byte>, pk: seq<byte>) returns (result: int)
    requires s.Valid() && |pk| == 2 * s.n && s.SigBytes() <= smlen <= sm.Length
    ensures 1 + Fors.BlocksFrom(s, 0) + BlocksFrom(s, 0) == s.SigBlocks() == |Cut(sm[..s.SigBytes()], s.n)|
    ensures result == 0 <==> Accepts(s, Cut(sm[..s.SigBytes()], s.n), m, pk)
  {
    hide Accepts;
    BlocksPartition(s);
    CutLength(sm[..s.SigBytes()], s.n, s.SigBlocks());
    result := CryptoSignVerify(s, sm, s.SigBytes(), m, pk);
  }
}
