/**
 The parameters, byte blocks and hash addresses of the SPHINCS+ signer.

 Every buffer the signer touches is made of blocks of `n` bytes, so signatures are described here as
 sequences of blocks and laid out in byte arrays at offset `block index * n`.
 The hash functions are fields of `Scheme`: each statement holds for all of them.
 */
module SphincsParams {
  import opened Bytes

  type Block = seq<byte>

  // Hash address types (FIPS 205, section 4.2, in the numbering of the submission).
  const WOTS := 0
  const WOTSPK := 1
  const HASHTREE := 2
  const FORSTREE := 3
  const FORSPK := 4
  const WOTSPRF := 5
  const FORSPRF := 6

  /** The 22-byte compressed address: layer (byte 0), tree (1..8), type (9), key pair (13),
      chain or tree height (17), and tree index (18..21), whose last byte is also the hash position. */
  datatype Address = Address(layer: nat, tree: nat, typ: nat, keypair: nat, chain: nat, index: nat) {
    function SetLayer(x: nat): Address { this.(layer := x % 256) }
    function SetTree(x: nat): Address { this.(tree := x % 0x1_0000_0000_0000_0000) }
    function SetType(x: nat): Address { this.(typ := x % 256) }
    function SetKeypair(x: nat): Address { this.(keypair := x % 256) }
    function SetChain(x: nat): Address { this.(chain := x % 256) }
    function SetHash(x: nat): Address { this.(index := index - index % 256 + x % 256) }
    function SetTreeHeight(x: nat): Address { this.(chain := x % 256) }
    function SetTreeIndex(x: nat): Address { this.(index := x % 0x1_0000_0000) }
    function CopySubtree(from: Address): Address { this.(layer := from.layer, tree := from.tree) }
    function CopyKeypair(from: Address): Address {
      this.(layer := from.layer, tree := from.tree, keypair := from.keypair)
    }
  }

  const ZERO_ADDRESS := Address(0, 0, 0, 0, 0, 0)

  /** The seeds the hash functions are keyed with. */
  datatype Context = Context(pubSeed: Block, skSeed: Block)

  /** What hashing the message yields: FORS digest bytes, and the raw tree and leaf numbers. */
  datatype Digest = Digest(mhash: seq<byte>, rawTree: nat, rawLeaf: nat)

  datatype Scheme = Scheme(
    n: nat,                   // bytes per block
    w: nat,                   // Winternitz parameter
    digitsPerByte: nat,       // base-w digits in one byte
    checksumDigits: nat,      // base-w digits of the checksum
    height: nat,              // height of one subtree
    d: nat,                   // layers of the hypertree
    forsTrees: nat,
    forsHeight: nat,
    thash: (Block, Address, seq<Block>) -> Block,
    prf: (Block, Block, Address) -> Block,
    messageRandom: (Block, Block, seq<byte>) -> Block,
    messageDigest: (Block, seq<byte>, seq<byte>) -> Digest)
  {
    function MessageDigits(): nat { n * digitsPerByte }

    function WotsLen(): nat { MessageDigits() + checksumDigits }

    function ForsBlocks(): nat { forsTrees * (forsHeight + 1) }

    function LayerBlocks(): nat { WotsLen() + height }

    function SigBlocks(): nat { 1 + ForsBlocks() + d * LayerBlocks() }

    /** Length of a signature in bytes. */
    function SigBytes(): nat { SigBlocks() * n }

    /** What the C headers and the hash functions guarantee about the parameters. */
    ghost predicate Valid() {
      && n > 0 && 1 < w <= 256 && digitsPerByte > 0 && d > 0
      && 0 < height < 32 && 0 < forsHeight < 32
      && height * (d - 1) <= 64
      && (forall p, a, x :: |thash(p, a, x)| == n)
      && (forall p, k, a :: |prf(p, k, a)| == n)
      && (forall k, o, m :: |messageRandom(k, o, m)| == n)
      && (forall r, p, m :: |messageDigest(r, p, m).mhash| * 8 >= forsTrees * forsHeight)
    }

    /** The digits encode every message and every checksum. */
    ghost predicate EncodesMessages() {
      && w > 1 && Pow(w, digitsPerByte) == 256
      && MessageDigits() * (w - 1) < Pow(w, checksumDigits)
    }
  }

  function Pow(b: nat, e: nat): (r: nat)
    ensures b > 0 ==> r > 0
  {
    if e == 0 then 1 else b * Pow(b, e - 1)
  }

  lemma {:induction false} PowSum(b: nat, x: nat, y: nat)
    ensures Pow(b, x + y) == Pow(b, x) * Pow(b, y)
    decreases x
  {
    if x > 0 {
      PowSum(b, x - 1, y);
      Associate(b, Pow(b, x - 1), Pow(b, y));
    }
  }

  lemma Associate(b: nat, q: nat, r: nat)
    ensures b * (q * r) == (b * q) * r
  {
  }

  /** i >> h. */
  function Shift(i: nat, h: nat): nat {
    if h == 0 then i else Shift(i / 2, h - 1)
  }

  lemma {:induction false} ShiftStep(i: nat, h: nat)
    ensures Shift(i, h + 1) == Shift(i, h) / 2
  {
    if h > 0 { ShiftStep(i / 2, h - 1); }
  }

  lemma {:induction false} ShiftBelow(i: nat, h: nat, k: nat)
    requires i < Pow(2, h + k)
    ensures Shift(i, h) < Pow(2, k)
  {
    if h > 0 { ShiftBelow(i / 2, h - 1, k); }
  }

  lemma {:induction false} ShiftOffset(i: nat, h: nat, t: nat)
    requires i < Pow(2, h)
    ensures Shift(i + t * Pow(2, h), h) == t
  {
    if h == 0 {
      assert Pow(2, 0) == 1;
    } else {
      var p := Pow(2, h - 1);
      assert (i + t * Pow(2, h)) / 2 == i / 2 + t * p by {
        assert t * Pow(2, h) == 2 * (t * p);
      }
      ShiftOffset(i / 2, h - 1, t);
    }
  }

  /** Adding one to i carries through its trailing ones, up to the first zero bit at position t. */
  lemma {:induction false} ShiftSuccessor(i: nat, t: nat, h: nat)
    requires forall j :: 0 <= j < t ==> Shift(i, j) % 2 == 1
    requires h > t ==> Shift(i, t) % 2 == 0
    ensures Shift(i + 1, h) == if h <= t then Shift(i, h) + 1 else Shift(i, h)
  {
    if h > 0 {
      if t > 0 {
        assert Shift(i, 0) % 2 == 1;
        assert (i + 1) / 2 == i / 2 + 1;
        forall j | 0 <= j < t - 1 ensures Shift(i / 2, j) % 2 == 1 {
          assert Shift(i, j + 1) == Shift(i / 2, j);
        }
        ShiftSuccessor(i / 2, t - 1, h - 1);
      } else {
        assert (i + 1) / 2 == i / 2;
      }
    }
  }

  /** The neighbour of node i under the same parent: i ^ 1. */
  function Sibling(i: nat): nat {
    if i % 2 == 0 then i + 1 else i - 1
  }

  // ----- blocks in byte buffers

  ghost predicate AllLength(bs: seq<Block>, n: nat) {
    forall i :: 0 <= i < |bs| ==> |bs[i]| == n
  }

  function Cut(b: seq<byte>, n: nat): (r: seq<Block>)
    requires n > 0
    decreases |b|
  {
    if |b| < n then [] else [b[..n]] + Cut(b[n..], n)
  }

  lemma {:induction false} FlattenLength(bs: seq<Block>, n: nat)
    requires AllLength(bs, n)
    ensures |Flatten(bs)| == |bs| * n
  {
    if bs != [] {
      FlattenLength(bs[1..], n);
      assert |bs| * n == n + (|bs| - 1) * n;
    }
  }

  /** Cutting a laid-out signature gives back its blocks. */
  lemma {:induction false} CutFlatten(bs: seq<Block>, n: nat)
    requires n > 0 && AllLength(bs, n)
    ensures Cut(Flatten(bs), n) == bs
  {
    if bs != [] {
      CutFlatten(bs[1..], n);
      var f := Flatten(bs);
      assert f[..n] == bs[0] && f[n..] == Flatten(bs[1..]);
    }
  }
}
