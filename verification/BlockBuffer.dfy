/** Byte arrays read and written one n-byte block at a time, as the signer's memcpy calls do. */
module BlockBuffer {
  import opened Bytes
  import opened SphincsParams

  lemma {:induction false} CutLength(b: seq<byte>, n: nat, cnt: nat)
    requires n > 0 && |b| == cnt * n
    ensures |Cut(b, n)| == cnt && AllLength(Cut(b, n), n)
    decreases cnt
  {
    if cnt > 0 {
      assert |b| - n == (cnt - 1) * n && |b| >= n;
      CutLength(b[n..], n, cnt - 1);
    }
  }

  lemma TimesPred(k: nat, n: nat)
    requires k > 0
    ensures k * n == n + (k - 1) * n && (k - 1) * n >= 0
  {
  }

  /** Cutting splits at any block boundary. */
  lemma {:induction false} CutAppend(a: seq<byte>, b: seq<byte>, n: nat, k: nat)
    requires n > 0 && |a| == k * n
    ensures Cut(a + b, n) == Cut(a, n) + Cut(b, n) && |Cut(a, n)| == k
    decreases k
  {
    if k == 0 {
      assert a + b == b;
    } else {
      TimesPred(k, n);
      CutAppend(a[n..], b, n, k - 1);
      assert (a + b)[..n] == a[..n] && (a + b)[n..] == a[n..] + b;
    }
  }

  lemma CutAround(p: seq<byte>, x: Block, q: seq<byte>, n: nat, k: nat)
    requires n > 0 && |p| == k * n && |x| == n
    ensures Cut(p + x + q, n) == Cut(p, n) + [x] + Cut(q, n) && |Cut(p, n)| == k
  {
    CutAppend(p, x + q, n, k);
    assert p + x + q == p + (x + q);
    assert (x + q)[..n] == x && (x + q)[n..] == q;
  }

  lemma OffsetInside(n: nat, cnt: nat, k: nat)
    requires k < cnt
    ensures k * n + n <= cnt * n
  {
    if k + 1 < cnt { OffsetInside(n, cnt - 1, k); }
    TimesPred(cnt, n);
  }

  lemma CutAt(b: seq<byte>, n: nat, cnt: nat, k: nat)
    requires n > 0 && |b| == cnt * n && k < cnt
    ensures k * n + n <= |b| && |Cut(b, n)| == cnt && Cut(b, n)[k] == b[k * n..k * n + n]
  {
    hide Cut;
    CutLength(b, n, cnt);
    OffsetInside(n, cnt, k);
    var at := k * n;
    SplitInThree(b, at, n);
    CutAround(b[..at], b[at..at + n], b[at + n..], n, k);
  }

  lemma SplitInThree(b: seq<byte>, at: nat, n: nat)
    requires at + n <= |b|
    ensures b == b[..at] + b[at..at + n] + b[at + n..]
  {
  }

  /** Two byte strings whose blocks agree are equal. */
  lemma {:induction false} CutInjective(b: seq<byte>, c: seq<byte>, n: nat, cnt: nat)
    requires n > 0 && |b| == cnt * n && |c| == cnt * n && Cut(b, n) == Cut(c, n)
    ensures b == c
    decreases cnt
  {
    if cnt > 0 {
      assert |b| - n == (cnt - 1) * n && (cnt - 1) * n >= 0;
      var u, v := Cut(b, n), Cut(c, n);
      assert u[0] == v[0] && u[1..] == v[1..];
      CutInjective(b[n..], c[n..], n, cnt - 1);
      assert b == b[..n] + b[n..] && c == c[..n] + c[n..];
    }
  }

  /** Replacing the bytes of block k replaces block k of the view. */
  lemma CutUpdate(p: seq<byte>, x: Block, y: Block, q: seq<byte>, n: nat, k: nat)
    requires n > 0 && |p| == k * n && |x| == |y| == n
    ensures k < |Cut(p + x + q, n)| && Cut(p + y + q, n) == Cut(p + x + q, n)[k := y]
  {
    CutAround(p, x, q, n, k);
    CutAround(p, y, q, n, k);
  }

  ghost predicate Fits(buf: array<byte>, n: nat, cnt: nat) {
    n > 0 && cnt * n <= buf.Length
  }

  /** The first `cnt` blocks of a buffer. */
  ghost function View(buf: array<byte>, n: nat, cnt: nat): (r: seq<Block>)
    requires Fits(buf, n, cnt)
    reads buf
    ensures |r| == cnt && AllLength(r, n)
  {
    CutLength(buf[..cnt * n], n, cnt);
    Cut(buf[..cnt * n], n)
  }

  /** The bytes behind them. */
  ghost function Rest(buf: array<byte>, n: nat, cnt: nat): seq<byte>
    requires Fits(buf, n, cnt)
    reads buf
  {
    buf[cnt * n..]
  }

  /** memcpy to a byte offset. */
  method PutBytes(buf: array<byte>, at: nat, data: seq<byte>)
    requires at + |data| <= buf.Length
    modifies buf
    ensures buf[..] == old(buf[..at]) + data + old(buf[at + |data|..])
  {
    for i := 0 to |data|
      invariant forall j :: 0 <= j < buf.Length ==>
                  buf[j] == if at <= j < at + i then data[j - at] else old(buf[j])
    {
      buf[at + i] := data[i];
    }
  }

  /** memcpy of one block to the buffer: the view changes at k only, and the bytes behind it do not. */
  method PutBlock(buf: array<byte>, n: nat, ghost cnt: nat, k: nat, block: Block)
    requires Fits(buf, n, cnt) && k < cnt && |block| == n
    modifies buf
    ensures View(buf, n, cnt) == old(View(buf, n, cnt))[k := block]
    ensures Rest(buf, n, cnt) == old(Rest(buf, n, cnt))
  {
    ghost var lim := cnt * n;
    ghost var before := buf[..];
    CutAt(before[..lim], n, cnt, k);
    var at := k * n;
    PutBytes(buf, at, block);
    PutBlockView(before, buf[..], n, cnt, k, at, lim, block);
    assert before[..lim] == old(buf[..cnt * n]) && buf[..][..lim] == buf[..cnt * n];
    assert before[lim..] == old(buf[cnt * n..]) && buf[..][lim..] == buf[cnt * n..];
  }

  /** A byte string with its front overwritten. */
  function Overwritten(b: seq<byte>, data: seq<byte>): (r: seq<byte>)
    ensures |r| == |b|
  {
    if |data| <= |b| then data + b[|data|..] else b
  }

  /** memcpy of the first block, byte by byte and as a view. */
  method PutFirstBlock(buf: array<byte>, n: nat, ghost cnt: nat, block: Block)
    requires Fits(buf, n, cnt) && cnt > 0 && |block| == n && n <= buf.Length
    modifies buf
    ensures buf[..] == Overwritten(old(buf[..]), block)
    ensures View(buf, n, cnt) == old(View(buf, n, cnt))[0 := block]
    ensures Rest(buf, n, cnt) == old(Rest(buf, n, cnt))
  {
    ghost var lim := cnt * n;
    ghost var before := buf[..];
    TimesPred(cnt, n);
    PutBytes(buf, 0, block);
    PutBlockView(before, buf[..], n, cnt, 0, 0, lim, block);
    assert before[..lim] == old(buf[..cnt * n]) && buf[..][..lim] == buf[..cnt * n];
    assert before[lim..] == old(buf[cnt * n..]) && buf[..][lim..] == buf[cnt * n..];
  }

  lemma PutBlockView(before: seq<byte>, after: seq<byte>, n: nat, cnt: nat, k: nat, at: nat, lim: nat, block: Block)
    requires n > 0 && lim == cnt * n && at == k * n && k < cnt && |block| == n
    requires at + n <= lim <= |before|
    requires after == before[..at] + block + before[at + n..]
    ensures |Cut(before[..lim], n)| == cnt
    ensures Cut(after[..lim], n) == Cut(before[..lim], n)[k := block]
    ensures after[lim..] == before[lim..]
  {
    CutLength(before[..lim], n, cnt);
    var p, x, q := before[..at], before[at..at + n], before[at + n..lim];
    assert before[..lim] == p + x + q && after[..lim] == p + block + q;
    CutUpdate(p, x, block, q, n, k);
  }

  /** memcpy of one block out of the buffer. */
  method GetBlock(buf: array<byte>, n: nat, ghost cnt: nat, k: nat) returns (block: Block)
    requires Fits(buf, n, cnt) && k < cnt
    ensures block == View(buf, n, cnt)[k]
  {
    ghost var lim := cnt * n;
    CutAt(buf[..lim], n, cnt, k);
    var at := k * n;
    block := buf[at..at + n];
    SliceOfFront(buf[..], lim, at, n);
    assert buf[..][..lim] == buf[..lim] && block == buf[..][at..at + n];
  }

  lemma SliceOfFront(b: seq<byte>, lim: nat, at: nat, n: nat)
    requires at + n <= lim <= |b|
    ensures b[..lim][at..at + n] == b[at..at + n]
  {
  }

  /** Several blocks out of the buffer. */
  method GetBlocks(buf: array<byte>, n: nat, ghost cnt: nat, at: nat, len: nat) returns (blocks: seq<Block>)
    requires Fits(buf, n, cnt) && at + len <= cnt
    ensures blocks == View(buf, n, cnt)[at..at + len]
  {
    hide Fits, View;
    blocks := [];
    for i := 0 to len
      invariant blocks == View(buf, n, cnt)[at..at + i]
    {
      var b := GetBlock(buf, n, cnt, at + i);
      blocks := blocks + [b];
    }
  }
}
