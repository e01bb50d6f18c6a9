/**
 Loading many memory-protection regions through the window of four register pairs that alias the regions around
 the one selected by RNR.
 */
module MpuLoader {
  type word = x: int | 0 <= x < 0x1_0000_0000

  const ALIASES := 4

  datatype Region = Region(rbar: word, rlar: word)

  // ----- region tables as values

  /** Setting the regions of a table one by one, from region `first` on. */
  function SetOneByOne(regions: seq<Region>, first: nat, table: seq<Region>): (r: seq<Region>)
    requires first + |table| <= |regions|
    ensures |r| == |regions|
    decreases |table|
  {
    if table == [] then regions else SetOneByOne(regions[first := table[0]], first + 1, table[1..])
  }

  /** Exactly the regions of the table change. */
  lemma {:induction false} SetOneByOneAt(regions: seq<Region>, first: nat, table: seq<Region>, k: nat)
    requires first + |table| <= |regions| && k < |regions|
    ensures SetOneByOne(regions, first, table)[k]
         == if first <= k < first + |table| then table[k - first] else regions[k]
    decreases |table|
  {
    if table != [] {
      SetOneByOneAt(regions[first := table[0]], first + 1, table[1..], k);
    }
  }

  /** A table may be loaded in two parts. */
  lemma SetInTwoParts(regions: seq<Region>, first: nat, a: seq<Region>, b: seq<Region>)
    requires first + |a| + |b| <= |regions|
    ensures SetOneByOne(SetOneByOne(regions, first, a), first + |a|, b) == SetOneByOne(regions, first, a + b)
  {
    var half := SetOneByOne(regions, first, a);
    forall k | 0 <= k < |regions|
      ensures SetOneByOne(half, first + |a|, b)[k] == SetOneByOne(regions, first, a + b)[k]
    {
      SetOneByOneAt(regions, first, a, k);
      SetOneByOneAt(half, first + |a|, b, k);
      SetOneByOneAt(regions, first, a + b, k);
    }
  }

  // ----- the window

  /** A table as the words it occupies in memory. */
  function Words(table: seq<Region>): (w: seq<word>)
    ensures |w| == 2 * |table|
    ensures forall k :: 0 <= k < |table| ==> w[2 * k] == table[k].rbar && w[2 * k + 1] == table[k].rlar
  {
    if table == [] then [] else Words(table[..|table| - 1]) + [table[|table| - 1].rbar, table[|table| - 1].rlar]
  }

  /** The region behind pair n of the window: pair 0 is the selected region itself, the others replace the two
      low bits of its number. */
  function Target(rnr: nat, n: nat): nat {
    if n == 0 then rnr else rnr - rnr % ALIASES + n
  }

  /** Pair 0 of the window is the selected region; pairs 1 to 3 are the regions of the same group of four. */
  lemma WindowPairs(group: nat, low: nat, n: nat)
    requires low < 4 && n < 4
    ensures Target(4 * group + low, n) == if n == 0 then 4 * group + low else 4 * group + n
  {
    assert (4 * group + low) % 4 == low;
  }

  /** A word written to the window. */
  function WriteWord(regions: seq<Region>, rnr: nat, i: nat, v: word): (r: seq<Region>)
    ensures |r| == |regions|
  {
    var t := Target(rnr, i / 2);
    if t >= |regions| then regions
    else if i % 2 == 0 then regions[t := regions[t].(rbar := v)] else regions[t := regions[t].(rlar := v)]
  }

  function WriteWords(regions: seq<Region>, rnr: nat, i: nat, words: seq<word>): (r: seq<Region>)
    ensures |r| == |regions|
    decreases |words|
  {
    if words == [] then regions else
      var n := |words| - 1;
      WriteWord(WriteWords(regions, rnr, i, words[..n]), rnr, i + n, words[n])
  }

  /** From an aligned RNR, whole pairs copied into the window set the regions behind it. */
  lemma {:induction false} WindowSetsRegions(regions: seq<Region>, base: nat, offset: nat, table: seq<Region>)
    requires base % ALIASES == 0 && base + offset + |table| <= |regions|
    ensures WriteWords(regions, base, 2 * offset, Words(table)) == SetOneByOne(regions, base + offset, table)
    decreases |table|
  {
    hide WriteWord, SetOneByOne, WriteWords, Words;
    if table == [] {
      NothingWritten(regions, base, offset);
    } else {
      var n := |table| - 1;
      var rest := table[..n];
      WindowSetsRegions(regions, base, offset, rest);
      var before := WriteWords(regions, base, 2 * offset, Words(rest));
      LastPairWritten(regions, base, 2 * offset, table);
      PairSetsRegion(before, base, offset + n, table[n]);
      assert rest + [table[n]] == table;
      SetInTwoParts(regions, base + offset, rest, [table[n]]);
      SetOne(before, base + offset + n, table[n]);
    }
  }

  lemma NothingWritten(regions: seq<Region>, base: nat, offset: nat)
    requires base + offset <= |regions|
    ensures WriteWords(regions, base, 2 * offset, Words([])) == regions
    ensures SetOneByOne(regions, base + offset, []) == regions
  {
  }

  lemma SetOne(regions: seq<Region>, k: nat, region: Region)
    requires k < |regions|
    ensures SetOneByOne(regions, k, [region]) == regions[k := region]
  {
  }

  /** The last two words of a table are written last. */
  lemma LastPairWritten(regions: seq<Region>, rnr: nat, i: nat, table: seq<Region>)
    requires table != []
    ensures var n := |table| - 1;
            var before := WriteWords(regions, rnr, i, Words(table[..n]));
            WriteWords(regions, rnr, i, Words(table))
            == WriteWord(WriteWord(before, rnr, i + 2 * n, table[n].rbar), rnr, i + 2 * n + 1, table[n].rlar)
  {
    hide WriteWord;
    var n := |table| - 1;
    var w := Words(table);
    assert w[..2 * n + 1][..2 * n] == Words(table[..n]);
    assert WriteWords(regions, rnr, i, w[..2 * n + 1])
        == WriteWord(WriteWords(regions, rnr, i, Words(table[..n])), rnr, i + 2 * n, table[n].rbar);
  }

  lemma PairSetsRegion(regions: seq<Region>, rnr: nat, n: nat, region: Region)
    requires Target(rnr, n) == rnr + n < |regions| || (rnr % ALIASES == 0 && rnr + n < |regions|)
    ensures WriteWord(WriteWord(regions, rnr, 2 * n, region.rbar), rnr, 2 * n + 1, region.rlar)
         == regions[rnr + n := region]
  {
  }

  // ----- the unit

  class Mpu {
    var rnr: nat
    const regions: array<Region>

    constructor (count: nat)
      ensures fresh(regions) && regions.Length == count
    {
      rnr := 0;
      regions := new Region[count](_ => Region(0, 0));
    }

    method SelectRegion(n: nat)
      modifies this
      ensures rnr == n
    {
      rnr := n;
    }

    /** A store to word i after RBAR. */
    method Store(i: nat, v: word)
      requires Target(rnr, i / 2) < regions.Length
      modifies regions
      ensures regions[..] == WriteWord(old(regions[..]), rnr, i, v)
    {
      var t := Target(rnr, i / 2);
      regions[t] := if i % 2 == 0 then regions[t].(rbar := v) else regions[t].(rlar := v);
    }

    /** ARM_MPU_OrderedMemcpy to word dst of the window: every word is stored once, in order. */
    method OrderedMemcpy(dst: nat, src: seq<word>)
      requires forall i :: dst <= i < dst + |src| ==> Target(rnr, i / 2) < regions.Length
      modifies regions
      ensures regions[..] == WriteWords(old(regions[..]), rnr, dst, src)
    {
      hide WriteWord, Target;
      for i := 0 to |src|
        invariant regions[..] == WriteWords(old(regions[..]), rnr, dst, src[..i])
      {
        Store(dst + i, src[i]);
        assert src[..i + 1][..i] == src[..i];
      }
      assert src[..|src|] == src;
    }

    /** ARM_MPU_SetRegionEx */
    method SetRegionEx(n: nat, region: Region)
      requires n < regions.Length
      modifies this, regions
      ensures rnr == n && regions[..] == old(regions[..])[n := region]
    {
      hide WriteWord;
      SelectRegion(n);
      PairSetsRegion(regions[..], n, 0, region);
      Store(0, region.rbar);
      Store(1, region.rlar);
    }

    /** The reference: one call of ARM_MPU_SetRegionEx for each table entry. */
    method SetRegions(first: nat, table: seq<Region>)
      requires first + |table| <= regions.Length
      modifies this, regions
      ensures regions[..] == SetOneByOne(old(regions[..]), first, table)
    {
      for i := 0 to |table|
        invariant regions[..] == SetOneByOne(old(regions[..]), first, table[..i])
      {
        SetInTwoParts(old(regions[..]), first, table[..i], [table[i]]);
        assert table[..i] + [table[i]] == table[..i + 1];
        SetRegionEx(first + i, table[i]);
      }
      assert table[..|table|] == table;
    }

    /** ARM_MPU_LoadEx: the chunked copies have the effect of setting the regions one by one. */
    method LoadEx(first: nat, table: seq<Region>, cnt: nat)
      requires cnt <= |table| && first + cnt <= regions.Length
      modifies this, regions
      ensures regions[..] == SetOneByOne(old(regions[..]), first, table[..cnt])
    {
      hide SetOneByOne, WriteWords, WriteWord, Words;
      ghost var was := regions[..];
      Alignment(first);
      if cnt == 1 {
        SelectRegion(first);
        SingleSetsRegion(was, first, table[0]);
        assert table[..1] == [table[0]];
        OrderedMemcpy(0, Words(table[..1]));
      } else {
        var base: nat, offset: nat := first - first % ALIASES, first % ALIASES;
        var left: nat, row: nat := cnt, 0;
        SelectRegion(base);
        NothingToSet(was, first);
        while offset + left > ALIASES
          invariant row + left == cnt && base + offset == first + row && offset < ALIASES
          invariant base % ALIASES == 0 && rnr == base
          invariant regions[..] == SetOneByOne(was, first, table[..row])
          decreases left
        {
          var c := ALIASES - offset;
          LoadChunk(was, first, table, base, offset, row, c);
          row := row + c;
          left := left - c;
          offset := 0;
          NextAligned(base);
          base := base + ALIASES;
          SelectRegion(base);
        }
        LoadChunk(was, first, table, base, offset, row, left);
      }
    }

    /** One copy into the window. */
    method LoadChunk(ghost was: seq<Region>, ghost first: nat, table: seq<Region>,
                     ghost base: nat, offset: nat, row: nat, c: nat)
      requires base % ALIASES == 0 && rnr == base && base + offset == first + row
      requires offset + c <= ALIASES && row + c <= |table| && first + row + c <= regions.Length == |was|
      requires regions[..] == SetOneByOne(was, first, table[..row])
      modifies regions
      ensures regions[..] == SetOneByOne(was, first, table[..row + c])
    {
      hide SetOneByOne, WriteWords;
      WindowSetsRegions(regions[..], base, offset, table[row..row + c]);
      SetInTwoParts(was, first, table[..row], table[row..row + c]);
      assert table[..row] + table[row..row + c] == table[..row + c];
      OrderedMemcpy(2 * offset, Words(table[row..row + c]));
    }
  }

  lemma Alignment(n: nat)
    ensures (n - n % ALIASES) % ALIASES == 0 && n % ALIASES < ALIASES && n - n % ALIASES >= 0
  {
  }

  lemma NextAligned(base: nat)
    requires base % ALIASES == 0
    ensures (base + ALIASES) % ALIASES == 0
  {
  }

  lemma NothingToSet(regions: seq<Region>, first: nat)
    requires first <= |regions|
    ensures SetOneByOne(regions, first, []) == regions
  {
  }

  /** With RNR on any region, pair 0 of the window is that region. */
  lemma SingleSetsRegion(regions: seq<Region>, first: nat, region: Region)
    requires first < |regions|
    ensures WriteWords(regions, first, 0, Words([region])) == SetOneByOne(regions, first, [region])
  {
    hide WriteWord;
    var w := Words([region]);
    PairSetsRegion(regions, first, 0, region);
    assert w[..1][..0] == [];
    assert WriteWords(regions, first, 0, w[..1]) == WriteWord(regions, first, 0, region.rbar);
    assert w == [region.rbar, region.rlar];
  }
}
