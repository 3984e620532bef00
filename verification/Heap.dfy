/** The kernel heap (src/mm/heap.c): kmalloc and kfree over headers kept inside the heap itself. */
module Heap {
  import opened Memory
  import opened Blocks

  type u32 = x: int | 0 <= x < U32_LIMIT

  type PageWords = s: seq<u32> | |s| == PAGE_WORDS witness seq(PAGE_WORDS, _ => 0)

  /** `node->size`: the payload size in bytes, and bit 0 for a used block. */
  function Header(b: Block): nat {
    4 * b.size + if b.used then 1 else 0
  }

  /** What `size & 1` and `size & ~1` give. */
  lemma HeaderReads(b: Block)
    ensures Header(b) % 2 == (if b.used then 1 else 0) && Header(b) / 4 == b.size
    ensures !b.used ==> Header(b) == 4 * b.size
  {
    DivideByFour(b.size, if b.used then 1 else 0);
  }

  lemma DivideByFour(x: nat, d: nat)
    requires d < 2
    ensures (4 * x + d) / 4 == x
    ensures (4 * x + d) % 2 == d
  {
    HalfOf(2 * x, d);
  }

  lemma HalfOf(y: nat, d: nat)
    requires d < 2
    ensures (2 * y + d) % 2 == d
  {
  }

  /** The size kmalloc really reserves, in words. The rounding is done in 32 bits and wraps. */
  function Rounded(size: u32): (need: nat)
    ensures size < U32_LIMIT - 7 ==> size <= 4 * need < size + 8 && need % 2 == 0 && need <= 0x4000_0000
    ensures size >= U32_LIMIT - 7 ==> need == 0
  {
    (size + 7) % U32_LIMIT / 8 * 2
  }

  /** The blocks of the chain are what the headers say. */
  ghost predicate Laid(words: seq<u32>, c: seq<Block>) {
    && c != [] && Tiles(c, |words|)
    && (forall i :: 0 <= i < |c| ==> c[i].at < |words|)
    && (forall i :: 0 <= i < |c| ==> words[c[i].at] == Header(c[i]))
  }

  /** Header and payload of a block are untouched. */
  ghost predicate Same(words0: seq<u32>, words: seq<u32>, b: Block) {
    End(b) <= |words0| && End(b) <= |words| && words[b.at..End(b)] == words0[b.at..End(b)]
  }

  ghost predicate Kept(words0: seq<u32>, words: seq<u32>, live: set<Block>) {
    forall b :: b in live ==> Same(words0, words, b)
  }

  lemma KeptStart(words: seq<u32>, c: seq<Block>)
    requires Laid(words, c)
    ensures Kept(words, words, Live(c))
  {
    forall b | b in Live(c) ensures Same(words, words, b) {
      var i :| 0 <= i < |c| && c[i] == b;
      Within(c, |words|, i);
    }
  }

  lemma KeptChain(words0: seq<u32>, words1: seq<u32>, words2: seq<u32>, live: set<Block>)
    requires Kept(words0, words1, live) && Kept(words1, words2, live)
    ensures Kept(words0, words2, live)
  {
    forall b | b in live ensures Same(words0, words2, b) {
      assert Same(words0, words1, b) && Same(words1, words2, b);
    }
  }

  /** A write into a free block touches no used one. */
  lemma KeptWrite(words: seq<u32>, c: seq<Block>, i: nat, x: nat, v: u32)
    requires Laid(words, c) && i < |c| && !c[i].used && c[i].at <= x < End(c[i]) && x < |words|
    ensures Kept(words, words[x := v], Live(c))
  {
    KeptStart(words, c);
    forall b | b in Live(c) ensures Same(words, words[x := v], b) {
      Disjoint(c, |words|, b, c[i]);
      assert Same(words, words, b);
    }
  }

  /** Header positions are distinct. */
  lemma OneHeader(words: seq<u32>, c: seq<Block>, i: nat, k: nat)
    requires Laid(words, c) && i < |c| && k < |c| && i != k
    ensures c[k].at < c[i].at || End(c[i]) <= c[k].at
  {
    if i < k { Ordered(c, |words|, i, k); } else { Ordered(c, |words|, k, i); }
  }

  lemma MergeLaid(words: seq<u32>, c: seq<Block>, i: nat, j: nat, v: u32)
    requires Laid(words, c) && i <= j < |c| && (forall k :: i <= k <= j ==> !c[k].used) && End(c[i]) <= End(c[j])
    requires v == 4 * (c[i].size + (End(c[j]) - End(c[i])))
    ensures Laid(words[c[i].at := v], MergeRun(c, i, j))
  {
    var d := MergeRun(c, i, j);
    MergeRunTiles(c, |words|, i, j);
    forall k | 0 <= k < |d| ensures d[k].at < |words| && words[c[i].at := v][d[k].at] == Header(d[k]) {
      var k' := if k <= i then k else k + (j - i);
      if k != i {
        assert d[k] == c[k'];
        OneHeader(words, c, i, k');
      }
    }
  }

  lemma SplitKept(words: seq<u32>, c: seq<Block>, i: nat, x: nat, v: u32, w: u32)
    requires Laid(words, c) && i < |c| && !c[i].used && c[i].at < x < End(c[i]) && x < |words|
    ensures Kept(words, words[c[i].at := v][x := w], Live(c))
  {
    KeptStart(words, c);
    forall b | b in Live(c) ensures Same(words, words[c[i].at := v][x := w], b) {
      Disjoint(c, |words|, b, c[i]);
      assert Same(words, words, b);
    }
  }

  lemma GrowKept(words: seq<u32>, c: seq<Block>, page: PageWords, v: u32)
    requires Laid(words, c) && !c[|c| - 1].used
    ensures Kept(words, (words + page)[c[|c| - 1].at := v], Live(c))
  {
    var i := |c| - 1;
    KeptWrite(words, c, i, c[i].at, v);
    forall b | b in Live(c) ensures Same(words, (words + page)[c[i].at := v], b) {
      assert Same(words, words[c[i].at := v], b);
      assert (words + page)[c[i].at := v] == words[c[i].at := v] + page;
    }
  }

  /** One more page behind the last block. */
  lemma GrowOk(words0: seq<u32>, words: seq<u32>, c: seq<Block>, page: PageWords)
    requires Laid(words, c) && !c[|c| - 1].used && |words| + PAGE_WORDS <= 0x1000_0000 && Kept(words0, words, Live(c))
    ensures c != []
    ensures
      var last := c[|c| - 1].at;
      && last < |words| && words[last] + 4 * PAGE_WORDS < U32_LIMIT
      && var words' := (words + page)[last := words[last] + 4 * PAGE_WORDS];
      && Laid(words', GrowLast(c)) && !GrowLast(c)[|c| - 1].used && |GrowLast(c)| == |c|
      && Live(GrowLast(c)) == Live(c) && Kept(words0, words', Live(c))
  {
    hide Live, Kept;
    var i := |c| - 1;
    var v := words[c[i].at] + 4 * PAGE_WORDS;
    Within(c, |words|, i);
    GrowLaid(words, c, page, v);
    GrowTiles(c, |words|);
    GrowKept(words, c, page, v);
    KeptChain(words0, words, (words + page)[c[i].at := v], Live(c));
  }

  /** Where the next header is. */
  lemma NextHeader(words: seq<u32>, c: seq<Block>, i: nat)
    requires Laid(words, c) && i < |c|
    ensures End(c[i]) == if i + 1 < |c| then c[i + 1].at else |words|
  {
  }

  lemma MarkLaid(words: seq<u32>, c: seq<Block>, i: nat, v: u32)
    requires Laid(words, c) && i < |c| && c[i].used && v == Header(c[i]) - 1
    ensures Laid(words[c[i].at := v], c[i := Freed(c[i])])
    ensures Kept(words, words[c[i].at := v], Live(c) - {c[i]})
    ensures Live(c[i := Freed(c[i])]) == Live(c) - {c[i]}
    ensures Live(c) - {c[i]} == set b | b in Live(c) && b.at != c[i].at
  {
    var d := c[i := Freed(c[i])];
    MarkTiles(c, |words|, i);
    forall k | 0 <= k < |c| && k != i ensures c[k].at != c[i].at { OneHeader(words, c, i, k); }
    KeptStart(words, c);
    forall b | b in Live(c) - {c[i]} ensures b.at != c[i].at && Same(words, words[c[i].at := v], b) {
      Disjoint(c, |words|, b, c[i]);
      assert Same(words, words, b);
    }
  }

  /** A free block is cut into the caller's part and the rest. */
  lemma SplitOk(words0: seq<u32>, words: seq<u32>, c: seq<Block>, i: nat, need: nat)
    requires Laid(words, c) && !c[|c| - 1].used && |words| <= 0x1000_0000 && Kept(words0, words, Live(c))
    requires i < |c| && Fits(c[i], need)
    ensures
      var n := c[i].at;
      && n + 1 + need < |words| && 0 <= words[n] - 4 * need - 4 && 4 * need + 1 < U32_LIMIT
      && var words' := words[n + 1 + need := words[n] - 4 * need - 4][n := 4 * need + 1];
      && Laid(words', Carve(c, i, need)) && |Carve(c, i, need)| == |c| + 1 && !Carve(c, i, need)[|c|].used
      && Live(Carve(c, i, need)) == Live(c) + {Block(n, need, true)} && Block(n, need, true) !in Live(c)
      && Kept(words0, words', Live(c))
  {
    hide Live, Kept;
    var n := c[i].at;
    var v, w := 4 * need + 1, 4 * (c[i].size - need - 1);
    Within(c, |words|, i);
    CarveTiles(c, |words|, i, need);
    CarveLaid(words, c, i, need, v, w);
    SplitKept(words, c, i, n + 1 + need, v, w);
    CarveNew(words, c, i, need);
    KeptChain(words0, words, words[n := v][n + 1 + need := w], Live(c));
    assert words[n + 1 + need := w][n := v] == words[n := v][n + 1 + need := w];
  }

  /** The start of kmalloc's scan. */
  lemma ScanStart(words: seq<u32>, c: seq<Block>, need: nat)
    requires Laid(words, c)
    ensures c[0].at == 0 && Settled(c, 0, need) && Coalesce(c) != []
  {
    CoalesceMerges(c);
  }

  /** The carved block is new. */
  lemma CarveNew(words: seq<u32>, c: seq<Block>, i: nat, need: nat)
    requires Laid(words, c) && i < |c| && !c[i].used
    ensures Block(c[i].at, need, true) !in Live(c)
  {
    if Block(c[i].at, need, true) in Live(c) {
      Disjoint(c, |words|, Block(c[i].at, need, true), c[i]);
    }
  }

  ghost function HeaderIndex(c: seq<Block>, at: nat): (i: nat)
    requires exists b :: b in Live(c) && b.at == at
    ensures i < |c| && c[i].at == at && c[i].used
  {
    var b :| b in Live(c) && b.at == at;
    var i :| 0 <= i < |c| && c[i] == b;
    i
  }

  lemma MarkFree(words: seq<u32>, c: seq<Block>, i: nat)
    requires Laid(words, c) && i < |c| && c[i].used
    ensures Coalesce(c[i := Freed(c[i])]) == EagerFree(Coalesce(c), c[i].at)
  {
    forall k | 0 <= k < |c| && k != i ensures c[k].at != c[i].at { OneHeader(words, c, i, k); }
    MarkIndex(c, i);
    FreeCoalesce(c, c[i].at);
  }

  lemma CarveLaid(words: seq<u32>, c: seq<Block>, i: nat, need: nat, v: u32, w: u32)
    requires Laid(words, c) && i < |c| && Fits(c[i], need) && !c[|c| - 1].used
    requires v == 4 * need + 1 && w == 4 * (c[i].size - need - 1) && c[i].at + 1 + need < |words|
    ensures Laid(words[c[i].at := v][c[i].at + 1 + need := w], Carve(c, i, need))
  {
    var d := Carve(c, i, need);
    var words' := words[c[i].at := v][c[i].at + 1 + need := w];
    CarveTiles(c, |words|, i, need);
    forall k | 0 <= k < |d| ensures d[k].at < |words| && words'[d[k].at] == Header(d[k]) {
      var k' := if k <= i then k else k - 1;
      if k < i || k > i + 1 {
        assert d[k] == c[k'];
        OneHeader(words, c, i, k');
      }
    }
  }

  lemma GrowLaid(words: seq<u32>, c: seq<Block>, page: PageWords, v: u32)
    requires Laid(words, c) && !c[|c| - 1].used
    requires v == Header(c[|c| - 1]) + 4 * PAGE_WORDS
    ensures Laid((words + page)[c[|c| - 1].at := v], GrowLast(c))
  {
    var d := GrowLast(c);
    GrowTiles(c, |words|);
    forall k | 0 <= k < |d|
      ensures d[k].at < |words + page| && (words + page)[c[|c| - 1].at := v][d[k].at] == Header(d[k])
    {
      if k < |c| - 1 { OneHeader(words, c, |c| - 1, k); }
    }
  }

  class Heap {
    var words: seq<u32>        // the heap from HEAP_START; heap_top is its end
    var frames: nat            // frames the allocator can still give

    ghost var chain: seq<Block>

    /** The headers tile the heap, the last block is free, and all of memory is at most 1 GB. */
    ghost predicate Valid()
      reads this
    {
      && Laid(words, chain)
      && !chain[|chain| - 1].used
      && |words| % PAGE_WORDS == 0
      && |words| + PAGE_WORDS * frames <= 0x1000_0000
    }

    /** init_heap: one page and three page tables. */
    constructor (frames: nat, page: PageWords)
      requires frames >= 4                         // BUG_ON(frame == 0), BUG_ON(new_table == 0)
      requires PAGE_WORDS * frames <= 0x1000_0000  // map_memory: BUG_ON(size > 1024*1024*1024)
      ensures Valid() && Live(chain) == {} && this.frames == frames - 1 - TablesFor(0)
      ensures Coalesce(chain) == [Block(0, PAGE_WORDS - 1, false)]
    {
      words := page[0 := 4 * PAGE_WORDS - 4];
      this.frames := frames - 4;
      chain := [Block(0, PAGE_WORDS - 1, false)];
      new;
      assert chain[1..] == [];
    }

    /** The loop that looks for free blocks behind a free block. */
    method FreeRun(n: nat, ghost i: nat) returns (increase: u32, ghost j: nat)
      requires Valid() && i < |chain| && chain[i].at == n && !chain[i].used
      ensures i <= j < |chain| && forall k :: i <= k <= j ==> !chain[k].used
      ensures End(chain[i]) <= End(chain[j]) && increase == 4 * (End(chain[j]) - End(chain[i]))
      ensures j + 1 < |chain| ==> chain[j + 1].used
      ensures increase == 0 ==> j == i
    {
      hide Heap.Valid, Laid, Tiles, Header;
      increase := 0;
      j := i;
      var next := n;
      while true
        invariant i <= j < |chain| && next == chain[j].at && forall k :: i <= k <= j ==> !chain[k].used
        invariant End(chain[i]) <= End(chain[j]) && increase == 4 * (End(chain[j]) - End(chain[i]))
        invariant increase == 0 ==> j == i
        decreases |chain| - j
      {
        Facts(j);
        next := next + 1 + words[next] / 4;
        Facts(j + 1);
        if next < |words| && words[next] % 2 == 0 {
          increase := increase + 4 + words[next];
          j := j + 1;
        } else {
          break;
        }
      }
    }

    /** Header n grows over the free blocks that follow it. */
    method Absorb(n: nat, increase: u32, ghost i: nat, ghost j: nat, ghost words0: seq<u32>)
      requires Valid() && Kept(words0, words, Live(chain)) && i <= j < |chain| && chain[i].at == n
      requires forall k :: i <= k <= j ==> !chain[k].used
      requires End(chain[i]) <= End(chain[j]) && increase == 4 * (End(chain[j]) - End(chain[i]))
      modifies this`words, this`chain
      ensures Valid() && chain == MergeRun(old(chain), i, j)
      ensures Coalesce(chain) == Coalesce(old(chain)) && Live(chain) == Live(old(chain))
      ensures Kept(words0, words, Live(chain)) && |words| == |old(words)|
    {
      hide Coalesce, Live, Kept, Tiles;
      Within(chain, |words|, j);
      MergeRunCoalesce(chain, |words|, i, j);
      MergeRunTiles(chain, |words|, i, j);
      ghost var v := words[n] + increase;
      MergeLaid(words, chain, i, j, v);
      KeptWrite(words, chain, i, n, v);
      KeptChain(words0, words, words[n := v], Live(chain));
      words := words[n := words[n] + increase];
      chain := MergeRun(chain, i, j);
    }

    /** The block at n is cut: `size` bytes for the caller, a new header, and the rest. */
    method Split(n: nat, size: nat, ghost i: nat, ghost words0: seq<u32>)
      requires Valid() && Kept(words0, words, Live(chain)) && i < |chain| && chain[i].at == n && size % 8 == 0
      requires Fits(chain[i], size / 4)
      modifies this`words, this`chain
      ensures Valid() && chain == Carve(old(chain), i, size / 4)
      ensures Live(chain) == Live(old(chain)) + {Block(n, size / 4, true)}
      ensures Block(n, size / 4, true) !in Live(old(chain))
      ensures Kept(words0, words, Live(old(chain)))
    {
      hide Coalesce, Live, Kept, Laid, Carve, Fits;
      SplitOk(words0, words, chain, i, size / 4);
      words := words[n + 1 + size / 4 := words[n] - size - 4][n := size + 1];
      chain := Carve(chain, i, size / 4);
    }

    /** One more page, joined to the free block at `last`, the last one. */
    method Grow(last: nat, page: PageWords, ghost words0: seq<u32>)
      requires Valid() && Kept(words0, words, Live(chain)) && chain[|chain| - 1].at == last
      requires frames >= 1 + TablesFor(|words| / PAGE_WORDS)
      modifies this
      ensures Valid() && chain == GrowLast(old(chain)) && Live(chain) == Live(old(chain))
      ensures frames == old(frames - 1 - TablesFor(|words| / PAGE_WORDS))
      ensures Kept(words0, words, Live(chain))
    {
      hide Coalesce, Live, Kept, Laid, GrowLast;
      GrowOk(words0, words, chain, page);
      frames := frames - 1 - TablesFor(|words| / PAGE_WORDS);
      words := (words + page)[last := words[last] + 4 * PAGE_WORDS];
      chain := GrowLast(chain);
    }

    /** kmalloc. `contents` is what the frames mapped into the heap happen to hold. */
    method Kmalloc(bytes: u32, contents: nat -> PageWords) returns (r: Result)
      requires Valid()
      modifies this
      ensures
        var o := EagerAlloc(Coalesce(old(chain)), Rounded(bytes), old(frames));
        && r == o.result
        && (!r.Halted? ==> Valid() && Coalesce(chain) == o.chain && frames == o.frames)
      ensures r.Got? ==>
        && r.addr > 0
        && Block(r.addr - 1, Rounded(bytes), true) !in Live(old(chain))
        && Live(chain) == Live(old(chain)) + {Block(r.addr - 1, Rounded(bytes), true)}
      ensures r.Null? ==> Live(chain) == Live(old(chain))
      ensures Kept(old(words), words, Live(old(chain)))
    {
      hide EagerAlloc, Coalesce, Carve, MergeRun, GrowLast, Kept, Settled, Live, Laid, Heap.Valid, Header, Tiles;
      ghost var live, words0 := Live(chain), words;
      ghost var need := Rounded(bytes);
      Facts(0);
      KeptStart(words, chain);
      ScanStart(words, chain, need);
      ghost var o := EagerAlloc(Coalesce(chain), need, frames);
      var n, last := 0, -1;
      var size := (bytes + 7) % U32_LIMIT / 8 * 8;
      ghost var i := 0;
      while true
        invariant Valid() && Live(chain) == live && Kept(words0, words, live)
        invariant 0 <= i <= |chain| && Settled(chain, i, need)
        invariant n == if i < |chain| then chain[i].at else |words|
        invariant last == if i > 0 && !chain[i - 1].used then chain[i - 1].at else -1
        invariant Coalesce(chain) != [] && EagerAlloc(Coalesce(chain), need, frames) == o
        decreases frames, |chain|, |chain| - i
      {
        Facts(i);
        if n >= |words| {
          assert n == |words|;                     // BUG_ON(n > heap_top)
          GrowStep(chain, |words|, need, frames);
          var q := |words| / PAGE_WORDS;
          if frames == 0 {
            return Null;
          }
          if frames - 1 < TablesFor(q) {
            return Halted;
          }
          if last >= 0 {
            Grow(last, contents(q), words0);
            n, last := last, -1;
            i := |chain| - 1;
          } else {
            assert false;
          }
        } else if words[n] % 2 == 1 {
          StepSettled(chain, i, need);
          n, last := n + 1 + words[n] / 4, -1;
          i := i + 1;
        } else if words[n] >= size + 4 {
          FoundFits(chain, i, need, frames);
          Split(n, size, i, words0);
          return Got(n + 1);
        } else {
          ghost var j;
          var increase;
          increase, j := FreeRun(n, i);
          if increase > 0 {
            AbsorbSettled(chain, i, j, need);
            Absorb(n, increase, i, j, words0);
          } else {
            StepSettled(chain, i, need);
            n, last := n + 1 + words[n] / 4, n;
            i := i + 1;
          }
        }
      }
    }

    /** What the scan reads at block i. */
    lemma Facts(i: nat)
      requires Valid() && i <= |chain|
      ensures Laid(words, chain) && Tiles(chain, |words|) && chain != [] && !chain[|chain| - 1].used
      ensures i < |chain| ==>
        && chain[i].at < |words|
        && words[chain[i].at] % 2 == (if chain[i].used then 1 else 0) && words[chain[i].at] / 4 == chain[i].size
        && (!chain[i].used ==> words[chain[i].at] == 4 * chain[i].size)
        && End(chain[i]) <= |words| <= 0x1000_0000
        && End(chain[i]) == if i + 1 < |chain| then chain[i + 1].at else |words|
    {
      hide Header;
      if i < |chain| {
        HeaderReads(chain[i]);
        NextHeader(words, chain, i);
        Within(chain, |words|, i);
      }
    }

    /** kfree of a live block, or of NULL. */
    method Kfree(p: Option<nat>)
      requires Valid()
      requires p.Some? ==> p.value > 0 && exists b :: b in Live(chain) && b.at == p.value - 1
      modifies this`words, this`chain
      ensures Valid() && |words| == |old(words)|
      ensures p.None? ==> words == old(words) && chain == old(chain)
      ensures p.Some? ==> Coalesce(chain) == EagerFree(Coalesce(old(chain)), p.value - 1)
      ensures p.Some? ==> Live(chain) == set b | b in Live(old(chain)) && b.at != p.value - 1
      ensures Kept(old(words), words, Live(chain))
    {
      hide Coalesce, Kept, Live, EagerFree, Laid, Heap.Valid, Header, Tiles;
      Facts(0);
      KeptStart(words, chain);
      if p.None? { return; }
      var node := p.value - 1;
      ghost var i := HeaderIndex(chain, node);
      Facts(i);
      assert words[node] % 2 == 1;                 // BUG_ON((node->size & 1) == 0)
      Unmark(node, i);
      ghost var live, merged, words1 := Live(chain), Coalesce(chain), |words|;
      while true
        invariant Valid() && |words| == words1 && i < |chain| && chain[i].at == node && !chain[i].used
        invariant Live(chain) == live && Coalesce(chain) == merged && Kept(old(words), words, live)
        decreases |chain|
      {
        Facts(i);
        var next := node + 1 + words[node] / 4;
        if next < |words| && words[next] % 2 == 0 {
          Facts(i + 1);
          Absorb(node, 4 + words[next], i, i + 1, old(words));
        } else {
          break;
        }
      }
    }

    /** node->size &= ~1 */
    method Unmark(node: nat, ghost i: nat)
      requires Valid() && i < |chain| && chain[i].at == node && chain[i].used && node < |words|
      modifies this`words, this`chain
      ensures Valid() && |words| == |old(words)| && chain == old(chain)[i := Freed(old(chain)[i])]
      ensures Coalesce(chain) == EagerFree(Coalesce(old(chain)), node)
      ensures Live(chain) == set b | b in Live(old(chain)) && b.at != node
      ensures Kept(old(words), words, Live(chain))
    {
      hide Coalesce, Kept, Live, EagerFree, Tiles;
      MarkLaid(words, chain, i, words[node] - 1);
      MarkFree(words, chain, i);
      words := words[node := words[node] - 1];
      chain := chain[i := Freed(chain[i])];
    }
  }
}
