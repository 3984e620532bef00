/** The block chain of the kernel heap (src/mm/heap.c) as a sequence, and the textbook allocator:
    first fit over free runs that are always merged. Sizes and positions are in 4-byte words, the
    granularity of every header and size the source writes. */
module Blocks {
  import opened Memory

  /** A block: the position of its header word, the size of its payload, and bit 0 of the header. */
  datatype Block = Block(at: nat, size: nat, used: bool)

  const PAGE_WORDS := 1024

  function End(b: Block): nat { b.at + 1 + b.size }

  function Freed(b: Block): Block { b.(used := false) }

  /** The blocks follow each other without gaps from 0 to n. */
  ghost predicate Tiles(c: seq<Block>, n: nat) {
    c != [] && c[0].at == 0 && End(c[|c| - 1]) == n && Adjacent(c)
  }

  ghost predicate Adjacent(c: seq<Block>) {
    forall i :: 0 <= i < |c| - 1 ==> c[i + 1].at == End(c[i])
  }

  lemma {:induction false} Ordered(c: seq<Block>, n: nat, i: nat, j: nat)
    requires Tiles(c, n) && i < j < |c|
    ensures End(c[i]) <= c[j].at
    decreases j - i
  {
    if i + 1 < j { Ordered(c, n, i + 1, j); }
  }

  lemma {:induction false} Within(c: seq<Block>, n: nat, i: nat)
    requires Tiles(c, n) && i < |c|
    ensures End(c[i]) <= n
  {
    if i + 1 < |c| { Ordered(c, n, i, |c| - 1); }
  }

  /** Every word lies in exactly one block. */
  lemma Disjoint(c: seq<Block>, n: nat, a: Block, b: Block)
    requires Tiles(c, n) && a in c && b in c && a != b
    ensures End(a) <= b.at || End(b) <= a.at
  {
    var i :| 0 <= i < |c| && c[i] == a;
    var j :| 0 <= j < |c| && c[j] == b;
    if i < j { Ordered(c, n, i, j); } else { Ordered(c, n, j, i); }
  }

  function Live(c: seq<Block>): set<Block> {
    set b | b in c && b.used
  }

  // ----- coalescing

  /** Put a block in front of a merged chain. */
  function Join(b: Block, r: seq<Block>): seq<Block> {
    if !b.used && r != [] && !r[0].used then [b.(size := b.size + 1 + r[0].size)] + r[1..] else [b] + r
  }

  /** The chain with every maximal run of free blocks merged into one. */
  function Coalesce(c: seq<Block>): seq<Block> {
    if c == [] then [] else Join(c[0], Coalesce(c[1..]))
  }

  lemma CoalesceStep(x: Block, s: seq<Block>)
    ensures Coalesce([x] + s) == Join(x, Coalesce(s))
  {
    assert ([x] + s)[1..] == s;
  }

  ghost predicate Merged(c: seq<Block>) {
    forall i :: 0 <= i < |c| - 1 ==> c[i].used || c[i + 1].used
  }

  /** It is merged, and it is what a merged chain already was. */
  lemma {:induction false} CoalesceMerges(c: seq<Block>)
    ensures Merged(Coalesce(c))
    ensures c == [] <==> Coalesce(c) == []
    ensures c != [] ==> Coalesce(c)[0].at == c[0].at && Coalesce(c)[0].used == c[0].used
    ensures c != [] ==> Coalesce(c)[0].size >= c[0].size && (c[0].used ==> Coalesce(c)[0] == c[0])
  {
    if c != [] { CoalesceMerges(c[1..]); }
  }

  lemma {:induction false} MergedStays(c: seq<Block>)
    requires Merged(c)
    ensures Coalesce(c) == c
  {
    if c != [] {
      forall i | 0 <= i < |c[1..]| - 1 ensures c[1..][i].used || c[1..][i + 1].used {
        assert c[i + 1].used || c[i + 2].used;
      }
      MergedStays(c[1..]);
    }
  }

  /** Merging only free neighbours keeps exactly the used blocks and the words covered. */
  lemma {:induction false} CoalesceKeeps(c: seq<Block>, n: nat)
    requires Tiles(c, n)
    ensures Live(Coalesce(c)) == Live(c)
    ensures Coalesce(c) != [] && End(Coalesce(c)[|Coalesce(c)| - 1]) == n
    ensures Coalesce(c)[|Coalesce(c)| - 1].used == c[|c| - 1].used
    ensures Adjacent(Coalesce(c))
  {
    CoalesceFrom(c);
  }

  lemma {:induction false} CoalesceFrom(c: seq<Block>)
    requires c != [] && Adjacent(c)
    ensures Live(Coalesce(c)) == Live(c)
    ensures Coalesce(c) != [] && End(Coalesce(c)[|Coalesce(c)| - 1]) == End(c[|c| - 1])
    ensures Coalesce(c)[|Coalesce(c)| - 1].used == c[|c| - 1].used
    ensures Coalesce(c)[0].at == c[0].at && Adjacent(Coalesce(c))
  {
    if |c| == 1 {
      assert c[1..] == [];
      assert Coalesce(c) == [c[0]];
    } else {
      hide Live, Adjacent, Join, Coalesce;
      TailAdjacent(c);
      CoalesceFrom(c[1..]);
      assert c == [c[0]] + c[1..];
      CoalesceStep(c[0], c[1..]);
      JoinLive(c[0], Coalesce(c[1..]));
      JoinAdjacent(c[0], Coalesce(c[1..]));
    }
  }

  lemma TailAdjacent(c: seq<Block>)
    requires |c| > 1 && Adjacent(c)
    ensures Adjacent(c[1..]) && c[1].at == End(c[0])
    ensures Live(c) == Live(c[1..]) + if c[0].used then {c[0]} else {}
  {
    assert c == [c[0]] + c[1..];
    forall i | 0 <= i < |c[1..]| - 1 ensures c[1..][i + 1].at == End(c[1..][i]) {
      assert c[1 + i + 1].at == End(c[1 + i]);
    }
  }

  lemma JoinAdjacent(b: Block, r: seq<Block>)
    requires r != [] && Adjacent(r) && r[0].at == End(b)
    ensures Adjacent(Join(b, r)) && Join(b, r) != [] && Join(b, r)[0].at == b.at
    ensures Join(b, r)[|Join(b, r)| - 1].used == r[|r| - 1].used
    ensures End(Join(b, r)[|Join(b, r)| - 1]) == End(r[|r| - 1])
  {
  }

  lemma JoinLive(b: Block, r: seq<Block>)
    ensures Live(Join(b, r)) == Live(r) + if b.used then {b} else {}
  {
    if r != [] { assert r == [r[0]] + r[1..]; }
  }

  /** Joining two free blocks one after the other is joining their union. */
  lemma JoinJoin(a: Block, b: Block, r: seq<Block>)
    requires !a.used && !b.used
    ensures Join(a, Join(b, r)) == Join(a.(size := a.size + 1 + b.size), r)
  {
  }

  // ----- steps on chains that coalescing does not see

  /** Blocks i..j, all free, as one. */
  function MergeRun(c: seq<Block>, i: nat, j: nat): seq<Block>
    requires i <= j < |c| && End(c[j]) >= End(c[i])
  {
    c[..i] + [c[i].(size := c[i].size + (End(c[j]) - End(c[i])))] + c[j + 1..]
  }

  lemma {:induction false} MergeRunCoalesce(c: seq<Block>, n: nat, i: nat, j: nat)
    requires Tiles(c, n) && i <= j < |c| && forall k :: i <= k <= j ==> !c[k].used
    ensures End(c[i]) <= End(c[j])
    ensures Coalesce(MergeRun(c, i, j)) == Coalesce(c)
    decreases j - i
  {
    if i == j {
      assert MergeRun(c, i, j) == c;
    } else {
      MergeRunCoalesce(c, n, i, j - 1);
      var d := MergeRun(c, i, j - 1);
      assert c[j].at == End(c[j - 1]);
      assert d[i + 1] == c[j];
      MergeTwoCoalesce(d, i);
      assert MergeTwo(d, i) == MergeRun(c, i, j);
    }
  }

  function MergeTwo(c: seq<Block>, i: nat): seq<Block>
    requires i + 1 < |c|
  {
    c[..i] + [c[i].(size := c[i].size + 1 + c[i + 1].size)] + c[i + 2..]
  }

  lemma {:induction false} MergeTwoCoalesce(c: seq<Block>, i: nat)
    requires i + 1 < |c| && !c[i].used && !c[i + 1].used
    ensures Coalesce(MergeTwo(c, i)) == Coalesce(c)
  {
    if i == 0 {
      var a := c[0].(size := c[0].size + 1 + c[1].size);
      assert MergeTwo(c, 0) == [a] + c[2..];
      assert c[1..][1..] == c[2..];
      JoinJoin(c[0], c[1], Coalesce(c[2..]));
      assert ([a] + c[2..])[1..] == c[2..];
    } else {
      MergeTwoCoalesce(c[1..], i - 1);
      assert MergeTwo(c, i)[1..] == MergeTwo(c[1..], i - 1);
    }
  }

  lemma MergeRunTiles(c: seq<Block>, n: nat, i: nat, j: nat)
    requires Tiles(c, n) && i <= j < |c| && forall k :: i <= k <= j ==> !c[k].used
    requires End(c[i]) <= End(c[j])
    ensures Tiles(MergeRun(c, i, j), n)
    ensures Live(MergeRun(c, i, j)) == Live(c)
    ensures MergeRun(c, i, j)[|MergeRun(c, i, j)| - 1].used == c[|c| - 1].used
  {
    var d := MergeRun(c, i, j);
    forall k | 0 <= k < |d| - 1 ensures d[k + 1].at == End(d[k]) {
      if k > i { assert d[k] == c[k + (j - i)] && d[k + 1] == c[k + 1 + (j - i)]; }
      if k == i { assert d[k + 1] == c[j + 1]; }
    }
    if j + 1 < |c| { assert d[|d| - 1] == c[|c| - 1]; }
    forall b ensures b in Live(d) <==> b in Live(c) {
      if b in Live(c) {
        var k :| 0 <= k < |c| && c[k] == b;
        assert k < i || k > j;
        assert d[if k < i then k else k - (j - i)] == b;
      }
    }
  }

  // ----- freeing

  /** The used block whose header is at p becomes free. */
  function MarkAt(c: seq<Block>, p: nat): seq<Block> {
    if c == [] then []
    else if c[0].used && c[0].at == p then [Freed(c[0])] + c[1..]
    else [c[0]] + MarkAt(c[1..], p)
  }

  /** Textbook free: mark, then merge everything. */
  function EagerFree(c: seq<Block>, p: nat): seq<Block> {
    Coalesce(MarkAt(c, p))
  }

  lemma MarkStep(x: Block, s: seq<Block>, p: nat)
    ensures MarkAt([x] + s, p) == if x.used && x.at == p then [Freed(x)] + s else [x] + MarkAt(s, p)
  {
    assert ([x] + s)[1..] == s;
  }

  /** Freeing in an unmerged chain and in its merged form give the same merged chain. */
  lemma {:induction false} FreeCoalesce(c: seq<Block>, p: nat)
    ensures Coalesce(MarkAt(c, p)) == EagerFree(Coalesce(c), p)
  {
    if c != [] {
      hide Coalesce, MarkAt;
      var x, rest := c[0], c[1..];
      assert c == [x] + rest;
      var r := Coalesce(rest);
      FreeCoalesce(rest, p);
      CoalesceStep(x, rest);
      MarkStep(x, rest, p);
      CoalesceMerges(rest);
      if x.used && x.at == p {
        CoalesceStep(Freed(x), rest);
        CoalesceStep(Freed(x), r);
        MergedStays(r);
        MarkStep(x, r, p);
      } else {
        CoalesceStep(x, MarkAt(rest, p));
        if !x.used && r != [] && !r[0].used {
          FreeJoined(x, r, p);
        } else {
          MarkStep(x, r, p);
          CoalesceStep(x, MarkAt(r, p));
        }
      }
    } else {
      assert MarkAt(c, p) == [] && Coalesce(c) == [];
    }
  }

  /** The case in which the first block is merged with the next run. */
  lemma FreeJoined(x: Block, r: seq<Block>, p: nat)
    requires !x.used && r != [] && !r[0].used
    ensures Join(x, Coalesce(MarkAt(r, p))) == Coalesce(MarkAt(Join(x, r), p))
  {
    hide Coalesce, MarkAt;
    var y, s := x.(size := x.size + 1 + r[0].size), r[1..];
    assert r == [r[0]] + s && Join(x, r) == [y] + s;
    MarkStep(r[0], s, p);
    MarkStep(y, s, p);
    CoalesceStep(r[0], MarkAt(s, p));
    CoalesceStep(y, MarkAt(s, p));
    JoinJoin(x, r[0], Coalesce(MarkAt(s, p)));
  }

  lemma {:induction false} MarkIndex(c: seq<Block>, i: nat)
    requires i < |c| && c[i].used && forall k :: 0 <= k < i ==> c[k].at != c[i].at
    ensures MarkAt(c, c[i].at) == c[i := Freed(c[i])]
  {
    if i > 0 {
      assert c[1..][i - 1] == c[i];
      forall k | 0 <= k < i - 1 ensures c[1..][k].at != c[i].at { assert c[1..][k] == c[k + 1]; }
      MarkIndex(c[1..], i - 1);
      assert [c[0]] + c[1..][i - 1 := Freed(c[i])] == c[i := Freed(c[i])];
    } else {
      assert [Freed(c[0])] + c[1..] == c[0 := Freed(c[0])];
    }
  }

  // ----- allocating

  predicate Fits(b: Block, need: nat) {
    !b.used && b.size >= need + 1
  }

  /** The index of the first free block with room for `need` words and a new header, or |c|. */
  function FirstFit(c: seq<Block>, need: nat): (k: nat)
    ensures k <= |c| && (k < |c| ==> Fits(c[k], need))
    ensures forall j :: 0 <= j < k ==> !Fits(c[j], need)
  {
    if c == [] then 0 else if Fits(c[0], need) then 0 else 1 + FirstFit(c[1..], need)
  }

  /** Block k is cut into a used block of `need` words and a free rest. */
  function Carve(c: seq<Block>, k: nat, need: nat): seq<Block>
    requires k < |c| && Fits(c[k], need)
  {
    var b := c[k];
    c[..k] + [Block(b.at, need, true), Block(b.at + 1 + need, b.size - need - 1, false)] + c[k + 1..]
  }

  /** One more page at the end of the last block. */
  function GrowLast(c: seq<Block>): seq<Block>
    requires c != []
  {
    c[|c| - 1 := c[|c| - 1].(size := c[|c| - 1].size + PAGE_WORDS)]
  }

  /** The page tables map_kernel_page has to create for the q-th page of the heap. */
  function TablesFor(q: nat): nat {
    (if q % 512 == 0 then 1 else 0) + (if q % 262144 == 0 then 1 else 0) + (if q % 134217728 == 0 then 1 else 0)
  }

  /** What kmalloc gives: an address (in words, just behind the header), NULL, or a halt because
      no frame was left for a page table. */
  datatype Result = Got(addr: nat) | Null | Halted

  datatype Outcome = Outcome(result: Result, chain: seq<Block>, frames: nat)

  /** First fit over merged runs, growing page by page while nothing fits. */
  function EagerAlloc(c: seq<Block>, need: nat, frames: nat): Outcome
    requires c != []
    decreases frames
  {
    var k := FirstFit(c, need);
    if k < |c| then Outcome(Got(c[k].at + 1), Carve(c, k, need), frames)
    else if frames == 0 then Outcome(Null, c, 0)
    else if frames - 1 < TablesFor(End(c[|c| - 1]) / PAGE_WORDS) then Outcome(Halted, c, 0)
    else EagerAlloc(GrowLast(c), need, frames - 1 - TablesFor(End(c[|c| - 1]) / PAGE_WORDS))
  }

  /** NULL means that no merged run has room and no frame is left; every page that was taken was
      needed, since before it nothing had room. */
  lemma {:induction false} GrowsOnlyWhenNeeded(c: seq<Block>, need: nat, frames: nat)
    requires c != []
    ensures
      var o := EagerAlloc(c, need, frames);
      && (o.result.Null? ==> o.frames == 0 && FirstFit(o.chain, need) == |o.chain|)
      && o.frames <= frames
      && (o.result.Got? ==> (o.frames == frames <==> FirstFit(c, need) < |c|))
      && (o.result.Got? && o.frames < frames && !c[|c| - 1].used ==>
           |o.chain| == |c| + 1 && o.chain[|c|].size < PAGE_WORDS)
    decreases frames
  {
    if FirstFit(c, need) == |c| && frames > 0 && frames - 1 >= TablesFor(End(c[|c| - 1]) / PAGE_WORDS) {
      var g := GrowLast(c);
      var k := FirstFit(g, need);
      if k < |g| {
        assert forall j :: 0 <= j < |c| - 1 ==> g[j] == c[j];
        assert !Fits(c[|c| - 1], need);
      } else {
        hide Carve, Fits;
        GrowsOnlyWhenNeeded(g, need, frames - 1 - TablesFor(End(c[|c| - 1]) / PAGE_WORDS));
      }
    }
  }

  /** The scan of kmalloc has passed the first i blocks: none of them fits even when merged. */
  ghost predicate Settled(c: seq<Block>, i: nat, need: nat) {
    i <= |c| && forall j :: 0 <= j < i && !c[j].used ==> c[j].size <= need && (j + 1 < |c| ==> c[j + 1].used)
  }

  lemma SettledTail(c: seq<Block>, i: nat, need: nat)
    requires Settled(c, i, need) && i > 0
    ensures Settled(c[1..], i - 1, need)
    ensures !c[0].used && 1 < |c| ==> c[1].used
  {
    forall j | 0 <= j < i - 1 && !c[1..][j].used
      ensures c[1..][j].size <= need && (j + 1 < |c[1..]| ==> c[1..][j + 1].used)
    {
      assert c[1..][j] == c[j + 1];
    }
  }

  lemma CoalesceHead(s: seq<Block>)
    ensures s == [] ==> Coalesce(s) == []
    ensures s != [] && s[0].used ==> Coalesce(s) != [] && Coalesce(s)[0] == s[0]
  {
  }

  /** A used block, or one that no free block follows, stays as it is. */
  lemma CoalesceKept(c: seq<Block>)
    requires c != [] && (c[0].used || |c| == 1 || c[1].used)
    ensures Coalesce(c) == [c[0]] + Coalesce(c[1..])
  {
    CoalesceHead(c[1..]);
    assert |c| > 1 ==> c[1..][0] == c[1];
  }

  /** What the scan has passed is already merged. */
  lemma {:induction false} SettledPrefix(c: seq<Block>, i: nat, need: nat)
    requires Settled(c, i, need)
    ensures Coalesce(c) == c[..i] + Coalesce(c[i..])
  {
    hide Coalesce;
    if i > 0 {
      SettledTail(c, i, need);
      SettledPrefix(c[1..], i - 1, need);
      CoalesceKept(c);
      assert c[1..][i - 1..] == c[i..];
      assert [c[0]] + c[1..][..i - 1] == c[..i];
    } else {
      assert c[0..] == c;
    }
  }

  lemma {:induction false} FirstFitAt(c: seq<Block>, k: nat, need: nat)
    requires k < |c| && Fits(c[k], need) && forall j :: 0 <= j < k ==> !Fits(c[j], need)
    ensures FirstFit(c, need) == k
  {
  }

  /** The scan finds the block that first fit over merged runs finds, and carving it in the
      unmerged chain is carving the merged run. */
  lemma FoundFits(c: seq<Block>, i: nat, need: nat, frames: nat)
    requires Settled(c, i, need) && i < |c| && Fits(c[i], need)
    ensures Coalesce(c) != []
    ensures EagerAlloc(Coalesce(c), need, frames)
      == Outcome(Got(c[i].at + 1), Coalesce(Carve(c, i, need)), frames)
  {
    hide Settled, Coalesce, Carve, Join, Fits;
    var r := Coalesce(c[i + 1..]);
    FoundAt(c, i, need);
    CarveCoalesce(c, i, need);
    CarveJoin(c[i], r, need);
    CarveAt(c[..i], Join(c[i], r), need);
    FirstFitAt(c[..i] + Join(c[i], r), i, need);
  }

  lemma CarveAt(pre: seq<Block>, j: seq<Block>, need: nat)
    requires j != [] && Fits(j[0], need)
    ensures Carve(pre + j, |pre|, need)
      == pre + [Block(j[0].at, need, true)] + ([Block(j[0].at + 1 + need, j[0].size - need - 1, false)] + j[1..])
  {
    assert (pre + j)[..|pre|] == pre;
    assert (pre + j)[|pre| + 1..] == j[1..];
  }

  lemma FoundAt(c: seq<Block>, i: nat, need: nat)
    requires Settled(c, i, need) && i < |c| && Fits(c[i], need)
    ensures Coalesce(c) == c[..i] + Join(c[i], Coalesce(c[i + 1..]))
    ensures forall k :: 0 <= k < i ==> !Fits(c[k], need)
  {
    SettledPrefix(c, i, need);
    assert c[i..][1..] == c[i + 1..];
  }

  lemma CarveJoin(b: Block, r: seq<Block>, need: nat)
    requires Fits(b, need)
    ensures
      var j := Join(b, r);
      && j != [] && j[0].at == b.at && Fits(j[0], need)
      && [Block(b.at + 1 + need, j[0].size - need - 1, false)] + j[1..] == Join(Block(b.at + 1 + need,
          b.size - need - 1, false), r)
  {
  }

  lemma CarveCoalesce(c: seq<Block>, i: nat, need: nat)
    requires Settled(c, i, need) && i < |c| && Fits(c[i], need)
    ensures
      var b := c[i];
      Coalesce(Carve(c, i, need)) == c[..i] + [Block(b.at, need, true)]
        + Join(Block(b.at + 1 + need, b.size - need - 1, false), Coalesce(c[i + 1..]))
  {
    var d := Carve(c, i, need);
    var u, f := d[i], d[i + 1];
    assert d[..i] == c[..i];
    assert d[i..] == [u, f] + c[i + 1..];
    assert d[i..][1..] == [f] + c[i + 1..];
    assert ([f] + c[i + 1..])[1..] == c[i + 1..];
    forall j | 0 <= j < i && !d[j].used ensures d[j].size <= need && (j + 1 < |d| ==> d[j + 1].used) {
      assert d[j] == c[j];
      if j + 1 < i { assert d[j + 1] == c[j + 1]; }
    }
    SettledPrefix(d, i, need);
    assert Coalesce(d[i..]) == [u] + Join(f, Coalesce(c[i + 1..]));
  }

  /** At the end of the scan nothing fits, and growing is what the textbook allocator does too. */
  lemma NothingFits(c: seq<Block>, need: nat)
    requires Settled(c, |c|, need) && c != [] && !c[|c| - 1].used
    ensures Coalesce(c) == c && FirstFit(c, need) == |c|
    ensures Coalesce(GrowLast(c)) == GrowLast(c)
    ensures Settled(GrowLast(c), |c| - 1, need)
  {
    SettledPrefix(c, |c|, need);
    assert c[|c|..] == [] && c[..|c|] == c;
    var g := GrowLast(c);
    SettledPrefix(g, |c| - 1, need);
    assert g[|c| - 1..] == [g[|c| - 1]];
    assert [g[|c| - 1]][1..] == [];
    assert g[..|c| - 1] + [g[|c| - 1]] == g;
  }

  /** One round of growing. */
  lemma GrowStep(c: seq<Block>, n: nat, need: nat, frames: nat)
    requires Tiles(c, n) && Settled(c, |c|, need) && !c[|c| - 1].used
    ensures Coalesce(c) != [] && Coalesce(GrowLast(c)) != []
    ensures EagerAlloc(Coalesce(c), need, frames) ==
      if frames == 0 then Outcome(Null, Coalesce(c), 0)
      else if frames - 1 < TablesFor(n / PAGE_WORDS) then Outcome(Halted, Coalesce(c), 0)
      else EagerAlloc(Coalesce(GrowLast(c)), need, frames - 1 - TablesFor(n / PAGE_WORDS))
    ensures Settled(GrowLast(c), |c| - 1, need)
    ensures |GrowLast(c)| == |c| && GrowLast(c)[|c| - 1].at == c[|c| - 1].at
    ensures |c| > 1 ==> GrowLast(c)[|c| - 2] == c[|c| - 2] && GrowLast(c)[|c| - 2].used
  {
    NothingFits(c, need);
  }

  /** The scan moves past a used block, or past a free one that is too small and has no free
      block behind it. */
  lemma StepSettled(c: seq<Block>, i: nat, need: nat)
    requires Settled(c, i, need) && i < |c|
    requires c[i].used || (c[i].size <= need && (i + 1 < |c| ==> c[i + 1].used))
    ensures Settled(c, i + 1, need)
  {
  }

  lemma AbsorbSettled(c: seq<Block>, i: nat, j: nat, need: nat)
    requires Settled(c, i, need) && i <= j < |c| && !c[i].used && End(c[j]) >= End(c[i])
    ensures Settled(MergeRun(c, i, j), i, need)
    ensures |MergeRun(c, i, j)| == |c| - (j - i) && MergeRun(c, i, j)[i].at == c[i].at
    ensures i > 0 ==> MergeRun(c, i, j)[i - 1] == c[i - 1] && c[i - 1].used
  {
  }

  /** Freeing what was just allocated gives back the merged heap. */
  lemma FreeUndoesAlloc(c: seq<Block>, n: nat, need: nat, frames: nat)
    requires Tiles(c, n) && Merged(c) && FirstFit(c, need) < |c|
    ensures
      var o := EagerAlloc(c, need, frames);
      o.result.Got? && o.frames == frames && EagerFree(o.chain, o.result.addr - 1) == c
  {
    hide Coalesce, MarkAt, FirstFit, Fits;
    var k := FirstFit(c, need);
    var d := Carve(c, k, need);
    forall j | 0 <= j < k ensures d[j].at != d[k].at {
      Ordered(c, n, j, k);
    }
    MarkIndex(d, k);
    CarveBack(c, k, need);
    MergeTwoCoalesce(d[k := Freed(d[k])], k);
    MergedStays(c);
  }

  lemma CarveBack(c: seq<Block>, k: nat, need: nat)
    requires k < |c| && Fits(c[k], need)
    ensures
      var d := Carve(c, k, need);
      d[k].used && !d[k + 1].used && MergeTwo(d[k := Freed(d[k])], k) == c
  {
  }

  lemma CarveTiles(c: seq<Block>, n: nat, k: nat, need: nat)
    requires Tiles(c, n) && k < |c| && Fits(c[k], need) && !c[|c| - 1].used
    ensures Tiles(Carve(c, k, need), n)
    ensures Live(Carve(c, k, need)) == Live(c) + {Block(c[k].at, need, true)}
    ensures !Carve(c, k, need)[|c|].used
  {
    var d := Carve(c, k, need);
    forall i | 0 <= i < |d| - 1 ensures d[i + 1].at == End(d[i]) {
      if i > k { assert i > k + 1 ==> d[i] == c[i - 1]; assert d[i + 1] == c[i]; }
    }
    assert k + 1 < |c| ==> d[|c|] == c[|c| - 1];
    forall b ensures b in Live(d) <==> b in Live(c) + {Block(c[k].at, need, true)} {
      if b in Live(c) {
        var j :| 0 <= j < |c| && c[j] == b;
        assert d[if j < k then j else j + 1] == b;
      }
      assert d[k] == Block(c[k].at, need, true);
    }
  }

  lemma GrowTiles(c: seq<Block>, n: nat)
    requires Tiles(c, n) && !c[|c| - 1].used
    ensures Tiles(GrowLast(c), n + PAGE_WORDS)
    ensures Live(GrowLast(c)) == Live(c)
  {
    var g := GrowLast(c);
    forall b ensures b in Live(g) <==> b in Live(c) {
      if b in Live(c) {
        var j :| 0 <= j < |c| && c[j] == b;
        assert g[j] == b;
      }
    }
  }

  lemma MarkTiles(c: seq<Block>, n: nat, i: nat)
    requires Tiles(c, n) && i < |c| && c[i].used
    ensures Tiles(c[i := Freed(c[i])], n)
    ensures Live(c[i := Freed(c[i])]) == Live(c) - {c[i]}
  {
    var d := c[i := Freed(c[i])];
    forall b ensures b in Live(d) <==> b in Live(c) - {c[i]} {
      if b in Live(c) && b != c[i] {
        var j :| 0 <= j < |c| && c[j] == b;
        assert d[j] == b;
      }
      if b in Live(d) {
        var j :| 0 <= j < |d| && d[j] == b;
        assert c[j] == b;
        if b == c[i] { if i < j { Ordered(c, n, i, j); } else { Ordered(c, n, j, i); } }
      }
    }
  }
}
