/** The physical frame allocator (src/mm/pmm.c): a bitmap of frames, their reference counts and
    the number of bytes in use. */
module FrameAllocator {
  import opened Memory

  /** A u64 of the bitmap as its 64 bits, lowest first. */
  type Word = w: seq<bool> | |w| == 64 witness seq(64, _ => false)

  function Clear(): (w: Word)
    ensures forall b :: 0 <= b < 64 ==> !w[b]
  {
    seq(64, _ => false)
  }

  /** bitmap[i] == -1UL */
  predicate Full(w: Word) {
    forall b :: 0 <= b < 64 ==> w[b]
  }

  /** The frames lo .. hi-1. */
  function Range(lo: nat, hi: nat): (r: set<nat>)
    requires lo <= hi
    ensures forall f :: f in r <==> lo <= f < hi
    ensures |r| == hi - lo
    decreases hi - lo
  {
    if lo == hi then {} else
      var rest := Range(lo + 1, hi);
      assert lo !in rest;
      {lo} + rest
  }

  /** The bitmap's own frames are managed as soon as it has one whole word. */
  lemma BitmapFits(bytes: nat)
    ensures bytes >= 8 <==> 0 < (bytes + PAGE_SIZE - 1) / PAGE_SIZE <= 64 * (bytes / 8)
  {
    var n, w := (bytes + PAGE_SIZE - 1) / PAGE_SIZE, bytes / 8;
    assert 8 * w <= bytes < 8 * w + 8;
    assert PAGE_SIZE * n <= bytes + PAGE_SIZE - 1;
  }

  /** The pages beyond the last whole word of the bitmap: alloc_phys_page never reaches them. */
  lemma TailPages(pages: nat)
    ensures pages == 64 * (pages / 8 / 8) + pages % 64
  {
    var a := pages / 8;
    assert pages == 8 * a + pages % 8;
    assert a == 8 * (a / 8) + a % 8;
    assert pages == 64 * (a / 8) + (8 * (a % 8) + pages % 8);
  }

  class FrameAllocator {
    const memsize: nat        // in bytes
    const first: nat          // first_frame
    const bitmapBytes: nat    // bitmap_size
    const bitmap: array<Word>
    var pages: array?<int>    // pages[frame].count, null until init_mm
    var memused: int

    ghost var used: set<nat>

    /** One past the last frame a bitmap word covers. */
    function End(): nat
      reads this
    {
      first + 64 * bitmap.Length
    }

    ghost function Free(): (r: set<nat>)
      reads this
    {
      set f: nat | first <= f < End() && f !in used
    }

    ghost predicate Marks()
      reads this, bitmap
    {
      forall w, b {:trigger bitmap[w][b]} :: 0 <= w < bitmap.Length && 0 <= b < 64 ==>
        (bitmap[w][b] <==> first + 64 * w + b in used)
    }

    ghost predicate Valid()
      reads this, bitmap, pages
    {
      && 0 < first
      && memsize % PAGE_SIZE == 0 && bitmapBytes == memsize / PAGE_SIZE / 8
      && bitmap.Length == bitmapBytes / 8
      && (forall f :: f in used ==> first <= f < End())
      && Marks()
      && memused == PAGE_SIZE * |used|
      && (pages != null ==>
           && End() <= pages.Length
           && (forall f {:trigger pages[f]} :: first <= f < End() && f !in used ==> pages[f] == 0))
    }

    /** The start of init_pmm: an empty bitmap placed at the first managed frame. */
    constructor (physbase: nat, size: nat)
      requires physbase % PAGE_SIZE == 0 && size % PAGE_SIZE == 0 && physbase > 0
      ensures Valid() && used == {} && pages == null && fresh(bitmap)
      ensures first == physbase / PAGE_SIZE && memsize == size
    {
      memsize := size;
      first := physbase / PAGE_SIZE;
      bitmapBytes := size / PAGE_SIZE / 8;
      bitmap := new Word[size / PAGE_SIZE / 8 / 8](_ => Clear());
      pages := null;
      memused := 0;
      used := {};
    }

    /** alloc_phys_page: the least free frame, or 0 when every word is full. */
    method Alloc() returns (frame: nat)
      requires Valid()
      modifies this`memused, this`used, bitmap, pages
      ensures Valid()
      ensures frame == 0 <==> old(Free()) == {}
      ensures frame == 0 ==> used == old(used) && bitmap[..] == old(bitmap[..])
      ensures frame != 0 ==> frame in old(Free()) && forall f :: f in old(Free()) ==> frame <= f
      ensures frame != 0 ==> used == old(used) + {frame}
      ensures pages != null ==>
        pages[..] == if frame == 0 then old(pages[..]) else old(pages[..])[frame := 1]
    {
      var i := 0;
      while i < bitmap.Length
        invariant 0 <= i <= bitmap.Length
        invariant forall w :: 0 <= w < i ==> Full(bitmap[w])
      {
        if !Full(bitmap[i]) { break; }
        i := i + 1;
      }
      if i == bitmap.Length {
        forall f | first <= f < End() ensures f in used {
          assert Full(bitmap[(f - first) / 64]);
          assert bitmap[(f - first) / 64][(f - first) % 64];
        }
        return 0;
      }
      var bit := 0;
      ghost var gap :| 0 <= gap < 64 && !bitmap[i][gap];
      while bitmap[i][bit]
        invariant 0 <= bit <= gap
        invariant forall b :: 0 <= b < bit ==> bitmap[i][b]
        decreases gap - bit
      {
        bit := bit + 1;
      }
      frame := first + 64 * i + bit;
      assert bitmap[i][bit] <==> frame in used;
      forall f | f in Free() ensures frame <= f {
        var w, b := (f - first) / 64, (f - first) % 64;
        assert bitmap[w][b] <==> first + 64 * w + b in used;
      }
      bitmap[i] := bitmap[i][bit := true];
      memused := memused + PAGE_SIZE;
      used := used + {frame};
      if pages != null {
        assert pages[frame] == 0;                   // BUG_ON(page->count > 0)
        pages[frame] := 1;
      }
    }

    /** free_phys_page. What the caller owes are exactly the three BUG_ON tests. */
    method Release(frame: nat)
      requires Valid() && pages != null
      requires frame in used && pages[frame] == 1
      modifies this`memused, this`used, bitmap, pages
      ensures Valid()
      ensures used == old(used) - {frame}
      ensures pages[..] == old(pages[..])[frame := 0]
    {
      var f := frame - first;
      var i, bit := f / 64, f % 64;
      assert first + 64 * i + bit == frame;
      assert f / 8 < bitmapBytes;                   // BUG_ON(frame/8 >= bitmap_size)
      assert bitmap[i][bit];                        // BUG_ON((bitmap[i] & bit) == 0)
      bitmap[i] := bitmap[i][bit := false];
      memused := memused - PAGE_SIZE;
      used := used - {frame};
      pages[frame] := 0;
    }

    /** page->count++ */
    method IncrementCount(frame: nat)
      requires Valid() && pages != null && frame in used
      modifies pages
      ensures Valid()
      ensures pages[..] == old(pages[..])[frame := old(pages[frame]) + 1]
    {
      pages[frame] := pages[frame] + 1;
    }

    /** page->count-- */
    method DecrementCount(frame: nat)
      requires Valid() && pages != null && frame in used
      modifies pages
      ensures Valid()
      ensures pages[..] == old(pages[..])[frame := old(pages[frame]) - 1]
    {
      pages[frame] := pages[frame] - 1;
    }

    /** get_free_mem. It also counts the up to 63 pages past the last whole bitmap word, which
        alloc_phys_page can never hand out. */
    method GetFreeMem() returns (bytes: int)
      requires Valid()
      ensures bytes == PAGE_SIZE * (|Free()| + memsize / PAGE_SIZE % 64)
    {
      bytes := memsize - memused;
      TailPages(memsize / PAGE_SIZE);
      assert Free() == Range(first, End()) - used;
      assert used <= Range(first, End());
    }

    /** The loop of init_pmm that reserves the frames the bitmap itself lies in. The result is
        false where the source stops on BUG_ON(frame != first_frame + i). */
    method ReserveBitmap() returns (ok: bool)
      requires Valid() && used == {} && pages == null
      modifies this`memused, this`used, bitmap
      ensures Valid() && pages == null
      ensures ok <==> bitmapBytes == 0 || bitmapBytes >= 8
      ensures ok ==> used == Range(first, first + (bitmapBytes + PAGE_SIZE - 1) / PAGE_SIZE)
    {
      var n := (bitmapBytes + PAGE_SIZE - 1) / PAGE_SIZE;
      var i := 0;
      while i < n
        invariant 0 <= i <= n
        invariant Valid() && pages == null
        invariant forall f :: f in used <==> first <= f < first + i
        invariant i > 0 ==> bitmapBytes >= 8
      {
        var least := first + i;
        BitmapFits(bitmapBytes);
        ghost var free := Free();
        assert least !in used;
        assert bitmapBytes >= 8 ==> least < End();
        assert bitmapBytes >= 8 ==> least in free;
        var frame := Alloc();
        if frame != least {
          return false;
        }
        i := i + 1;
      }
      assert used == Range(first, first + n);
      return true;
    }

    /** init_mm: from here on allocation and release keep the counts. */
    method InitMm(total: nat)
      requires Valid() && pages == null && End() <= total
      modifies this`pages
      ensures Valid() && pages != null && fresh(pages) && pages.Length == total
      ensures forall f :: 0 <= f < total ==> pages[f] == 0
    {
      var counts := new int[total];
      var i := 0;
      while i < total
        invariant 0 <= i <= total
        invariant forall f :: 0 <= f < i ==> counts[f] == 0
      {
        counts[i] := 0;
        i := i + 1;
      }
      pages := counts;
    }
  }

  /** A freshly allocated frame goes back where it came from: the set, the counts and the bytes
      in use are what they were. */
  method AllocThenRelease(a: FrameAllocator)
    requires a.Valid() && a.pages != null && a.Free() != {}
    modifies a`memused, a`used, a.bitmap, a.pages
    ensures a.Valid()
    ensures a.used == old(a.used) && a.memused == old(a.memused)
    ensures a.pages[..] == old(a.pages[..])
  {
    var f := a.Alloc();
    a.Release(f);
  }
}
