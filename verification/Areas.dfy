/** The vm_area list of an address space and what a page holds when it is first touched
    (src/mm/mm.c: mm_add_area, mm_find_area and the fill part of do_page_fault). */
module Areas {
  import opened Memory

  datatype Prot = Prot(read: bool, write: bool, exec: bool)

  /** A ramfs file. Its bytes live in the kernel heap, so it is far below 2 GB. */
  type File = f: seq<byte> | |f| < 0x8000_0000 witness []

  datatype Area = Area(start: nat, end: nat, prot: Prot, file: Option<File>, offset: nat)

  predicate Covers(a: Area, addr: nat) {
    a.start <= addr < RoundPageUp(a.end, U64_LIMIT)
  }

  /** What every list built by `do_exec_elf` satisfies: page-aligned starts, no wrap of the end. */
  predicate AreaOk(a: Area) {
    && a.start % PAGE_SIZE == 0
    && a.start <= a.end
    && a.end + PAGE_SIZE < U64_LIMIT
  }

  predicate Sorted(s: seq<Area>) {
    forall m, n :: 0 <= m < n < |s| ==> s[m].start < s[n].start
  }

  predicate AreasOk(s: seq<Area>) {
    && (forall n :: 0 <= n < |s| ==> AreaOk(s[n]))
    && Sorted(s)
  }

  /** Areas no two of which share a page. */
  ghost predicate PageDisjoint(s: seq<Area>)
    requires AreasOk(s)
  {
    forall m, n :: 0 <= m < n < |s| ==> RoundPageUp(s[m].end, U64_LIMIT) <= s[n].start
  }

  /** The first area of the list that covers the address. */
  function FindArea(s: seq<Area>, addr: nat): (r: Option<Area>)
    ensures r.Some? ==> r.value in s && Covers(r.value, addr)
  {
    if s == [] then None
    else if Covers(s[0], addr) then Some(s[0])
    else FindArea(s[1..], addr)
  }

  lemma {:induction false} FindAreaNone(s: seq<Area>, addr: nat, n: nat)
    requires FindArea(s, addr).None? && n < |s|
    ensures !Covers(s[n], addr)
  {
    if n > 0 {
      assert s[n] == s[1..][n - 1];
      FindAreaNone(s[1..], addr, n - 1);
    }
  }

  /** With page-disjoint areas the first match is the only one. */
  lemma FindAreaUnique(s: seq<Area>, addr: nat, n: nat)
    requires AreasOk(s) && PageDisjoint(s) && n < |s| && Covers(s[n], addr)
    ensures FindArea(s, addr) == Some(s[n])
  {
    var r := FindArea(s, addr);
    if r.None? {
      FindAreaNone(s, addr, n);
    } else {
      var m :| 0 <= m < |s| && s[m] == r.value;
    }
  }

  /** Every address of a page finds the same area, because areas start on page boundaries. */
  lemma FindAreaByPage(s: seq<Area>, addr: nat)
    requires AreasOk(s)
    ensures FindArea(s, addr) == FindArea(s, RoundPageDown(addr))
  {
    if s != [] {
      var up := RoundPageUp(s[0].end, U64_LIMIT);
      var down := RoundPageDown(addr);
      assert up / PAGE_SIZE * PAGE_SIZE == up;
      assert s[0].start / PAGE_SIZE * PAGE_SIZE == s[0].start;
      assert Covers(s[0], addr) <==> Covers(s[0], down);
      assert AreasOk(s[1..]);
      FindAreaByPage(s[1..], addr);
    }
  }

  /** The check `do_page_fault` makes on a page that is not present. */
  predicate Permits(p: Prot, write: bool) {
    if write then p.write else p.read || p.exec
  }

  /** The bytes a fresh page is given, or None where the kernel stops on a failed seek or a
      short read. The offset reaches vfs_lseek through a 32-bit parameter. */
  function InitialPage(a: Area, addr: nat): (r: Option<Page>)
    requires AreaOk(a) && Covers(a, addr)
  {
    if a.file.None? then Some(Zeros(PAGE_SIZE))
    else
      var base := RoundPageDown(addr);
      var offset := (a.offset + (base - a.start)) % U32_LIMIT;
      var len := if PAGE_SIZE > a.end - base then a.end - base else PAGE_SIZE;
      if offset > |a.file.value| || len > |a.file.value| - offset then None
      else Some(a.file.value[offset..offset + len] + Zeros(PAGE_SIZE - len))
  }

  /** The part of do_page_fault that fills a fresh page: seek, read, zero the tail. None is where
      the kernel stops. */
  method FillPage(a: Area, addr: nat) returns (r: Option<Page>)
    requires AreaOk(a) && Covers(a, addr)
    ensures r == InitialPage(a, addr)
  {
    if a.file.None? {
      return Some(Zeros(PAGE_SIZE));
    }
    var file := a.file.value;
    var base := RoundPageDown(addr);
    var offset := (a.offset + (base - a.start)) % U32_LIMIT;
    if offset > |file| { return None; }            // vfs_lseek: -EINVAL
    var len := PAGE_SIZE;
    if len > a.end - base { len := a.end - base; }
    var ret := if len > |file| - offset then |file| - offset else len;
    if ret != len { return None; }                 // short read
    return Some(file[offset..offset + len] + Zeros(PAGE_SIZE - len));
  }

  /** The list with one more area, placed before the first that starts later. */
  function Insert(s: seq<Area>, a: Area): seq<Area> {
    if s == [] || a.start < s[0].start then [a] + s else [s[0]] + Insert(s[1..], a)
  }

  /** Insertion keeps every area and adds exactly the new one. */
  lemma {:induction false} InsertAdds(s: seq<Area>, a: Area)
    ensures multiset(Insert(s, a)) == multiset(s) + multiset{a}
    ensures forall x :: x in Insert(s, a) <==> x in s || x == a
  {
    if s != [] && s[0].start <= a.start {
      InsertAdds(s[1..], a);
      assert s == [s[0]] + s[1..];
    }
  }

  /** Insertion of a new start keeps the list sorted. */
  lemma {:induction false} InsertSorted(s: seq<Area>, a: Area)
    requires Sorted(s) && forall n :: 0 <= n < |s| ==> s[n].start != a.start
    ensures Sorted(Insert(s, a))
  {
    if s != [] && s[0].start < a.start {
      InsertSorted(s[1..], a);
      var u := Insert(s[1..], a);
      forall n | 0 <= n < |u| ensures s[0].start < u[n].start {
        InsertAdds(s[1..], a);
        assert u[n] in s[1..] || u[n] == a;
      }
    }
  }

  lemma InsertKeepsOrder(s: seq<Area>, a: Area)
    requires AreasOk(s) && AreaOk(a)
    requires forall n :: 0 <= n < |s| ==> s[n].start != a.start
    ensures AreasOk(Insert(s, a))
  {
    InsertSorted(s, a);
    InsertAdds(s, a);
    var u := Insert(s, a);
    forall n | 0 <= n < |u| ensures AreaOk(u[n]) {
      assert u[n] in u;
    }
  }

  /** Where the insertion loop stops is where the area belongs. */
  lemma {:induction false} InsertAt(s: seq<Area>, a: Area, n: nat)
    requires n <= |s|
    requires forall m :: 0 <= m < n ==> s[m].start < a.start
    requires n == |s| || a.start < s[n].start
    ensures Insert(s, a) == s[..n] + [a] + s[n..]
  {
    if n > 0 {
      InsertAt(s[1..], a, n - 1);
      assert s[..n] == [s[0]] + s[1..][..n - 1];
      assert s[n..] == s[1..][n - 1..];
    }
  }

  /** `mm_t.vm_areas`: the list `mm_add_area` keeps sorted and `mm_find_area` searches. */
  class AreaList {
    var items: seq<Area>

    constructor ()
      ensures items == []
    {
      items := [];
    }

    /** mm_add_area. `memory` says whether kzalloc finds room. The result is false for -ENOMEM.
        The caller must not add a start that is already present: the source halts there. */
    method Add(start: nat, size: nat, prot: Prot, file: Option<File>, offset: nat, memory: bool) returns (ok: bool)
      requires AreasOk(items)
      requires start % PAGE_SIZE == 0 && start + size + PAGE_SIZE < U64_LIMIT
      requires forall n :: 0 <= n < |items| ==> items[n].start != start
      modifies this
      ensures AreasOk(items)
      ensures ok == memory
      ensures items == if ok then Insert(old(items), Area(start, start + size, prot, file, offset)) else old(items)
    {
      var a := Area(start, start + size, prot, file, offset);
      InsertKeepsOrder(items, a);
      var n := 0;
      while n < |items|
        invariant 0 <= n <= |items|
        invariant forall m :: 0 <= m < n ==> items[m].start < start
      {
        if start < items[n].start { break; }
        n := n + 1;
      }
      InsertAt(items, a, n);
      if !memory { return false; }
      items := items[..n] + [a] + items[n..];
      return true;
    }

    /** mm_find_area. */
    method Find(addr: nat) returns (r: Option<Area>)
      requires AreasOk(items)
      ensures r == FindArea(items, addr)
    {
      r := FindInList(items, addr);
    }
  }

  /** The search loop of mm_find_area. */
  method FindInList(s: seq<Area>, addr: nat) returns (r: Option<Area>)
    requires AreasOk(s)
    ensures r == FindArea(s, addr)
  {
    var n := 0;
    while n < |s|
      invariant 0 <= n <= |s|
      invariant FindArea(s[n..], addr) == FindArea(s, addr)
    {
      assert s[n..][1..] == s[n + 1..];
      if addr >= s[n].start && addr < RoundPageUp(s[n].end, U64_LIMIT) { return Some(s[n]); }
      n := n + 1;
    }
    return None;
  }
}
