/** The program loader (do_exec_elf, src/kernel/process.c:128-253): from the headers of an ELF file
    to the area list of the new program, and what user code then finds in memory. */
module Elf {
  import opened Errno
  import opened Memory
  import opened Areas
  import E = EagerFork
  import L = LastWrite

  const PT_NULL := 0
  const PT_LOAD := 1
  const PT_NOTE := 4
  const PT_GNU_STACK := 0x6474_e551

  const EHDR_SIZE := 64
  const PHDR_SIZE := 56
  const STACK_SIZE := PAGE_SIZE

  /** A little-endian field of n bytes. */
  function Field(f: seq<byte>, at: nat, n: nat): nat
    requires at + n <= |f|
    decreases n
  {
    if n == 0 then 0 else f[at] as int + 256 * Field(f, at + 1, n - 1)
  }

  /** memcmp never advances its pointers: it compares the first bytes `count` times. */
  method Memcmp(dest: seq<byte>, src: seq<byte>, count: nat) returns (c: int)
    requires count == 0 || (dest != [] && src != [])
    ensures c == 0 <==> count == 0 || dest[0] == src[0]
  {
    var left := count;
    while left > 0
      invariant 0 <= left <= count
      invariant left < count ==> dest[0] == src[0]
    {
      left := left - 1;
      c := dest[0] as int - src[0] as int;
      if c != 0 { return c; }
    }
    return 0;
  }

  /** The fields of a program header that the loader reads. */
  datatype Phdr = Phdr(typ: nat, flags: nat, offset: nat, vaddr: nat, filesz: nat, memsz: nat)

  function PhOff(f: File): nat
    requires |f| >= EHDR_SIZE
  {
    Field(f, 32, 8)
  }

  function PhNum(f: File): nat
    requires |f| >= EHDR_SIZE
  {
    Field(f, 56, 2)
  }

  /** The checks on the file header. Of the magic number only the first byte is looked at. */
  predicate HeaderOk(f: File) {
    && |f| >= EHDR_SIZE
    && f[0] == 0x7f && f[4] == 2 && f[5] == 1 && f[6] == 1
    && Field(f, 16, 2) == 2 && Field(f, 18, 2) == 62 && Field(f, 20, 4) == 1
    && PhOff(f) != 0
  }

  /** Where the i-th program header is read; the position goes through a 32-bit parameter. */
  function PhdrPos(f: File, i: nat): nat
    requires HeaderOk(f)
  {
    (PhOff(f) + i * PHDR_SIZE) % U32_LIMIT
  }

  function PhdrAt(f: File, pos: nat): Phdr
    requires pos + PHDR_SIZE <= |f|
  {
    Phdr(Field(f, pos, 4), Field(f, pos + 4, 4), Field(f, pos + 8, 8), Field(f, pos + 16, 8),
         Field(f, pos + 32, 8), Field(f, pos + 40, 8))
  }

  function ProtOf(flags: nat): Prot {
    Prot(flags / 4 % 2 == 1, flags / 2 % 2 == 1, flags % 2 == 1)
  }

  // ----- the areas of one segment

  function InPage(h: Phdr): nat { h.offset % PAGE_SIZE }

  function VirtAddr(h: Phdr): nat
    requires h.vaddr % PAGE_SIZE == InPage(h)
  {
    h.vaddr - InPage(h)
  }

  function ReadSize(h: Phdr): nat { (h.filesz + InPage(h)) % U32_LIMIT }

  function MemSize(h: Phdr): nat { (h.memsz + InPage(h)) % U32_LIMIT }

  predicate SegmentOk(h: Phdr) {
    h.filesz <= h.memsz && h.vaddr % PAGE_SIZE == InPage(h) && VirtAddr(h) <= MEM_BOTTOM_HALF
  }

  function FileArea(f: File, h: Phdr): Area
    requires SegmentOk(h)
  {
    Area(VirtAddr(h), VirtAddr(h) + ReadSize(h), ProtOf(h.flags), Some(f), (h.offset - InPage(h)) % U32_LIMIT)
  }

  predicate HasZeroArea(h: Phdr) {
    MemSize(h) > RoundPageUp(ReadSize(h), U32_LIMIT)
  }

  function ZeroArea(h: Phdr): Area
    requires SegmentOk(h) && HasZeroArea(h)
  {
    var start := VirtAddr(h) + RoundPageUp(ReadSize(h), U32_LIMIT);
    Area(start, VirtAddr(h) + MemSize(h), ProtOf(h.flags), None, 0)
  }

  function StackArea(flags: nat): Area {
    Area(MEM_BOTTOM_HALF - STACK_SIZE, MEM_BOTTOM_HALF, ProtOf(flags), None, 0)
  }

  // ----- the loader as a function

  /** Halt is BUG_ON(start == vm_area->start). */
  datatype Status = Fine | Error(code: nat) | Halt

  /** The list so far, how often kzalloc was asked, and how it stands. */
  datatype Progress = Progress(areas: seq<Area>, asked: nat, status: Status)

  predicate HasStart(areas: seq<Area>, start: nat) {
    exists n :: 0 <= n < |areas| && areas[n].start == start
  }

  /** do_mmap. `room(n)` says whether the n-th kzalloc finds memory. */
  function Map(s: Progress, a: Area, room: nat -> bool): Progress {
    if HasStart(s.areas, a.start) then s.(status := Halt)
    else if !room(s.asked) then Progress(s.areas, s.asked + 1, Error(ENOMEM))
    else Progress(Insert(s.areas, a), s.asked + 1, Fine)
  }

  function LoadSegment(f: File, h: Phdr, s: Progress, room: nat -> bool): Progress {
    if !SegmentOk(h) then s.(status := Error(ENOEXEC))
    else
      var a := Map(s, FileArea(f, h), room);
      if !a.status.Fine? || !HasZeroArea(h) then a
      else
        var z := Map(a, ZeroArea(h), room);
        if z.status.Error? then z.(status := Fine) else z     // the failure is not noticed
  }

  function LoadFrom(f: File, i: nat, stack: nat, s: Progress, room: nat -> bool): Progress
    requires HeaderOk(f)
    decreases PhNum(f) - i
  {
    if i >= PhNum(f) then Map(s, StackArea(stack), room)
    else if PhdrPos(f, i) > |f| then s.(status := Error(EINVAL))
    else if |f| - PhdrPos(f, i) < PHDR_SIZE then s.(status := Error(ENOEXEC))
    else
      var h := PhdrAt(f, PhdrPos(f, i));
      if h.typ == PT_NULL || h.typ == PT_NOTE then LoadFrom(f, i + 1, stack, s, room)
      else if h.typ == PT_GNU_STACK then LoadFrom(f, i + 1, h.flags, s, room)
      else if h.typ == PT_LOAD then
        var t := LoadSegment(f, h, s, room);
        if t.status.Fine? then LoadFrom(f, i + 1, stack, t, room) else t
      else s.(status := Error(ENOEXEC))
  }

  function Load(f: File, room: nat -> bool): Progress {
    if !HeaderOk(f) then Progress([], 0, Error(ENOEXEC))
    else LoadFrom(f, 0, 7, Progress([], 0, Fine), room)
  }

  // ----- do_exec_elf itself

  /** PTR_ERR goes through an int. An address that starts a page never looks like an error. */
  lemma PageAddressIsNoError(start: nat)
    requires start % PAGE_SIZE == 0
    ensures start % U32_LIMIT <= U32_LIMIT - 4096
  {
    var q := start / PAGE_SIZE;
    assert start == 4096 * q;
    assert start % U32_LIMIT == 4096 * (q % 0x10_0000) by {
      assert q == 0x10_0000 * (q / 0x10_0000) + q % 0x10_0000;
      assert start == U32_LIMIT * (q / 0x10_0000) + 4096 * (q % 0x10_0000);
    }
  }

  lemma SegmentAreasOk(f: File, h: Phdr)
    requires SegmentOk(h)
    ensures AreaOk(FileArea(f, h))
    ensures HasZeroArea(h) ==> AreaOk(ZeroArea(h))
  {
    var q := RoundPageUp(ReadSize(h), U32_LIMIT);
    assert VirtAddr(h) % PAGE_SIZE == 0;
    assert (VirtAddr(h) + q) % PAGE_SIZE == 0;
  }

  lemma MapOk(s: Progress, a: Area, room: nat -> bool)
    requires AreasOk(s.areas) && AreaOk(a)
    ensures AreasOk(Map(s, a, room).areas)
  {
    if !HasStart(s.areas, a.start) { InsertKeepsOrder(s.areas, a); }
  }

  /** mm_add_area's own test for a start that is already there. */
  method Mmap(list: AreaList, ghost s: Progress, a: Area, room: nat -> bool, asked: nat) returns (status: Status)
    requires AreasOk(list.items) && AreaOk(a) && s.areas == list.items && s.asked == asked
    modifies list
    ensures AreasOk(list.items) && list.items == Map(s, a, room).areas && status == Map(s, a, room).status
    ensures !status.Halt? ==> Map(s, a, room).asked == asked + 1
  {
    MapOk(s, a, room);
    if HasStart(list.items, a.start) {
      return Halt;
    }
    var ok := list.Add(a.start, a.end - a.start, a.prot, a.file, a.offset, room(asked));
    return if ok then Fine else Error(ENOMEM);
  }

  /** The PT_LOAD case. */
  method MapSegment(list: AreaList, f: File, h: Phdr, room: nat -> bool, asked0: nat) returns (status: Status,
      asked: nat)
    requires AreasOk(list.items)
    modifies list
    ensures AreasOk(list.items)
    ensures
      var t := LoadSegment(f, h, Progress(old(list.items), asked0, Fine), room);
      list.items == t.areas && status == t.status && (t.status.Fine? ==> asked == t.asked)
  {
    asked := asked0;
    ghost var s := Progress(list.items, asked, Fine);
    if h.filesz > h.memsz {
      return Error(ENOEXEC), asked;
    }
    var inPage := h.offset % PAGE_SIZE;
    if h.vaddr % PAGE_SIZE != inPage {
      return Error(ENOEXEC), asked;
    }
    var fileOffset := (h.offset - inPage) % U32_LIMIT;
    var virtAddr := h.vaddr - inPage;
    var readSize := (h.filesz + inPage) % U32_LIMIT;
    var memSize := (h.memsz + inPage) % U32_LIMIT;
    if virtAddr > MEM_BOTTOM_HALF {
      return Error(ENOEXEC), asked;
    }
    SegmentAreasOk(f, h);
    status := Mmap(list, s, Area(virtAddr, virtAddr + readSize, ProtOf(h.flags), Some(f), fileOffset), room, asked);
    if !status.Fine? {
      return status, asked;
    }
    PageAddressIsNoError(virtAddr);
    asked := asked + 1;
    var up := RoundPageUp(readSize, U32_LIMIT);
    if memSize > up {
      ghost var a := Map(s, FileArea(f, h), room);
      status := Mmap(list, a, Area(virtAddr + up, virtAddr + memSize, ProtOf(h.flags), None, 0), room, asked);
      if status.Error? {
        status := Fine;                            // IS_ERR(...) < 0 is never true
      }
      asked := asked + 1;
    }
  }

  /** The tests on the file header. */
  method CheckHeader(f: File) returns (ok: bool)
    ensures ok <==> HeaderOk(f)
  {
    if |f| < EHDR_SIZE {
      return false;
    }
    var magic := Memcmp(f, [0x7f, 0x45, 0x4c, 0x46], 4);
    if magic != 0 || f[4] != 2 || f[5] != 1 || f[6] != 1 {
      return false;
    }
    if Field(f, 16, 2) != 2 || Field(f, 18, 2) != 62 || Field(f, 20, 4) != 1 || PhOff(f) == 0 {
      return false;
    }
    return true;
  }

  /** do_exec_elf once the file is open: on Fine the program may start. */
  method DoExecElf(list: AreaList, f: File, room: nat -> bool) returns (status: Status)
    requires list.items == []
    modifies list
    ensures AreasOk(list.items)
    ensures list.items == Load(f, room).areas && status == Load(f, room).status
  {
    hide AreasOk, LoadSegment, Map, Field;
    NoAreas();
    var ok := CheckHeader(f);
    if !ok {
      return Error(ENOEXEC);
    }
    var stack, asked := 7, 0;
    var i := 0;
    while i < PhNum(f)
      invariant 0 <= i <= PhNum(f)
      invariant AreasOk(list.items)
      invariant LoadFrom(f, i, stack, Progress(list.items, asked, Fine), room) == Load(f, room)
    {
      var pos := (PhOff(f) + i * PHDR_SIZE) % U32_LIMIT;
      if pos > |f| {
        return Error(EINVAL);
      }
      if |f| - pos < PHDR_SIZE {
        return Error(ENOEXEC);
      }
      var h := PhdrAt(f, pos);
      if h.typ == PT_NULL || h.typ == PT_NOTE {
      } else if h.typ == PT_LOAD {
        status, asked := MapSegment(list, f, h, room, asked);
        if !status.Fine? {
          return;
        }
      } else if h.typ == PT_GNU_STACK {
        stack := h.flags;
      } else {
        return Error(ENOEXEC);
      }
      i := i + 1;
    }
    status := Mmap(list, Progress(list.items, asked, Fine), StackArea(stack), room, asked);
  }

  lemma NoAreas()
    ensures AreasOk([])
  {
  }

  // ----- how loading ends, and with which areas

  function HeaderAt(f: File, i: nat): Phdr
    requires HeaderOk(f)
  {
    if PhdrPos(f, i) + PHDR_SIZE <= |f| then PhdrAt(f, PhdrPos(f, i)) else Phdr(PT_NULL, 0, 0, 0, 0, 0)
  }

  predicate IsLoad(f: File, i: nat)
    requires HeaderOk(f)
  {
    i < PhNum(f) && HeaderAt(f, i).typ == PT_LOAD
  }

  /** How often kzalloc is asked for the first i headers. */
  function Asked(f: File, i: nat): nat
    requires HeaderOk(f)
  {
    if i == 0 then 0
    else Asked(f, i - 1) + if !IsLoad(f, i - 1) then 0 else if HasZeroArea(HeaderAt(f, i - 1)) then 2 else 1
  }

  /** The flags of the last PT_GNU_STACK header among the first i, or 7. */
  function StackFlags(f: File, i: nat): nat
    requires HeaderOk(f)
  {
    if i == 0 then 7
    else if HeaderAt(f, i - 1).typ == PT_GNU_STACK then HeaderAt(f, i - 1).flags
    else StackFlags(f, i - 1)
  }

  /** Segment k gives the program this area. Its zero area is there only if kzalloc, asked once
      for the file area before, has memory. */
  predicate Gives(f: File, k: nat, room: nat -> bool, a: Area)
    requires HeaderOk(f)
  {
    var h := HeaderAt(f, k);
    && IsLoad(f, k) && SegmentOk(h)
    && (a == FileArea(f, h) || (HasZeroArea(h) && room(Asked(f, k) + 1) && a == ZeroArea(h)))
  }

  /** One of the first i segments gives the program this area. */
  ghost predicate HasArea(f: File, i: nat, room: nat -> bool, a: Area)
    requires HeaderOk(f)
  {
    exists k :: 0 <= k < i && Gives(f, k, room, a)
  }

  /** One of the first i segments gives an area that starts there. */
  ghost predicate Taken(f: File, i: nat, room: nat -> bool, start: nat)
    requires HeaderOk(f)
  {
    exists k, a :: 0 <= k < i && Gives(f, k, room, a) && a.start == start
  }

  /** An area of segment i starts where one of an earlier segment starts, or both of its own start
      at the same place. */
  ghost predicate Clash(f: File, i: nat, room: nat -> bool)
    requires HeaderOk(f) && IsLoad(f, i) && SegmentOk(HeaderAt(f, i))
  {
    var h := HeaderAt(f, i);
    || Taken(f, i, room, VirtAddr(h))
    || (room(Asked(f, i)) && HasZeroArea(h) &&
         (RoundPageUp(ReadSize(h), U32_LIMIT) == 0 || Taken(f, i, room, ZeroArea(h).start)))
  }

  /** Header i lies in the file, has a known type, and if it is a segment, that can be mapped. */
  ghost predicate Passed(f: File, i: nat, room: nat -> bool)
    requires HeaderOk(f)
  {
    var h := HeaderAt(f, i);
    && PhdrPos(f, i) + PHDR_SIZE <= |f|
    && h.typ in {PT_NULL, PT_NOTE, PT_GNU_STACK, PT_LOAD}
    && (IsLoad(f, i) ==> SegmentOk(h) && room(Asked(f, i)) && !Clash(f, i, room))
  }

  ghost predicate PassedAll(f: File, i: nat, room: nat -> bool)
    requires HeaderOk(f)
  {
    forall k :: 0 <= k < i ==> Passed(f, k, room)
  }

  /** BUG_ON(start == vm_area->start) fires at header i; the stack comes after the last one. */
  ghost predicate StopsAt(f: File, i: nat, room: nat -> bool)
    requires HeaderOk(f)
  {
    if i < PhNum(f) then IsLoad(f, i) && SegmentOk(HeaderAt(f, i)) && Clash(f, i, room)
    else Taken(f, i, room, MEM_BOTTOM_HALF - STACK_SIZE)
  }

  lemma HasStartIff(areas: seq<Area>, start: nat)
    ensures HasStart(areas, start) <==> exists a :: a in areas && a.start == start
  {
  }

  lemma MapAdds(s: Progress, a: Area, room: nat -> bool)
    ensures Map(s, a, room).status.Halt? <==> HasStart(s.areas, a.start)
    ensures Map(s, a, room).status.Fine? <==> !HasStart(s.areas, a.start) && room(s.asked)
    ensures !Map(s, a, room).status.Halt? ==> Map(s, a, room).asked == s.asked + 1
    ensures forall x :: x in Map(s, a, room).areas <==> x in s.areas || (x == a && Map(s, a, room).status.Fine?)
  {
    InsertAdds(s.areas, a);
  }

  /** One segment stops the kernel exactly if one of its areas starts where there is one already. */
  lemma SegmentHaltsIff(f: File, h: Phdr, s: Progress, room: nat -> bool)
    requires SegmentOk(h)
    ensures LoadSegment(f, h, s, room).status.Halt? <==>
      || HasStart(s.areas, VirtAddr(h))
      || (room(s.asked) && HasZeroArea(h) &&
           (RoundPageUp(ReadSize(h), U32_LIMIT) == 0 || HasStart(s.areas, ZeroArea(h).start)))
  {
    hide Map, HasStart;
    var a := Map(s, FileArea(f, h), room);
    MapAdds(s, FileArea(f, h), room);
    if a.status.Fine? && HasZeroArea(h) {
      MapAdds(a, ZeroArea(h), room);
      HasStartIff(s.areas, ZeroArea(h).start);
      HasStartIff(a.areas, ZeroArea(h).start);
      assert FileArea(f, h) in a.areas;
    }
  }

  /** What a segment that does not stop the kernel adds. */
  lemma SegmentAdds(f: File, h: Phdr, s: Progress, room: nat -> bool)
    requires SegmentOk(h) && !LoadSegment(f, h, s, room).status.Halt?
    ensures
      var t := LoadSegment(f, h, s, room);
      && (t.status.Fine? <==> room(s.asked))
      && (t.status.Fine? ==> t.asked == s.asked + if HasZeroArea(h) then 2 else 1)
      && (t.status.Fine? ==> forall x :: x in t.areas <==>
           x in s.areas || x == FileArea(f, h) || (HasZeroArea(h) && room(s.asked + 1) && x == ZeroArea(h)))
  {
    hide Map, HasStart;
    var a := Map(s, FileArea(f, h), room);
    MapAdds(s, FileArea(f, h), room);
    if a.status.Fine? && HasZeroArea(h) {
      MapAdds(a, ZeroArea(h), room);
    }
  }

  /** The loader stands at header i with these areas, and has asked kzalloc for each of them. */
  ghost predicate Reached(f: File, i: nat, room: nat -> bool, s: Progress)
    requires HeaderOk(f)
  {
    && s.status.Fine? && s.asked == Asked(f, i)
    && forall a :: a in s.areas <==> HasArea(f, i, room, a)
  }

  lemma HasAreaStep(f: File, i: nat, room: nat -> bool, a: Area)
    requires HeaderOk(f)
    ensures HasArea(f, i + 1, room, a) <==> HasArea(f, i, room, a) || Gives(f, i, room, a)
    ensures !HasArea(f, 0, room, a)
  {
    hide Gives;
    if HasArea(f, i + 1, room, a) {
      var k :| 0 <= k < i + 1 && Gives(f, k, room, a);
    }
  }

  lemma TakenIff(f: File, i: nat, room: nat -> bool, s: Progress, start: nat)
    requires HeaderOk(f) && Reached(f, i, room, s)
    ensures Taken(f, i, room, start) <==> HasStart(s.areas, start)
  {
    hide Gives;
    HasStartIff(s.areas, start);
    if Taken(f, i, room, start) {
      var k, a :| 0 <= k < i && Gives(f, k, room, a) && a.start == start;
      assert HasArea(f, i, room, a);
    }
  }

  lemma ClashIff(f: File, i: nat, room: nat -> bool, s: Progress)
    requires HeaderOk(f) && Reached(f, i, room, s) && IsLoad(f, i) && SegmentOk(HeaderAt(f, i))
    ensures LoadSegment(f, HeaderAt(f, i), s, room).status.Halt? <==> Clash(f, i, room)
  {
    hide LoadSegment, Taken, HeaderAt, HasArea, HasStart;
    var h := HeaderAt(f, i);
    TakenIff(f, i, room, s, VirtAddr(h));
    if HasZeroArea(h) { TakenIff(f, i, room, s, ZeroArea(h).start); }
    SegmentHaltsIff(f, h, s, room);
  }

  lemma ReachedMore(f: File, i: nat, room: nat -> bool, s: Progress, t: Progress)
    requires HeaderOk(f) && Reached(f, i, room, s) && IsLoad(f, i) && SegmentOk(HeaderAt(f, i))
    requires t.status.Fine? && t.asked == s.asked + if HasZeroArea(HeaderAt(f, i)) then 2 else 1
    requires
      var h := HeaderAt(f, i);
      forall x :: x in t.areas <==>
        x in s.areas || x == FileArea(f, h) || (HasZeroArea(h) && room(s.asked + 1) && x == ZeroArea(h))
    ensures Reached(f, i + 1, room, t)
  {
    hide HasArea, HeaderAt, FileArea, ZeroArea, HasZeroArea, SegmentOk;
    assert Asked(f, i + 1) == t.asked;
    forall a ensures a in t.areas <==> HasArea(f, i + 1, room, a) {
      HasAreaStep(f, i, room, a);
      assert a in t.areas <==> a in s.areas || Gives(f, i, room, a);
    }
  }

  /** One segment: the kernel stops, or loading fails, or it goes on with the areas of one more. */
  lemma SegmentReaches(f: File, i: nat, room: nat -> bool, s: Progress)
    requires HeaderOk(f) && Reached(f, i, room, s) && IsLoad(f, i) && SegmentOk(HeaderAt(f, i))
    ensures
      var t := LoadSegment(f, HeaderAt(f, i), s, room);
      && (t.status.Halt? <==> Clash(f, i, room))
      && (t.status.Fine? <==> Passed(f, i, room))
      && (t.status.Fine? ==> Reached(f, i + 1, room, t))
  {
    hide LoadSegment, Clash, HasArea, HeaderAt, PhNum, FileArea, ZeroArea, SegmentOk;
    InFile(f, i);
    ClashIff(f, i, room, s);
    var t := LoadSegment(f, HeaderAt(f, i), s, room);
    if !t.status.Halt? {
      SegmentAdds(f, HeaderAt(f, i), s, room);
      if t.status.Fine? { ReachedMore(f, i, room, s, t); }
    }
  }

  lemma InFile(f: File, i: nat)
    requires HeaderOk(f) && HeaderAt(f, i).typ != PT_NULL
    ensures PhdrPos(f, i) + PHDR_SIZE <= |f| && HeaderAt(f, i) == PhdrAt(f, PhdrPos(f, i))
  {
  }

  lemma OtherReaches(f: File, i: nat, room: nat -> bool, s: Progress)
    requires HeaderOk(f) && Reached(f, i, room, s) && !IsLoad(f, i)
    ensures Reached(f, i + 1, room, s)
  {
    hide HasArea;
    forall a { HasAreaStep(f, i, room, a); }
  }

  /** How loading ends from header i on. */
  ghost predicate Ends(f: File, i: nat, room: nat -> bool, t: Progress)
    requires HeaderOk(f)
  {
    && (t.status.Halt? <==> exists k {:trigger StopsAt(f, k, room)} ::
         i <= k <= PhNum(f) && PassedAll(f, k, room) && StopsAt(f, k, room))
    && (t.status.Fine? <==> PassedAll(f, PhNum(f), room) && !StopsAt(f, PhNum(f), room) && room(Asked(f, PhNum(f))))
    && (t.status.Fine? ==> forall a ::
         a in t.areas <==> a == StackArea(StackFlags(f, PhNum(f))) || HasArea(f, PhNum(f), room, a))
  }

  lemma EndsLater(f: File, i: nat, room: nat -> bool, t: Progress)
    requires HeaderOk(f) && i < PhNum(f) && Ends(f, i + 1, room, t) && PassedAll(f, i, room) && Passed(f, i, room)
    ensures Ends(f, i, room, t)
  {
    hide Passed, Clash, Taken, HasArea;
    assert !StopsAt(f, i, room) by { PassedOn(f, i, room); }
  }

  lemma PassedOn(f: File, i: nat, room: nat -> bool)
    requires HeaderOk(f) && i < PhNum(f) && Passed(f, i, room)
    ensures !StopsAt(f, i, room)
  {
  }

  lemma EndsHere(f: File, i: nat, room: nat -> bool, t: Progress)
    requires HeaderOk(f) && i < PhNum(f) && PassedAll(f, i, room) && !Passed(f, i, room)
    requires !t.status.Fine? && (t.status.Halt? <==> StopsAt(f, i, room))
    ensures Ends(f, i, room, t)
  {
    hide Passed, StopsAt, HasArea;
  }

  lemma {:induction false} LoadFromEnds(f: File, i: nat, s: Progress, room: nat -> bool)
    requires HeaderOk(f) && i <= PhNum(f) && PassedAll(f, i, room) && Reached(f, i, room, s)
    ensures Ends(f, i, room, LoadFrom(f, i, StackFlags(f, i), s, room))
    decreases PhNum(f) - i
  {
    hide LoadSegment, Map, Clash, Taken, HasArea, PassedAll, Ends, Reached, Passed, Field, HeaderAt, PhNum;
    var t := LoadFrom(f, i, StackFlags(f, i), s, room);
    if i == PhNum(f) {
      StackEnds(f, s, room);
    } else if IsLoad(f, i) && SegmentOk(HeaderAt(f, i)) {
      InFile(f, i);
      SegmentReaches(f, i, room, s);
      var u := LoadSegment(f, HeaderAt(f, i), s, room);
      if u.status.Fine? {
        PassedMore(f, i, room);
        LoadFromEnds(f, i + 1, u, room);
        EndsLater(f, i, room, t);
      } else {
        EndsHere(f, i, room, t);
      }
    } else {
      OtherHeader(f, i, s, room);
      if Passed(f, i, room) {
        PassedMore(f, i, room);
        OtherReaches(f, i, room, s);
        LoadFromEnds(f, i + 1, s, room);
        EndsLater(f, i, room, t);
      } else {
        EndsHere(f, i, room, t);
      }
    }
  }

  lemma PassedMore(f: File, i: nat, room: nat -> bool)
    requires HeaderOk(f) && PassedAll(f, i, room) && Passed(f, i, room)
    ensures PassedAll(f, i + 1, room)
  {
  }

  /** A header that is no segment, or one that is refused. */
  lemma OtherHeader(f: File, i: nat, s: Progress, room: nat -> bool)
    requires HeaderOk(f) && i < PhNum(f)
    requires !(IsLoad(f, i) && SegmentOk(HeaderAt(f, i)))
    ensures
      var t := LoadFrom(f, i, StackFlags(f, i), s, room);
      if Passed(f, i, room) then !IsLoad(f, i) && t == LoadFrom(f, i + 1, StackFlags(f, i + 1), s, room)
      else t.status.Error?
    ensures !StopsAt(f, i, room)
  {
    hide Clash, Map, Field;
  }

  lemma StackEnds(f: File, s: Progress, room: nat -> bool)
    requires HeaderOk(f) && PassedAll(f, PhNum(f), room) && Reached(f, PhNum(f), room, s)
    ensures Ends(f, PhNum(f), room, Map(s, StackArea(StackFlags(f, PhNum(f))), room))
  {
    hide Map, Taken, HasArea, PassedAll, StackFlags, PhNum;
    var n := PhNum(f);
    TakenIff(f, n, room, s, MEM_BOTTOM_HALF - STACK_SIZE);
    MapAdds(s, StackArea(StackFlags(f, n)), room);
    assert StopsAt(f, n, room) <==> Taken(f, n, room, MEM_BOTTOM_HALF - STACK_SIZE);
  }

  /** How loading ends, read off the headers. The kernel stops exactly if up to some header all is
      well and there an area starts where another one does; the program may start exactly if all
      headers are accepted, there is memory for every area with file bytes and for the stack, and
      no start is met twice; it then has those areas, the zero areas there was memory for, a stack
      with the flags of the last PT_GNU_STACK header, and no others. */
  lemma LoadEnds(f: File, room: nat -> bool)
    ensures Load(f, room).status.Halt? <==>
      HeaderOk(f) && exists k {:trigger StopsAt(f, k, room)} ::
        0 <= k <= PhNum(f) && PassedAll(f, k, room) && StopsAt(f, k, room)
    ensures Load(f, room).status.Fine? <==>
      && HeaderOk(f) && PassedAll(f, PhNum(f), room)
      && !Taken(f, PhNum(f), room, MEM_BOTTOM_HALF - STACK_SIZE) && room(Asked(f, PhNum(f)))
    ensures Load(f, room).status.Fine? ==> forall a ::
      a in Load(f, room).areas <==> a == StackArea(StackFlags(f, PhNum(f))) || HasArea(f, PhNum(f), room, a)
  {
    hide LoadFrom, Taken;
    if HeaderOk(f) {
      forall a { HasAreaStep(f, 0, room, a); }
      LoadFromEnds(f, 0, Progress([], 0, Fine), room);
    }
  }

  /** Why loading fails: the file header is refused, or header k is the first that is, or, behind the
      last one, the stack. A lack of memory for an area is -ENOMEM, a position behind the end of the
      file -EINVAL, everything else -ENOEXEC. */
  lemma LoadFails(f: File, room: nat -> bool) returns (k: nat)
    requires Load(f, room).status.Error?
    ensures !HeaderOk(f) ==> Load(f, room).status.code == ENOEXEC
    ensures HeaderOk(f) ==> k <= PhNum(f) && PassedAll(f, k, room) && (k < PhNum(f) ==> !Passed(f, k, room))
    ensures HeaderOk(f) ==>
      (Load(f, room).status.code ==
       if k == PhNum(f) then ENOMEM
       else if PhdrPos(f, k) > |f| then EINVAL
       else if |f| - PhdrPos(f, k) >= PHDR_SIZE && IsLoad(f, k) && SegmentOk(HeaderAt(f, k)) then ENOMEM
       else ENOEXEC)
  {
    hide LoadFrom, Passed, PassedAll, SegmentOk;
    k := 0;
    if HeaderOk(f) {
      NonePassed(f, room);
      forall a { HasAreaStep(f, 0, room, a); }
      k := FailsFrom(f, 0, Progress([], 0, Fine), room);
    }
  }

  /** Which segments are refused: those with more bytes in the file than in memory, those whose
      address and place in the file differ within the page, and those that start behind the first
      page of the other half. */
  lemma SegmentOkIff(h: Phdr)
    ensures SegmentOk(h) <==>
      h.filesz <= h.memsz && (h.vaddr - h.offset) % PAGE_SIZE == 0 && h.vaddr < MEM_BOTTOM_HALF + PAGE_SIZE
  {
    Congruent(h.vaddr, h.offset);
  }

  lemma Congruent(a: nat, b: nat)
    ensures (a - b) % PAGE_SIZE == 0 <==> a % PAGE_SIZE == b % PAGE_SIZE
  {
    var x, y := a / PAGE_SIZE, b / PAGE_SIZE;
    assert a - b == PAGE_SIZE * (x - y) + (a % PAGE_SIZE - b % PAGE_SIZE);
  }

  lemma NonePassed(f: File, room: nat -> bool)
    requires HeaderOk(f)
    ensures PassedAll(f, 0, room)
  {
  }

  lemma {:induction false} FailsFrom(f: File, i: nat, s: Progress, room: nat -> bool) returns (k: nat)
    requires HeaderOk(f) && i <= PhNum(f) && PassedAll(f, i, room) && Reached(f, i, room, s)
    requires LoadFrom(f, i, StackFlags(f, i), s, room).status.Error?
    ensures i <= k <= PhNum(f) && PassedAll(f, k, room) && (k < PhNum(f) ==> !Passed(f, k, room))
    ensures LoadFrom(f, i, StackFlags(f, i), s, room).status.code ==
      if k == PhNum(f) then ENOMEM
      else if PhdrPos(f, k) > |f| then EINVAL
      else if |f| - PhdrPos(f, k) >= PHDR_SIZE && IsLoad(f, k) && SegmentOk(HeaderAt(f, k)) then ENOMEM
      else ENOEXEC
    decreases PhNum(f) - i
  {
    hide LoadSegment, Map, Clash, Taken, HasArea, PassedAll, Reached, Passed, Field, HeaderAt, PhNum;
    k := i;
    if i == PhNum(f) {
      MapFails(s, StackArea(StackFlags(f, i)), room);
    } else if IsLoad(f, i) && SegmentOk(HeaderAt(f, i)) {
      InFile(f, i);
      SegmentReaches(f, i, room, s);
      var u := LoadSegment(f, HeaderAt(f, i), s, room);
      if u.status.Fine? {
        PassedMore(f, i, room);
        k := FailsFrom(f, i + 1, u, room);
      } else {
        SegmentFails(f, HeaderAt(f, i), s, room);
      }
    } else {
      OtherHeader(f, i, s, room);
      if Passed(f, i, room) {
        PassedMore(f, i, room);
        OtherReaches(f, i, room, s);
        k := FailsFrom(f, i + 1, s, room);
      } else {
        OtherFails(f, i, s, room);
      }
    }
  }

  lemma MapFails(s: Progress, a: Area, room: nat -> bool)
    ensures Map(s, a, room).status.Error? ==> Map(s, a, room).status.code == ENOMEM
  {
  }

  lemma SegmentFails(f: File, h: Phdr, s: Progress, room: nat -> bool)
    requires SegmentOk(h)
    ensures LoadSegment(f, h, s, room).status.Error? ==> LoadSegment(f, h, s, room).status.code == ENOMEM
  {
    hide Map;
    MapFails(s, FileArea(f, h), room);
  }

  lemma OtherFails(f: File, i: nat, s: Progress, room: nat -> bool)
    requires HeaderOk(f) && i < PhNum(f) && !Passed(f, i, room)
    requires !(IsLoad(f, i) && SegmentOk(HeaderAt(f, i)))
    ensures LoadFrom(f, i, StackFlags(f, i), s, room).status ==
      Error(if PhdrPos(f, i) > |f| then EINVAL else ENOEXEC)
  {
    hide Clash, Map, Field;
  }

  // ----- the memory image

  /** The pages of a segment, from First up to but not including Last. */
  function First(h: Phdr): nat { RoundPageDown(h.vaddr) }

  function Last(h: Phdr): nat { RoundPageDown(h.vaddr + h.memsz + PAGE_SIZE - 1) }

  /** The in-memory size fits the loader's 32-bit arithmetic. */
  predicate NoWrap(h: Phdr) { h.memsz + InPage(h) + PAGE_SIZE <= U32_LIMIT }

  /** The page of the address belongs to segment i alone. */
  ghost predicate Alone(f: File, i: nat, addr: nat)
    requires HeaderOk(f)
  {
    && addr < MEM_BOTTOM_HALF - STACK_SIZE
    && forall k {:trigger IsLoad(f, k)} :: IsLoad(f, k) && k != i ==>
         !(First(HeaderAt(f, k)) <= addr < Last(HeaderAt(f, k)))
  }

  /** Rounding up in 32 bits from the start of a page is rounding up the address. */
  lemma RoundFromPage(v: nat, n: nat)
    requires v % PAGE_SIZE == 0 && n + PAGE_SIZE <= U32_LIMIT && v <= MEM_BOTTOM_HALF
    ensures RoundPageUp(v + n, U64_LIMIT) == v + RoundPageUp(n, U32_LIMIT)
    ensures RoundPageDown(v + n + PAGE_SIZE - 1) == v + RoundPageUp(n, U32_LIMIT)
  {
    var q := v / PAGE_SIZE;
    assert v == q * PAGE_SIZE;
    assert (v + n + PAGE_SIZE - 1) / PAGE_SIZE == q + (n + PAGE_SIZE - 1) / PAGE_SIZE;
  }

  /** Where the pages with bytes of the file end. */
  function FileEnd(h: Phdr): nat { RoundPageDown(h.vaddr + h.filesz + PAGE_SIZE - 1) }

  /** What the two areas of a segment cover: the pages with file bytes, and the rest. */
  lemma SegmentCovers(f: File, h: Phdr, addr: nat)
    requires SegmentOk(h) && NoWrap(h)
    ensures First(h) == VirtAddr(h) <= FileEnd(h) <= Last(h)
    ensures Covers(FileArea(f, h), addr) <==> First(h) <= addr < FileEnd(h)
    ensures HasZeroArea(h) ==> (Covers(ZeroArea(h), addr) <==> FileEnd(h) <= addr < Last(h))
    ensures !HasZeroArea(h) ==> FileEnd(h) == Last(h)
  {
    var v := VirtAddr(h);
    var q := h.vaddr / PAGE_SIZE;
    assert v == q * PAGE_SIZE;
    RoundFromPage(v, ReadSize(h));
    RoundFromPage(v, MemSize(h));
    assert h.vaddr + h.memsz == v + MemSize(h);
    assert h.vaddr + h.filesz == v + ReadSize(h);
    RoundMonotone(ReadSize(h), MemSize(h));
  }

  /** The areas of a segment lie in its pages, even if its sizes wrap. */
  lemma AreasInside(f: File, h: Phdr, addr: nat)
    requires SegmentOk(h)
    ensures Covers(FileArea(f, h), addr) ==> First(h) <= addr < Last(h)
    ensures HasZeroArea(h) && Covers(ZeroArea(h), addr) ==> First(h) <= addr < Last(h)
  {
    var v := VirtAddr(h);
    assert v == h.vaddr / PAGE_SIZE * PAGE_SIZE;
    EndInside(h, ReadSize(h));
    EndInside(h, MemSize(h));
  }

  lemma EndInside(h: Phdr, n: nat)
    requires SegmentOk(h) && n < U32_LIMIT && n <= h.memsz + InPage(h)
    ensures RoundPageUp(VirtAddr(h) + n, U64_LIMIT) <= Last(h)
  {
    assert (VirtAddr(h) + n + PAGE_SIZE - 1) % U64_LIMIT == VirtAddr(h) + n + PAGE_SIZE - 1;
  }

  lemma RoundMonotone(a: nat, b: nat)
    requires a <= b && b + PAGE_SIZE <= U32_LIMIT
    ensures RoundPageUp(a, U32_LIMIT) <= RoundPageUp(b, U32_LIMIT)
    ensures b <= RoundPageUp(a, U32_LIMIT) ==> RoundPageUp(b, U32_LIMIT) == RoundPageUp(a, U32_LIMIT)
  {
  }

  /** What a fault finds at an address of a segment that has the page to itself: the file area, or
      the zero area, or nothing if there was no memory for that. */
  lemma AreaOfSegment(f: File, room: nat -> bool, i: nat, addr: nat)
    requires HeaderOk(f) && Load(f, room).status.Fine? && IsLoad(f, i) && NoWrap(HeaderAt(f, i))
    requires First(HeaderAt(f, i)) <= addr < Last(HeaderAt(f, i)) && Alone(f, i, addr)
    ensures SegmentOk(HeaderAt(f, i))
    ensures
      var h := HeaderAt(f, i);
      && (addr >= FileEnd(h) ==> HasZeroArea(h))
      && FindArea(Load(f, room).areas, addr) ==
         if addr < FileEnd(h) then Some(FileArea(f, h))
         else if room(Asked(f, i) + 1) then Some(ZeroArea(h)) else None
  {
    hide Load, Alone, PhNum, HeaderAt, FileArea, ZeroArea, Covers, First, Last, FileEnd, NoWrap;
    var h := HeaderAt(f, i);
    LoadEnds(f, room);
    AllPassed(f, i, room);
    SegmentCovers(f, h, addr);
    var areas := Load(f, room).areas;
    assert Gives(f, i, room, FileArea(f, h));
    assert HasZeroArea(h) && room(Asked(f, i) + 1) ==> Gives(f, i, room, ZeroArea(h));
    forall b | b in areas && Covers(b, addr)
      ensures if addr < FileEnd(h) then b == FileArea(f, h) else room(Asked(f, i) + 1) && b == ZeroArea(h)
    {
      OnlyCover(f, room, i, addr, b);
    }
    if addr < FileEnd(h) {
      FindOnly(areas, FileArea(f, h), addr);
    } else if room(Asked(f, i) + 1) {
      FindOnly(areas, ZeroArea(h), addr);
    }
  }

  /** In a program that loads, all segments are in order. */
  lemma AllPassed(f: File, i: nat, room: nat -> bool)
    requires HeaderOk(f) && PassedAll(f, PhNum(f), room) && IsLoad(f, i)
    ensures SegmentOk(HeaderAt(f, i)) && !Clash(f, i, room)
  {
    assert Passed(f, i, room);
  }

  lemma OnlyCover(f: File, room: nat -> bool, i: nat, addr: nat, b: Area)
    requires HeaderOk(f) && IsLoad(f, i) && SegmentOk(HeaderAt(f, i)) && NoWrap(HeaderAt(f, i)) && Alone(f, i, addr)
    requires First(HeaderAt(f, i)) <= addr < Last(HeaderAt(f, i))
    requires b == StackArea(StackFlags(f, PhNum(f))) || HasArea(f, PhNum(f), room, b)
    requires Covers(b, addr)
    ensures
      var h := HeaderAt(f, i);
      if addr < FileEnd(h) then b == FileArea(f, h)
      else HasZeroArea(h) && room(Asked(f, i) + 1) && b == ZeroArea(h)
  {
    hide FileArea, ZeroArea, Covers, HeaderAt, First, Last, FileEnd, PhNum;
    SegmentCovers(f, HeaderAt(f, i), addr);
    if b == StackArea(StackFlags(f, PhNum(f))) {
      StackCovers(StackFlags(f, PhNum(f)), addr);
      assert false;
    } else {
      var k :| 0 <= k < PhNum(f) && Gives(f, k, room, b);
      AreasInside(f, HeaderAt(f, k), addr);
    }
  }

  lemma StackCovers(flags: nat, addr: nat)
    ensures Covers(StackArea(flags), addr) <==> MEM_BOTTOM_HALF - STACK_SIZE <= addr < MEM_BOTTOM_HALF
  {
  }

  /** If one area of a list covers an address, the search finds it. */
  lemma {:induction false} FindOnly(s: seq<Area>, a: Area, addr: nat)
    requires a in s && Covers(a, addr) && forall b :: b in s && Covers(b, addr) ==> b == a
    ensures FindArea(s, addr) == Some(a)
  {
    if !Covers(s[0], addr) {
      assert s == [s[0]] + s[1..];
      FindOnly(s[1..], a, addr);
    } else {
      assert s[0] in s;
    }
  }

  /** How many bytes of the file a fault on the file area reads. */
  function ReadLength(h: Phdr, addr: nat): nat
    requires SegmentOk(h) && RoundPageDown(addr) < VirtAddr(h) + ReadSize(h)
  {
    var left := VirtAddr(h) + ReadSize(h) - RoundPageDown(addr);
    if PAGE_SIZE > left then left else PAGE_SIZE
  }

  lemma FileBase(f: File, h: Phdr, addr: nat)
    requires SegmentOk(h) && NoWrap(h) && VirtAddr(h) <= addr && Covers(FileArea(f, h), addr)
    ensures VirtAddr(h) <= RoundPageDown(addr) < VirtAddr(h) + ReadSize(h)
  {
    hide RoundPageUp, RoundPageDown, ReadSize, InPage;
    StartsPage(h);
    DownAbove(VirtAddr(h), addr);
    RoundFromPage(VirtAddr(h), ReadSize(h));
    BaseBelowEnd(VirtAddr(h), ReadSize(h), addr);
  }

  lemma StartsPage(h: Phdr)
    requires SegmentOk(h) && NoWrap(h)
    ensures VirtAddr(h) % PAGE_SIZE == 0 && ReadSize(h) + PAGE_SIZE <= U32_LIMIT
  {
  }

  /** The file is long enough for the bytes of the segment that lie in the page of the address. */
  predicate Backed(f: File, h: Phdr, addr: nat) {
    var top := RoundPageDown(addr) + PAGE_SIZE - h.vaddr;
    h.offset + (if top < h.filesz then top else h.filesz) <= |f|
  }

  /** The page a fault on the file area brings in. */
  lemma FilePage(f: File, h: Phdr, addr: nat)
    requires SegmentOk(h) && NoWrap(h) && h.offset + h.filesz < U32_LIMIT
    requires VirtAddr(h) <= addr && Covers(FileArea(f, h), addr) && AreaOk(FileArea(f, h))
    ensures VirtAddr(h) <= RoundPageDown(addr) < VirtAddr(h) + ReadSize(h)
    ensures
      var from := h.offset - InPage(h) + (RoundPageDown(addr) - VirtAddr(h));
      var len := ReadLength(h, addr);
      && (Backed(f, h, addr) <==> from + len <= |f|)
      && InitialPage(FileArea(f, h), addr) ==
         if from + len <= |f| then Some(f[from..from + len] + Zeros(PAGE_SIZE - len)) else None
  {
    FileBase(f, h, addr);
    SegmentStart(h);
    hide RoundPageDown, Covers, AreaOk, InPage, VirtAddr, ReadSize, NoWrap, SegmentOk;
    SmallMod(h.offset - InPage(h));
    SmallMod(h.offset - InPage(h) + (RoundPageDown(addr) - VirtAddr(h)));
  }

  lemma SmallMod(x: nat)
    requires x < U32_LIMIT
    ensures x % U32_LIMIT == x
  {
  }

  /** A byte of the file area: the file's, or zero behind the segment's part of the file; none if
      the file ends before that part of the page does. */
  lemma FileByte(f: File, h: Phdr, addr: nat)
    requires SegmentOk(h) && NoWrap(h) && h.offset + h.filesz < U32_LIMIT
    requires h.vaddr <= addr && Covers(FileArea(f, h), addr)
    ensures AreaOk(FileArea(f, h)) && (InitialPage(FileArea(f, h), addr).Some? <==> Backed(f, h, addr))
    ensures Backed(f, h, addr) ==>
      var j := addr - h.vaddr;
      && (j < h.filesz ==> h.offset + j < |f|)
      && InitialPage(FileArea(f, h), addr).value[OffsetOf(addr)] == if j < h.filesz then f[h.offset + j] else 0
  {
    SegmentAreasOk(f, h);
    FilePage(f, h, addr);
    SplitAddress(addr);
    SegmentStart(h);
    hide InitialPage, Covers, FileArea, RoundPageDown, OffsetOf, InPage, VirtAddr, ReadSize, NoWrap, SegmentOk;
    hide Backed;
    if Backed(f, h, addr) {
      var from := h.offset - InPage(h) + (RoundPageDown(addr) - VirtAddr(h));
      ByteOf(f, from, ReadLength(h, addr), OffsetOf(addr));
    }
  }

  lemma SplitAddress(addr: nat)
    ensures RoundPageDown(addr) + OffsetOf(addr) == addr
  {
  }

  lemma SegmentStart(h: Phdr)
    requires SegmentOk(h) && NoWrap(h)
    ensures h.vaddr == VirtAddr(h) + InPage(h) && ReadSize(h) == h.filesz + InPage(h)
  {
  }

  lemma ByteOf(f: File, from: nat, len: nat, x: nat)
    requires from + len <= |f| && len <= PAGE_SIZE && x < PAGE_SIZE
    ensures (f[from..from + len] + Zeros(PAGE_SIZE - len))[x] == if x < len then f[from + x] else 0
  {
  }

  lemma DownAbove(v: nat, addr: nat)
    requires v % PAGE_SIZE == 0 && v <= addr
    ensures v <= RoundPageDown(addr)
  {
    assert v == v / PAGE_SIZE * PAGE_SIZE;
  }

  /** The first byte of a covered page lies inside the area itself. */
  lemma BaseBelowEnd(v: nat, n: nat, addr: nat)
    requires v % PAGE_SIZE == 0 && v <= addr < v + RoundPageUp(n, U32_LIMIT) && n + PAGE_SIZE <= U32_LIMIT
    ensures RoundPageDown(addr) < v + n
  {
    var q := v / PAGE_SIZE;
    assert v == q * PAGE_SIZE;
    var r := (n + PAGE_SIZE - 1) / PAGE_SIZE;
    assert addr < (q + r) * PAGE_SIZE;
    assert addr / PAGE_SIZE <= q + r - 1;
  }

  /** The page of the address can be brought in: the file is long enough, or behind the pages with
      bytes of the file there was memory for the zero area. */
  predicate Filled(f: File, room: nat -> bool, i: nat, addr: nat)
    requires HeaderOk(f)
  {
    if addr < FileEnd(HeaderAt(f, i)) then Backed(f, HeaderAt(f, i), addr) else room(Asked(f, i) + 1)
  }

  /** The address of byte j of segment i, of a size that fits 32 bits, on a page of its own. */
  ghost predicate OwnByte(f: File, i: nat, j: nat)
    requires HeaderOk(f)
  {
    && IsLoad(f, i) && NoWrap(HeaderAt(f, i)) && HeaderAt(f, i).offset + HeaderAt(f, i).filesz < U32_LIMIT
    && j < HeaderAt(f, i).memsz && Alone(f, i, HeaderAt(f, i).vaddr + j)
  }

  /** The image the ELF specification describes (System V gABI, chapter 5, "Program Header"): the
      bytes of a segment are those of the file, followed by zeros up to its size in memory. */
  lemma ProgramImage(f: File, room: nat -> bool, i: nat, j: nat)
    requires HeaderOk(f) && Load(f, room).status.Fine? && OwnByte(f, i, j)
    ensures AreasOk(Load(f, room).areas)
    ensures
      var h := HeaderAt(f, i);
      && (Filled(f, room, i, h.vaddr + j) && j < h.filesz ==> h.offset + j < |f|)
      && L.Image(Load(f, room).areas, h.vaddr + j) ==
         if !Filled(f, room, i, h.vaddr + j) then None
         else Some(if j < h.filesz then f[h.offset + j] else 0)
  {
    hide FileArea, ZeroArea, Last, FileEnd, AreasOk, Load, Alone, InitialPage, HeaderAt, Backed;
    var h := HeaderAt(f, i);
    var addr := h.vaddr + j;
    LoadedAreasOk(f, room);
    InSegment(h, j);
    AreaOfSegment(f, room, i, addr);
    SegmentCovers(f, h, addr);
    if addr < FileEnd(h) {
      FileByte(f, h, addr);
    } else if room(Asked(f, i) + 1) {
      ZeroByte(f, h, addr);
    }
  }

  /** The area that a fault on a byte of a loaded segment finds has the rights that the flags of the
      segment name: 4 to read, 2 to write, 1 to execute. */
  lemma SegmentRights(f: File, room: nat -> bool, i: nat, j: nat)
    requires HeaderOk(f) && Load(f, room).status.Fine? && OwnByte(f, i, j)
    ensures
      var h := HeaderAt(f, i);
      var a := FindArea(Load(f, room).areas, h.vaddr + j);
      && (a.None? ==> !Filled(f, room, i, h.vaddr + j))
      && (a.Some? ==>
           && (a.value.prot.read <==> h.flags / 4 % 2 == 1) && (a.value.prot.write <==> h.flags / 2 % 2 == 1)
           && (a.value.prot.exec <==> h.flags % 2 == 1))
  {
    hide FileArea, ZeroArea, First, Last, FileEnd, Load, Alone, HeaderAt, FindArea, ProtOf, NoWrap, Backed;
    var h := HeaderAt(f, i);
    InSegment(h, j);
    AreaOfSegment(f, room, i, h.vaddr + j);
    SegmentProt(f, h);
  }

  /** A byte of a loaded segment lies in a write-only area exactly if the segment has only PF_W set.
      There demand paging is visible. */
  lemma WriteOnlySegment(f: File, room: nat -> bool, i: nat, j: nat)
    requires HeaderOk(f) && Load(f, room).status.Fine? && OwnByte(f, i, j)
    ensures AreasOk(Load(f, room).areas)
    ensures
      var h := HeaderAt(f, i);
      L.WriteOnlyAt(Load(f, room).areas, h.vaddr + j) <==>
        && h.flags / 4 % 2 == 0 && h.flags / 2 % 2 == 1 && h.flags % 2 == 0
        && Filled(f, room, i, h.vaddr + j)
  {
    hide AreasOk, Load, OwnByte, InitialPage, HeaderAt, FindArea, Filled;
    ProgramImage(f, room, i, j);
    SegmentRights(f, room, i, j);
  }

  lemma SegmentProt(f: File, h: Phdr)
    requires SegmentOk(h)
    ensures FileArea(f, h).prot == ProtOf(h.flags) && (HasZeroArea(h) ==> ZeroArea(h).prot == ProtOf(h.flags))
    ensures ProtOf(h.flags).read <==> h.flags / 4 % 2 == 1
    ensures ProtOf(h.flags).write <==> h.flags / 2 % 2 == 1
    ensures ProtOf(h.flags).exec <==> h.flags % 2 == 1
  {
  }

  lemma InSegment(h: Phdr, j: nat)
    requires j < h.memsz
    ensures First(h) <= h.vaddr + j < Last(h)
  {
  }

  lemma ZeroByte(f: File, h: Phdr, addr: nat)
    requires SegmentOk(h) && NoWrap(h) && HasZeroArea(h) && Covers(ZeroArea(h), addr) && h.vaddr <= addr
    ensures AreaOk(ZeroArea(h)) && InitialPage(ZeroArea(h), addr).Some?
    ensures InitialPage(ZeroArea(h), addr).value[OffsetOf(addr)] == 0
    ensures addr - h.vaddr >= h.filesz
  {
    SegmentAreasOk(f, h);
  }

  lemma {:induction false} LoadedFromOk(f: File, i: nat, stack: nat, s: Progress, room: nat -> bool)
    requires HeaderOk(f) && AreasOk(s.areas)
    ensures AreasOk(LoadFrom(f, i, stack, s, room).areas)
    decreases PhNum(f) - i
  {
    hide AreasOk, Map, LoadSegment, Field, PhNum, PhdrPos;
    if i >= PhNum(f) {
      assert AreaOk(StackArea(stack));
      MapOk(s, StackArea(stack), room);
    } else if PhdrPos(f, i) + PHDR_SIZE <= |f| {
      var h := PhdrAt(f, PhdrPos(f, i));
      if h.typ == PT_LOAD {
        SegmentOkAreas(f, h, s, room);
        LoadedFromOk(f, i + 1, stack, LoadSegment(f, h, s, room), room);
      } else {
        LoadedFromOk(f, i + 1, if h.typ == PT_GNU_STACK then h.flags else stack, s, room);
      }
    }
  }

  lemma SegmentOkAreas(f: File, h: Phdr, s: Progress, room: nat -> bool)
    requires AreasOk(s.areas)
    ensures AreasOk(LoadSegment(f, h, s, room).areas)
  {
    hide AreasOk, Map;
    if SegmentOk(h) {
      SegmentAreasOk(f, h);
      MapOk(s, FileArea(f, h), room);
      if HasZeroArea(h) { MapOk(Map(s, FileArea(f, h), room), ZeroArea(h), room); }
    }
  }

  lemma LoadedAreasOk(f: File, room: nat -> bool)
    ensures AreasOk(Load(f, room).areas)
  {
    hide LoadFrom;
    if HeaderOk(f) { LoadedFromOk(f, 0, 7, Progress([], 0, Fine), room); }
  }

  /** From exec on, whatever all processes do, a load of a readable segment byte that the process
      has not stored to returns that image. */
  lemma LoadedByte(f: File, room: nat -> bool, i: nat, j: nat, w: L.World, p: nat, evs: seq<E.Event>)
    requires HeaderOk(f) && Load(f, room).status.Fine? && OwnByte(f, i, j)
    requires HeaderAt(f, i).flags / 4 % 2 == 1 || HeaderAt(f, i).flags % 2 == 1
    requires L.WorldOk(w) && p in w && AreasOk(Load(f, room).areas)
    requires L.RunEnabled(L.Step(w, E.Exec(p, Load(f, room).areas)).0, evs)
    requires forall e :: e in evs ==> L.Spares(e, p, HeaderAt(f, i).vaddr + j)
    ensures
      var h := HeaderAt(f, i);
      var u := L.Run(L.Step(w, E.Exec(p, Load(f, room).areas)).0, evs).final;
      && L.WorldOk(u) && p in u && h.vaddr + j < MEM_BOTTOM_HALF
      && (Filled(f, room, i, h.vaddr + j) && j < h.filesz ==> h.offset + j < |f|)
      && L.Step(u, E.Load(p, h.vaddr + j)).1 ==
         if !Filled(f, room, i, h.vaddr + j) then E.Halt
         else E.Byte(if j < h.filesz then f[h.offset + j] else 0)
  {
    hide Load, HeaderAt, AreasOk, InitialPage, FindArea, L.Step, L.Run, L.RunEnabled, L.Spares, L.Image, Filled;
    var addr := HeaderAt(f, i).vaddr + j;
    ProgramImage(f, room, i, j);
    SegmentRights(f, room, i, j);
    L.ImageStays(w, p, Load(f, room).areas, evs, addr);
  }

  /** And a store to a byte of a segment is served exactly if PF_W is set and the page can be brought
      in; without any right, neither is a load. */
  lemma StoredByte(f: File, room: nat -> bool, i: nat, j: nat, w: L.World, p: nat, evs: seq<E.Event>, v: byte)
    requires HeaderOk(f) && Load(f, room).status.Fine? && OwnByte(f, i, j)
    requires L.WorldOk(w) && p in w && AreasOk(Load(f, room).areas)
    requires L.RunEnabled(L.Step(w, E.Exec(p, Load(f, room).areas)).0, evs)
    requires forall e :: e in evs ==> L.Leaves(e, p)
    ensures
      var h := HeaderAt(f, i);
      var u := L.Run(L.Step(w, E.Exec(p, Load(f, room).areas)).0, evs).final;
      && L.WorldOk(u) && p in u && h.vaddr + j < MEM_BOTTOM_HALF
      && L.Step(u, E.Store(p, h.vaddr + j, v)).1 ==
         (if h.flags / 2 % 2 == 1 && Filled(f, room, i, h.vaddr + j) then E.Done else E.Halt)
      && (h.flags / 4 % 2 == 0 && h.flags / 2 % 2 == 0 && h.flags % 2 == 0 ==>
           L.Step(u, E.Load(p, h.vaddr + j)).1 == E.Halt)
  {
    hide Load, HeaderAt, AreasOk, InitialPage, FindArea, L.Step, L.Run, L.RunEnabled, L.Leaves, L.Image, Filled;
    var addr := HeaderAt(f, i).vaddr + j;
    ProgramImage(f, room, i, j);
    SegmentRights(f, room, i, j);
    L.RightsStay(w, p, Load(f, room).areas, evs, addr, v);
  }

  // ----- the stack

  /** The flags of the last PT_GNU_STACK header among the first i, k being one past it; 7 if there is
      none. */
  lemma {:induction false} StackFlagsAre(f: File, i: nat, k: nat)
    requires HeaderOk(f) && k <= i && forall m: nat {:trigger HeaderAt(f, m)} ::
      k <= m < i ==> HeaderAt(f, m).typ != PT_GNU_STACK
    ensures k == 0 ==> StackFlags(f, i) == 7
    ensures k > 0 && HeaderAt(f, k - 1).typ == PT_GNU_STACK ==> StackFlags(f, i) == HeaderAt(f, k - 1).flags
    decreases i
  {
    hide HeaderAt;
    if k < i { StackFlagsAre(f, i - 1, k); }
  }

  /** In the page of the stack, if no segment reaches into it. */
  ghost predicate InStack(f: File, addr: nat)
    requires HeaderOk(f)
  {
    && MEM_BOTTOM_HALF - STACK_SIZE <= addr < MEM_BOTTOM_HALF
    && forall k {:trigger IsLoad(f, k)} :: IsLoad(f, k) ==> !(First(HeaderAt(f, k)) <= addr < Last(HeaderAt(f, k)))
  }

  lemma StackFound(f: File, room: nat -> bool, addr: nat)
    requires HeaderOk(f) && Load(f, room).status.Fine? && InStack(f, addr)
    ensures FindArea(Load(f, room).areas, addr) == Some(StackArea(StackFlags(f, PhNum(f))))
  {
    hide Load, FileArea, ZeroArea, Covers, HeaderAt, First, Last, StackArea, PhNum;
    LoadEnds(f, room);
    var stack := StackArea(StackFlags(f, PhNum(f)));
    StackCovers(StackFlags(f, PhNum(f)), addr);
    forall b | b in Load(f, room).areas && Covers(b, addr) ensures b == stack {
      if b != stack {
        var k :| 0 <= k < PhNum(f) && Gives(f, k, room, b);
        AreasInside(f, HeaderAt(f, k), addr);
      }
    }
    FindOnly(Load(f, room).areas, stack, addr);
  }

  lemma StackRights(flags: nat, addr: nat)
    requires Covers(StackArea(flags), addr)
    ensures
      var a := StackArea(flags);
      && AreaOk(a) && InitialPage(a, addr) == Some(Zeros(PAGE_SIZE))
      && (a.prot.read <==> flags / 4 % 2 == 1) && (a.prot.write <==> flags / 2 % 2 == 1)
      && (a.prot.exec <==> flags % 2 == 1)
  {
  }

  /** What user code finds on the stack: zeros, and the rights that the last PT_GNU_STACK header
      names, or all if there is none. */
  lemma StackByte(f: File, room: nat -> bool, k: nat, addr: nat, w: L.World, p: nat, evs: seq<E.Event>, v: byte)
    requires HeaderOk(f) && Load(f, room).status.Fine? && InStack(f, addr)
    requires k <= PhNum(f) && (k > 0 ==> HeaderAt(f, k - 1).typ == PT_GNU_STACK)
    requires forall m: nat {:trigger HeaderAt(f, m)} :: k <= m < PhNum(f) ==> HeaderAt(f, m).typ != PT_GNU_STACK
    requires L.WorldOk(w) && p in w && AreasOk(Load(f, room).areas)
    requires L.RunEnabled(L.Step(w, E.Exec(p, Load(f, room).areas)).0, evs)
    requires forall e :: e in evs ==> L.Leaves(e, p)
    ensures
      var flags := if k == 0 then 7 else HeaderAt(f, k - 1).flags;
      var u := L.Run(L.Step(w, E.Exec(p, Load(f, room).areas)).0, evs).final;
      && L.WorldOk(u) && p in u
      && L.Step(u, E.Store(p, addr, v)).1 == (if flags / 2 % 2 == 1 then E.Done else E.Halt)
      && ((flags / 4 % 2 == 1 || flags % 2 == 1) && (forall e :: e in evs ==> L.Spares(e, p, addr)) ==>
           L.Step(u, E.Load(p, addr)).1 == E.Byte(0))
  {
    hide Load, HeaderAt, AreasOk, InitialPage, FindArea, L.Step, L.Run, L.RunEnabled, L.Leaves, L.Spares, StackArea;
    StackFlagsAre(f, PhNum(f), k);
    StackFound(f, room, addr);
    StackCovers(StackFlags(f, PhNum(f)), addr);
    StackRights(StackFlags(f, PhNum(f)), addr);
    L.RightsStay(w, p, Load(f, room).areas, evs, addr, v);
    if (StackFlags(f, PhNum(f)) / 4 % 2 == 1 || StackFlags(f, PhNum(f)) % 2 == 1) &&
       forall e :: e in evs ==> L.Spares(e, p, addr)
    {
      L.ImageStays(w, p, Load(f, room).areas, evs, addr);
    }
  }

  // ----- the zero area

  /** The zero area of a segment that has its pages to itself is there exactly if kzalloc had
      memory for it; loading succeeds either way. */
  lemma ZeroAreaIff(f: File, room: nat -> bool, i: nat)
    requires HeaderOk(f) && Load(f, room).status.Fine? && IsLoad(f, i) && NoWrap(HeaderAt(f, i))
    requires HasZeroArea(HeaderAt(f, i)) && Alone(f, i, FileEnd(HeaderAt(f, i)))
    ensures SegmentOk(HeaderAt(f, i))
    ensures ZeroArea(HeaderAt(f, i)) in Load(f, room).areas <==> room(Asked(f, i) + 1)
  {
    hide Load, HeaderAt, Alone, ZeroArea, FileArea, PhNum;
    var h := HeaderAt(f, i);
    LoadEnds(f, room);
    AllPassed(f, i, room);
    if room(Asked(f, i) + 1) {
      assert Gives(f, i, room, ZeroArea(h));
    } else if ZeroArea(h) in Load(f, room).areas {
      ZeroCovers(f, h);
      OnlyCover(f, room, i, FileEnd(h), ZeroArea(h));
      assert false;
    }
  }

  lemma ZeroCovers(f: File, h: Phdr)
    requires SegmentOk(h) && NoWrap(h) && HasZeroArea(h)
    ensures Covers(ZeroArea(h), FileEnd(h)) && First(h) <= FileEnd(h) < Last(h)
  {
    SegmentCovers(f, h, FileEnd(h));
    ZeroBehind(h);
    hide Covers, ZeroArea, First, Last, FileEnd;
  }

  lemma ZeroBehind(h: Phdr)
    requires SegmentOk(h) && NoWrap(h) && HasZeroArea(h)
    ensures FileEnd(h) < Last(h)
  {
    RoundFromPage(VirtAddr(h), ReadSize(h));
    RoundFromPage(VirtAddr(h), MemSize(h));
    SegmentEnds(h);
    hide First, VirtAddr, ReadSize, MemSize, InPage;
    assert RoundPageUp(MemSize(h), U32_LIMIT) >= MemSize(h);
  }

  lemma SegmentEnds(h: Phdr)
    requires SegmentOk(h) && NoWrap(h)
    ensures h.vaddr + h.memsz == VirtAddr(h) + MemSize(h) && h.vaddr + h.filesz == VirtAddr(h) + ReadSize(h)
    ensures MemSize(h) + PAGE_SIZE <= U32_LIMIT && ReadSize(h) + PAGE_SIZE <= U32_LIMIT && VirtAddr(h) % PAGE_SIZE == 0
  {
  }

  /** No area of a loaded program reaches into the kernel half. */
  lemma LoadedAreasLow(f: File, room: nat -> bool, a: Area, addr: nat)
    requires Load(f, room).status.Fine? && a in Load(f, room).areas && Covers(a, addr)
    ensures addr < MEM_TOP_HALF
  {
    hide Load, FileArea, ZeroArea, Covers;
    LoadEnds(f, room);
    if a == StackArea(StackFlags(f, PhNum(f))) {
      StackCovers(StackFlags(f, PhNum(f)), addr);
    } else {
      var k :| 0 <= k < PhNum(f) && Gives(f, k, room, a);
      SegmentLow(f, HeaderAt(f, k), addr);
    }
  }

  lemma SegmentLow(f: File, h: Phdr, addr: nat)
    requires SegmentOk(h)
    ensures Covers(FileArea(f, h), addr) ==> addr < MEM_TOP_HALF
    ensures HasZeroArea(h) && Covers(ZeroArea(h), addr) ==> addr < MEM_TOP_HALF
  {
  }

  // ----- two files

  /** The bytes of a file with one segment at 0x400000 and nothing behind its headers. */
  function ByteOfOne(i: nat, filesz: byte, memPages: byte): byte
    requires memPages < 16
  {
    if i < 64 then
      match i
      case 0 => 0x7f case 1 => 0x45 case 2 => 0x4c case 3 => 0x46      // e_ident
      case 4 => 2 case 5 => 1 case 6 => 1
      case 16 => 2 case 18 => 62 case 20 => 1                          // e_type, e_machine, e_version
      case 32 => 64                                                    // e_phoff
      case 56 => 1                                                     // e_phnum
      case _ => 0
    else
      match i - 64
      case 0 => 1 case 4 => 6                                          // p_type, p_flags
      case 18 => 0x40                                                  // p_vaddr
      case 32 => filesz                                                // p_filesz
      case 41 => memPages * 16                                         // p_memsz
      case _ => 0
  }

  function OneSegment(filesz: byte, memPages: byte): (f: File)
    requires memPages < 16
    ensures |f| == EHDR_SIZE + PHDR_SIZE
  {
    seq(EHDR_SIZE + PHDR_SIZE, i requires i >= 0 => ByteOfOne(i, filesz, memPages))
  }

  /** A field of which only the first k bytes are not zero. */
  lemma {:induction false} FieldLow(f: seq<byte>, at: nat, n: nat, k: nat)
    requires at + n <= |f| && k <= n && forall i :: at + k <= i < at + n ==> f[i] == 0
    ensures Field(f, at, n) == Field(f, at, k)
    decreases n
  {
    if k > 0 {
      FieldLow(f, at + 1, n - 1, k - 1);
    } else if n > 0 {
      FieldLow(f, at + 1, n - 1, 0);
    }
  }

  lemma OneSegmentHeader(filesz: byte, memPages: byte)
    requires memPages < 16
    ensures HeaderOk(OneSegment(filesz, memPages)) && PhNum(OneSegment(filesz, memPages)) == 1
    ensures PhOff(OneSegment(filesz, memPages)) == 64
  {
    var f := OneSegment(filesz, memPages);
    FieldLow(f, 16, 2, 1);
    FieldLow(f, 18, 2, 1);
    FieldLow(f, 20, 4, 1);
    FieldLow(f, 32, 8, 1);
    FieldLow(f, 56, 2, 1);
  }

  /** The fields of its program header, one by one. */
  lemma OneSegmentType(filesz: byte, memPages: byte)
    requires memPages < 16
    ensures
      var f := OneSegment(filesz, memPages);
      Field(f, 64, 4) == 1 && Field(f, 68, 4) == 6 && Field(f, 72, 8) == 0
  {
    var f := OneSegment(filesz, memPages);
    FieldLow(f, 64, 4, 1);
    FieldLow(f, 68, 4, 1);
    FieldLow(f, 72, 8, 0);
  }

  lemma OneSegmentAddress(filesz: byte, memPages: byte)
    requires memPages < 16
    ensures Field(OneSegment(filesz, memPages), 80, 8) == 0x40_0000
  {
    var f := OneSegment(filesz, memPages);
    FieldLow(f, 80, 8, 3);
    assert Field(f, 82, 1) == 0x40;
    assert Field(f, 81, 2) == 256 * Field(f, 82, 1);
    assert Field(f, 80, 3) == 256 * Field(f, 81, 2);
  }

  lemma OneSegmentSizes(filesz: byte, memPages: byte)
    requires memPages < 16
    ensures
      var f := OneSegment(filesz, memPages);
      Field(f, 96, 8) == filesz as nat && Field(f, 104, 8) == PAGE_SIZE * memPages as nat
  {
    var f := OneSegment(filesz, memPages);
    FieldLow(f, 96, 8, 1);
    FieldLow(f, 104, 8, 2);
    assert Field(f, 105, 1) == memPages as nat * 16;
    assert Field(f, 104, 2) == 256 * Field(f, 105, 1);
  }

  lemma OneSegmentPhdr(filesz: byte, memPages: byte)
    requires memPages < 16
    ensures PhdrAt(OneSegment(filesz, memPages), 64) ==
      Phdr(PT_LOAD, 6, 0, 0x40_0000, filesz as nat, PAGE_SIZE * memPages as nat)
  {
    hide Field, ByteOfOne;
    OneSegmentType(filesz, memPages);
    OneSegmentAddress(filesz, memPages);
    OneSegmentSizes(filesz, memPages);
  }

  /** A segment without bytes of the file, but with bytes in memory, stops the kernel: both of its
      areas start at the same address. */
  lemma BssOnlyHalts(room: nat -> bool)
    requires room(0)
    ensures Load(OneSegment(0, 1), room).status.Halt?
  {
    hide OneSegment, Load, Field, HeaderOk, StopsAt, PassedAll, Taken;
    var f := OneSegment(0, 1);
    OneSegmentHeader(0, 1);
    OneSegmentPhdr(0, 1);
    LoadEnds(f, room);
    OneSegmentClash(f, room);
    NonePassed(f, room);
  }

  lemma OneSegmentClash(f: File, room: nat -> bool)
    requires HeaderOk(f) && PhNum(f) == 1 && room(0)
    requires HeaderAt(f, 0) == Phdr(PT_LOAD, 6, 0, 0x40_0000, 0, PAGE_SIZE)
    ensures StopsAt(f, 0, room)
  {
    hide PhdrPos, PhNum, HeaderAt, Field, HeaderOk;
    assert IsLoad(f, 0) && Asked(f, 0) == 0;
  }

  /** Without memory for the zero area of its segment, this program is started all the same. */
  lemma StartsWithoutZeroArea()
    ensures
      var f, room := OneSegment(16, 2), (n: nat) => n != 1;
      && HeaderOk(f) && Load(f, room).status.Fine?
      && SegmentOk(HeaderAt(f, 0)) && HasZeroArea(HeaderAt(f, 0)) && ZeroArea(HeaderAt(f, 0)) !in Load(f, room).areas
  {
    hide OneSegment, Load, Field, HeaderOk;
    var f, room := OneSegment(16, 2), (n: nat) => n != 1;
    OneSegmentHeader(16, 2);
    OneSegmentPhdr(16, 2);
    LoadEnds(f, room);
    OneSegmentLoads(f, room);
    OneSegmentZero(f, room);
  }

  lemma OneSegmentLoads(f: File, room: nat -> bool)
    requires HeaderOk(f) && PhNum(f) == 1 && PhdrPos(f, 0) + PHDR_SIZE <= |f|
    requires HeaderAt(f, 0) == Phdr(PT_LOAD, 6, 0, 0x40_0000, 16, 2 * PAGE_SIZE)
    requires room(0) && !room(1) && room(2)
    ensures PassedAll(f, 1, room) && !Taken(f, 1, room, MEM_BOTTOM_HALF - STACK_SIZE) && room(Asked(f, 1))
  {
    hide PhdrPos, PhNum, HeaderAt, Field, HeaderOk;
    assert IsLoad(f, 0);
    assert Asked(f, 1) == Asked(f, 0) + 2;
    assert Passed(f, 0, room);
  }

  lemma OneSegmentZero(f: File, room: nat -> bool)
    requires HeaderOk(f) && PhNum(f) == 1 && !room(1)
    requires HeaderAt(f, 0) == Phdr(PT_LOAD, 6, 0, 0x40_0000, 16, 2 * PAGE_SIZE)
    ensures SegmentOk(HeaderAt(f, 0)) && HasZeroArea(HeaderAt(f, 0)) && Asked(f, 0) == 0
    ensures ZeroArea(HeaderAt(f, 0)) != StackArea(StackFlags(f, 1)) && !HasArea(f, 1, room, ZeroArea(HeaderAt(f, 0)))
  {
    hide PhdrPos, PhNum, HeaderAt, Field, HeaderOk, StackFlags;
  }
}
