/** Writing the headers of an ELF file (System V gABI, chapter 4, "ELF Header", and chapter 5, "Program
    Header"), and the proof that the loader reads back what was written. */
module ElfHeaders {
  import opened Memory
  import opened Areas
  import opened Elf

  /** The fields of a file header. */
  datatype Ehdr = Ehdr(
    ident: seq<byte>, typ: nat, machine: nat, version: nat, entry: nat, phoff: nat, shoff: nat, flags: nat,
    ehsize: nat, phentsize: nat, phnum: nat, shentsize: nat, shnum: nat, shstrndx: nat)

  function Pow256(n: nat): (r: nat)
    ensures r > 0
  {
    if n == 0 then 1 else 256 * Pow256(n - 1)
  }

  function LittleEndian(n: nat, width: nat): (r: seq<byte>)
    ensures |r| == width
    decreases width
  {
    if width == 0 then [] else [(n % 256) as byte] + LittleEndian(n / 256, width - 1)
  }

  /** A field that was written is read back. */
  lemma {:induction false} FieldRead(f: seq<byte>, at: nat, n: nat, width: nat)
    requires at + width <= |f| && f[at..at + width] == LittleEndian(n, width) && n < Pow256(width)
    ensures Field(f, at, width) == n
    decreases width
  {
    if width > 0 {
      assert f[at..at + width][0] == f[at];
      assert f[at..at + width][1..] == f[at + 1..at + 1 + (width - 1)];
      FieldRead(f, at + 1, n / 256, width - 1);
    }
  }

  predicate EhdrOk(e: Ehdr) {
    && |e.ident| == 16
    && e.typ < Pow256(2) && e.machine < Pow256(2) && e.version < Pow256(4) && e.phoff < Pow256(8)
    && e.phnum < Pow256(2)
  }

  function WriteEhdr(e: Ehdr): (r: seq<byte>)
    requires EhdrOk(e)
    ensures |r| == 64
  {
    e.ident + LittleEndian(e.typ, 2) + LittleEndian(e.machine, 2) + LittleEndian(e.version, 4)
      + LittleEndian(e.entry, 8) + LittleEndian(e.phoff, 8) + LittleEndian(e.shoff, 8) + LittleEndian(e.flags, 4)
      + LittleEndian(e.ehsize, 2) + LittleEndian(e.phentsize, 2) + LittleEndian(e.phnum, 2)
      + LittleEndian(e.shentsize, 2) + LittleEndian(e.shnum, 2) + LittleEndian(e.shstrndx, 2)
  }

  predicate PhdrOk(h: Phdr) {
    && h.typ < Pow256(4) && h.flags < Pow256(4)
    && h.offset < Pow256(8) && h.vaddr < Pow256(8) && h.filesz < Pow256(8) && h.memsz < Pow256(8)
  }

  /** A program header; the loader does not read the last two fields. */
  function WritePhdr(h: Phdr, paddr: nat, align: nat): (r: seq<byte>)
    requires PhdrOk(h)
    ensures |r| == 56
  {
    LittleEndian(h.typ, 4) + LittleEndian(h.flags, 4) + LittleEndian(h.offset, 8) + LittleEndian(h.vaddr, 8)
      + LittleEndian(paddr, 8) + LittleEndian(h.filesz, 8) + LittleEndian(h.memsz, 8) + LittleEndian(align, 8)
  }

  lemma EhdrParts(e: Ehdr)
    requires EhdrOk(e)
    ensures
      var r := WriteEhdr(e);
      && r[..16] == e.ident && r[16..18] == LittleEndian(e.typ, 2) && r[18..20] == LittleEndian(e.machine, 2)
      && r[20..24] == LittleEndian(e.version, 4) && r[32..40] == LittleEndian(e.phoff, 8)
      && r[56..58] == LittleEndian(e.phnum, 2)
  {
    hide LittleEndian, Pow256;
  }

  lemma PhdrParts(h: Phdr, paddr: nat, align: nat)
    requires PhdrOk(h)
    ensures
      var r := WritePhdr(h, paddr, align);
      && r[0..4] == LittleEndian(h.typ, 4) && r[4..8] == LittleEndian(h.flags, 4)
      && r[8..16] == LittleEndian(h.offset, 8) && r[16..24] == LittleEndian(h.vaddr, 8)
      && r[32..40] == LittleEndian(h.filesz, 8) && r[40..48] == LittleEndian(h.memsz, 8)
  {
    hide LittleEndian, Pow256;
  }

  lemma Slice(f: seq<byte>, at: nat, r: seq<byte>, x: nat, y: nat)
    requires at + |r| <= |f| && f[at..at + |r|] == r && x <= y <= |r|
    ensures f[at + x..at + y] == r[x..y]
  {
    var a, b := f[at + x..at + y], r[x..y];
    assert forall i :: 0 <= i < |r| ==> f[at + i] == f[at..at + |r|][i] == r[i];
    assert |a| == |b| && forall i :: 0 <= i < |a| ==> a[i] == f[at + (x + i)] == r[x + i] == b[i];
  }

  /** A file header is accepted exactly if it starts like an ELF file, is of class 2 and little-endian,
      both versions are 1, the type is 2 and the machine 62, and there is a program header table. */
  lemma EhdrRead(f: File, e: Ehdr)
    requires EhdrOk(e) && |f| >= 64 && f[..64] == WriteEhdr(e)
    ensures PhOff(f) == e.phoff && PhNum(f) == e.phnum
    ensures HeaderOk(f) <==>
      && e.ident[0] == 0x7f && e.ident[4] == 2 && e.ident[5] == 1 && e.ident[6] == 1
      && e.typ == 2 && e.machine == 62 && e.version == 1 && e.phoff != 0
  {
    hide LittleEndian, Pow256, WriteEhdr, Field;
    var r := WriteEhdr(e);
    EhdrParts(e);
    assert f[0..0 + 64] == r;
    Slice(f, 0, r, 0, 16);
    assert forall i :: 0 <= i < 16 ==> f[i] == f[0..16][i] == e.ident[i];
    Slice(f, 0, r, 16, 18);
    FieldRead(f, 16, e.typ, 2);
    Slice(f, 0, r, 18, 20);
    FieldRead(f, 18, e.machine, 2);
    Slice(f, 0, r, 20, 24);
    FieldRead(f, 20, e.version, 4);
    Slice(f, 0, r, 32, 40);
    FieldRead(f, 32, e.phoff, 8);
    Slice(f, 0, r, 56, 58);
    FieldRead(f, 56, e.phnum, 2);
  }

  lemma PhdrRead(f: File, pos: nat, h: Phdr, paddr: nat, align: nat)
    requires PhdrOk(h) && pos + 56 <= |f| && f[pos..pos + 56] == WritePhdr(h, paddr, align)
    ensures PhdrAt(f, pos) == h
  {
    hide LittleEndian, Pow256, WritePhdr, Field;
    var r := WritePhdr(h, paddr, align);
    PhdrParts(h, paddr, align);
    Slice(f, pos, r, 0, 4);
    FieldRead(f, pos, h.typ, 4);
    Slice(f, pos, r, 4, 8);
    FieldRead(f, pos + 4, h.flags, 4);
    Slice(f, pos, r, 8, 16);
    FieldRead(f, pos + 8, h.offset, 8);
    Slice(f, pos, r, 16, 24);
    FieldRead(f, pos + 16, h.vaddr, 8);
    Slice(f, pos, r, 32, 40);
    FieldRead(f, pos + 32, h.filesz, 8);
    Slice(f, pos, r, 40, 48);
    FieldRead(f, pos + 40, h.memsz, 8);
  }

  /** The program header table, each entry with its physical address and alignment. */
  function WritePhdrs(hs: seq<(Phdr, nat, nat)>): (r: seq<byte>)
    requires forall h :: h in hs ==> PhdrOk(h.0)
    ensures |r| == 56 * |hs|
  {
    if hs == [] then [] else WritePhdr(hs[0].0, hs[0].1, hs[0].2) + WritePhdrs(hs[1..])
  }

  lemma {:induction false} PhdrsParts(hs: seq<(Phdr, nat, nat)>, i: nat)
    requires (forall h :: h in hs ==> PhdrOk(h.0)) && i < |hs|
    ensures WritePhdrs(hs)[56 * i..56 * i + 56] == WritePhdr(hs[i].0, hs[i].1, hs[i].2)
  {
    hide WritePhdr;
    if i > 0 {
      PhdrsParts(hs[1..], i - 1);
      var r := WritePhdrs(hs);
      assert r[56..] == WritePhdrs(hs[1..]);
      assert r[56..][56 * (i - 1)..56 * (i - 1) + 56] == r[56 * i..56 * i + 56];
    }
  }

  /** A file with its program headers behind the file header and a gap. All of them are read back. */
  lemma HeadersRead(f: File, e: Ehdr, gap: seq<byte>, hs: seq<(Phdr, nat, nat)>, rest: seq<byte>, i: nat)
    requires EhdrOk(e) && (forall h :: h in hs ==> PhdrOk(h.0)) && i < |hs|
    requires e.phoff == 64 + |gap| && e.phnum == |hs|
    requires f == WriteEhdr(e) + gap + WritePhdrs(hs) + rest && HeaderOk(f)
    ensures PhNum(f) == |hs| && HeaderAt(f, i) == hs[i].0
  {
    hide WriteEhdr, WritePhdrs, WritePhdr, EhdrOk, HeaderOk, PhdrAt, Pow256, PhdrOk;
    var table := WritePhdrs(hs);
    TableAt(f, WriteEhdr(e), gap, table, rest);
    EhdrRead(f, e);
    PhdrsParts(hs, i);
    Slice(f, e.phoff, table, 56 * i, 56 * i + 56);
    PhdrRead(f, e.phoff + 56 * i, hs[i].0, hs[i].1, hs[i].2);
    AtIndex(f, i);
  }

  lemma TableAt(f: seq<byte>, front: seq<byte>, gap: seq<byte>, table: seq<byte>, rest: seq<byte>)
    requires f == front + gap + table + rest
    ensures f[..|front|] == front
    ensures
      var at := |front| + |gap|;
      at + |table| <= |f| && f[at..at + |table|] == table
  {
  }

  lemma AtIndex(f: File, i: nat)
    requires HeaderOk(f) && PhOff(f) + 56 * i + 56 <= |f|
    ensures HeaderAt(f, i) == PhdrAt(f, PhOff(f) + 56 * i)
  {
    hide Field, PhOff, PhdrAt;
    SmallMod(PhOff(f) + i * PHDR_SIZE);
  }
}
