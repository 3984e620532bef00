/** Pages, page numbers and the four-way split of a virtual address (src/include/mem.h), and numbers
    of 32 bits. */
module Memory {

  const PAGE_SIZE := 4096
  const MEM_BOTTOM_HALF := 0x0000_8000_0000_0000
  const MEM_TOP_HALF := 0xffff_8000_0000_0000
  const U32_LIMIT := 0x1_0000_0000
  const U64_LIMIT := 0x1_0000_0000_0000_0000

  const MAX_S32 := 0x7fff_ffff
  const MIN_S32 := -0x8000_0000

  /** A signed number of 32 bits. */
  type s32 = x: int | MIN_S32 <= x <= MAX_S32

  newtype byte = x: int | 0 <= x < 256

  type Page = p: seq<byte> | |p| == PAGE_SIZE witness seq(PAGE_SIZE, _ => 0)

  /** What `memset(p, 0, n)` leaves. */
  function Zeros(n: nat): (r: seq<byte>)
    ensures |r| == n && forall m :: 0 <= m < n ==> r[m] == 0
  {
    seq(n, _ => 0)
  }

  datatype Option<+T> = None | Some(value: T)

  /** One nine-bit index into a page table. */
  type Ix = x: int | 0 <= x < 512

  /** A page number of the 48-bit address space, as its four table indices. */
  datatype PageIx = PageIx(i: Ix, j: Ix, k: Ix, l: Ix)

  /** The pages of the lower half, the only ones user code can be given. */
  predicate IsUser(p: PageIx) { p.i < 256 }

  /** ROUND_PAGE_DOWN on an unbounded address. */
  function RoundPageDown(a: nat): (r: nat)
    ensures r % PAGE_SIZE == 0 && r <= a < r + PAGE_SIZE
  {
    a / PAGE_SIZE * PAGE_SIZE
  }

  /** ROUND_PAGE_UP in an unsigned type whose values are below `limit`: the addition wraps. */
  function RoundPageUp(a: nat, limit: nat): (r: nat)
    requires limit == U32_LIMIT || limit == U64_LIMIT
    ensures r % PAGE_SIZE == 0
    ensures a + PAGE_SIZE - 1 < limit ==> a <= r < a + PAGE_SIZE
  {
    (a + PAGE_SIZE - 1) % limit / PAGE_SIZE * PAGE_SIZE
  }

  /** The four indices the hardware and `find_user_pte` extract from an address. */
  function PageOf(addr: nat): PageIx
  {
    PageIx(addr / 0x80_0000_0000 % 512, addr / 0x4000_0000 % 512, addr / 0x20_0000 % 512, addr / 0x1000 % 512)
  }

  function OffsetOf(addr: nat): (r: nat)
    ensures r < PAGE_SIZE
  {
    addr % PAGE_SIZE
  }

  /** The address `clone_mm` rebuilds from its four loop indices. */
  function PageAddr(p: PageIx): (r: nat)
    ensures r % PAGE_SIZE == 0
    ensures r < 2 * MEM_BOTTOM_HALF
    ensures IsUser(p) <==> r < MEM_BOTTOM_HALF
  {
    p.i * 0x80_0000_0000 + p.j * 0x4000_0000 + p.k * 0x20_0000 + p.l * 0x1000
  }

  /** Splitting an address into indices and rebuilding it loses exactly the offset. */
  lemma AddressOfIndices(addr: nat)
    requires addr < 2 * MEM_BOTTOM_HALF
    ensures PageAddr(PageOf(addr)) == RoundPageDown(addr)
    ensures PageAddr(PageOf(addr)) + OffsetOf(addr) == addr
    ensures IsUser(PageOf(addr)) <==> addr < MEM_BOTTOM_HALF
  {
    var p := PageOf(addr);
    var a1 := addr / 0x1000;
    var a2 := addr / 0x20_0000;
    var a3 := addr / 0x4000_0000;
    var a4 := addr / 0x80_0000_0000;
    assert a2 == a1 / 512;
    assert a3 == a2 / 512;
    assert a4 == a3 / 512;
    assert a4 < 512;
    assert a1 == a2 * 512 + p.l;
    assert a2 == a3 * 512 + p.k;
    assert a3 == a4 * 512 + p.j;
    assert a4 == p.i;
  }

  /** The address rebuilt from loop indices walks back to the same table entry. */
  lemma IndicesOfAddress(p: PageIx, off: nat)
    requires off < PAGE_SIZE
    ensures PageOf(PageAddr(p) + off) == p
    ensures OffsetOf(PageAddr(p) + off) == off
  {
    var addr := PageAddr(p) + off;
    var a3 := p.i * 512 + p.j;
    var a2 := a3 * 512 + p.k;
    var a1 := a2 * 512 + p.l;
    assert addr == a1 * 0x1000 + off;
    assert addr / 0x1000 == a1;
    assert addr / 0x20_0000 == addr / 0x1000 / 512 == a2;
    assert addr / 0x4000_0000 == addr / 0x20_0000 / 512 == a3;
    assert addr / 0x80_0000_0000 == addr / 0x4000_0000 / 512 == p.i;
  }

  /** An int of 32 bits holds n up to multiples of 2^32. */
  function Signed32(n: int): (r: s32)
    ensures (r - n) % U32_LIMIT == 0
  {
    var m := n % U32_LIMIT;
    if m < 0x8000_0000 then m else m - U32_LIMIT
  }

  /** The page behind: the last index counts up, and the one before it when that starts again. */
  function PageBehind(p: PageIx): PageIx {
    if p.l < 511 then p.(l := p.l + 1)
    else if p.k < 511 then p.(k := p.k + 1, l := 0)
    else if p.j < 511 then p.(j := p.j + 1, k := 0, l := 0)
    else PageIx((p.i + 1) % 512, 0, 0, 0)
  }

  /** Pages in order. */
  lemma NextPage(addr: nat)
    requires addr + PAGE_SIZE < 2 * MEM_BOTTOM_HALF
    ensures PageOf(addr + PAGE_SIZE) == PageBehind(PageOf(addr))
  {
    hide PageOf, OffsetOf, IsUser, RoundPageDown;
    var p, off := PageOf(addr), OffsetOf(addr);
    AddressOfIndices(addr);
    Carry(p, off);
    hide PageAddr, PageBehind;
    IndicesOfAddress(PageBehind(p), off);
  }

  lemma FirstPage()
    ensures PageOf(0) == PageIx(0, 0, 0, 0)
  {
  }

  lemma Carry(p: PageIx, off: nat)
    requires PageAddr(p) + off + PAGE_SIZE < 2 * MEM_BOTTOM_HALF
    ensures PageAddr(PageBehind(p)) == PageAddr(p) + PAGE_SIZE
  {
  }

  lemma ModSame(a: int, b: int, q: int)
    requires a == b + q * U32_LIMIT
    ensures a % U32_LIMIT == b % U32_LIMIT
  {
    assert a == a / U32_LIMIT * U32_LIMIT + a % U32_LIMIT;
    assert b == b / U32_LIMIT * U32_LIMIT + b % U32_LIMIT;
  }

  /** Counting up or down by k in 32 bits. */
  lemma Signed32Add(n: int, k: int)
    ensures Signed32(Signed32(n) + k) == Signed32(n + k)
  {
    var q := n / U32_LIMIT + if n % U32_LIMIT < 0x8000_0000 then 0 else 1;
    assert n == n / U32_LIMIT * U32_LIMIT + n % U32_LIMIT;
    ModSame(n + k, Signed32(n) + k, q);
  }

  /** When a count reads 1. */
  lemma Signed32Is1(n: int)
    ensures Signed32(n) == 1 <==> n % U32_LIMIT == 1
    ensures 2 <= n <= U32_LIMIT ==> Signed32(n) != 1
    ensures MIN_S32 <= n <= MAX_S32 ==> (Signed32(n - 1) == 0 <==> n == 1)
  {
  }

  lemma Signed32Step(n: int)
    ensures Signed32(Signed32(n) + 1) == Signed32(n + 1) && Signed32(Signed32(n) - 1) == Signed32(n - 1)
    ensures Signed32(n) == 1 <==> n % U32_LIMIT == 1
    ensures 2 <= n <= U32_LIMIT ==> Signed32(n) != 1
    ensures MIN_S32 <= n <= MAX_S32 ==> (Signed32(n - 1) == 0 <==> n == 1)
  {
    hide Signed32;
    Signed32Add(n, 1);
    Signed32Add(n, -1);
    Signed32Is1(n);
  }

  lemma SubsetCard<T>(a: set<T>, b: set<T>)
    requires a <= b
    ensures |a| <= |b|
  {
    var rest := b - a;
    assert b == a + rest;
  }
}
